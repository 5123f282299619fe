/**
 * The round engine of gameLoop.js: one tick of the game loop over the store,
 * and the steps it runs (bot predictions, the final node's prediction, the
 * accuracy record, the weight update, opening the next round, ending the
 * game).
 *
 * Each step is a function from one store value to the next, and a method on
 * the `Store` class that performs the same writes and is proved to end in
 * that value. A missing row, a missing image or a missing final node makes the
 * source throw (or dereference `null`) before its first write, so each such
 * case is a step that changes nothing.
 */
module GameLoop {
  import opened Wrappers
  import opened Store
  import opened Topology
  import opened Learning

  // ---------------------------------------------------------------------
  // Participants

  /** The participants table with the same participants, groups and bot flags (only `has_given_input` may differ). */
  predicate SameRoster(us: seq<User>, vs: seq<User>)
  {
    && |us| == |vs|
    && forall i | 0 <= i < |us| :: us[i].id == vs[i].id && us[i].groupNumber == vs[i].groupNumber && us[i].isBot == vs[i].isBot
  }

  lemma {:induction false} SameRosterGroup(us: seq<User>, vs: seq<User>, g: int)
    requires SameRoster(us, vs)
    ensures Members(us, g) == Members(vs, g) && Bots(us, g) == Bots(vs, g)
  {
    if us != [] {
      var n := |us| - 1;
      SameRosterGroup(us[..n], vs[..n], g);
    }
  }

  lemma {:induction false} SameRosterQueries(us: seq<User>, vs: seq<User>)
    requires SameRoster(us, vs)
    ensures forall g :: Members(us, g) == Members(vs, g) && Bots(us, g) == Bots(vs, g)
    ensures FinalNodeId(us) == FinalNodeId(vs)
  {
    forall g ensures Members(us, g) == Members(vs, g) && Bots(us, g) == Bots(vs, g) {
      SameRosterGroup(us, vs, g);
    }
  }

  /** `update({ has_given_input: true }).eq('id', id)`. */
  function MarkGiven(users: seq<User>, id: int): (r: seq<User>)
    ensures SameRoster(users, r)
    ensures forall i | 0 <= i < |r| :: r[i].hasGivenInput == (users[i].hasGivenInput || users[i].id == id)
  {
    seq(|users|, i requires 0 <= i < |users| => if users[i].id == id then users[i].(hasGivenInput := true) else users[i])
  }

  /** `update({ has_given_input: true }).eq('group_number', group)`. */
  function MarkGroupGiven(users: seq<User>, group: int): (r: seq<User>)
    ensures SameRoster(users, r)
    ensures forall i | 0 <= i < |r| :: r[i].hasGivenInput == (users[i].hasGivenInput || users[i].groupNumber == group)
  {
    seq(|users|, i requires 0 <= i < |users| => if users[i].groupNumber == group then users[i].(hasGivenInput := true) else users[i])
  }

  /** The group number the new-round reset skips. */
  const ResetExemptGroup: int := 100

  /** `update({ has_given_input: false }).neq('group_number', 100)`. */
  function ResetInputs(users: seq<User>): (r: seq<User>)
    ensures SameRoster(users, r)
    ensures forall i | 0 <= i < |r| :: r[i].hasGivenInput == (users[i].hasGivenInput && users[i].groupNumber == ResetExemptGroup)
  {
    seq(|users|, i requires 0 <= i < |users| =>
      if users[i].groupNumber != ResetExemptGroup then users[i].(hasGivenInput := false) else users[i])
  }

  lemma {:induction false} BotsDistinct(users: seq<User>, group: int)
    requires forall i, j | 0 <= i < j < |users| :: users[i].id != users[j].id
    ensures Distinct(Bots(users, group))
  {
    if users != [] {
      var init := users[..|users| - 1];
      var last := users[|users| - 1];
      BotsDistinct(init, group);
      var bs := Bots(init, group);
      forall x | x in bs ensures x != last.id {
        var u :| u in init && u.id == x && u.groupNumber == group && u.isBot;
        var i :| 0 <= i < |init| && init[i] == u;
        assert users[i] == u;
      }
      if last.groupNumber == group && last.isBot {
        var r := bs + [last.id];
        forall i, j | 0 <= i < j < |r| ensures r[i] != r[j] {
          if j == |bs| {
            assert r[i] in bs;
          } else {
            assert r[i] == bs[i] && r[j] == bs[j];
          }
        }
      }
    }
  }

  // ---------------------------------------------------------------------
  // Rows

  /** A row replaced by one with the same round number leaves every round lookup as it was. */
  lemma {:induction false} FindRoundUpdate(rounds: seq<GameState>, k: nat, row: GameState, round: int)
    requires k < |rounds| && row.currentRound == rounds[k].currentRound
    ensures FindRound(rounds[k := row], round) == FindRound(rounds, round)
  {
    StableFindRound(rounds, rounds[k := row], round);
  }

  /** Two stores agree on everything the steps below use to find rows, participants and labels. */
  predicate Stable(a: Db, b: Db)
  {
    && |b.rounds| == |a.rounds|
    && (forall i | 0 <= i < |a.rounds| ::
          b.rounds[i].currentRound == a.rounds[i].currentRound && b.rounds[i].currentImageId == a.rounds[i].currentImageId
          && b.rounds[i].gameStarted == a.rounds[i].gameStarted)
    && SameRoster(a.users, b.users)
    && b.images == a.images
    && b.edges == a.edges
    && b.nextEdgeId == a.nextEdgeId
  }

  lemma {:induction false} StableFacts(a: Db, b: Db)
    requires Stable(a, b)
    ensures forall round :: FindRound(b.rounds, round) == FindRound(a.rounds, round)
    ensures forall g :: Members(b.users, g) == Members(a.users, g) && Bots(b.users, g) == Bots(a.users, g)
    ensures FinalNodeId(b.users) == FinalNodeId(a.users)
  {
    SameRosterQueries(a.users, b.users);
    forall round ensures FindRound(b.rounds, round) == FindRound(a.rounds, round) {
      StableFindRound(a.rounds, b.rounds, round);
    }
  }

  lemma {:induction false} StableFindRound(a: seq<GameState>, b: seq<GameState>, round: int)
    requires |a| == |b| && forall i | 0 <= i < |a| :: a[i].currentRound == b[i].currentRound
    ensures FindRound(b, round) == FindRound(a, round)
  {
    if a != [] {
      StableFindRound(a[1..], b[1..], round);
    }
  }

  /** Row `i` has the same prediction list for `layer` in both stores. */
  predicate KeepsList(a: Db, b: Db, layer: Layer)
    requires |b.rounds| == |a.rounds|
  {
    forall i | 0 <= i < |a.rounds| :: Predictions(b.rounds[i], layer) == Predictions(a.rounds[i], layer)
  }

  /** Every row has the same completion flags, final prediction and game-over flag in both stores. */
  predicate KeepsFlags(a: Db, b: Db)
    requires |b.rounds| == |a.rounds|
  {
    forall i | 0 <= i < |a.rounds| ::
      && b.rounds[i].group1Complete == a.rounds[i].group1Complete
      && b.rounds[i].finalPrediction == a.rounds[i].finalPrediction
      && b.rounds[i].isRoundComplete == a.rounds[i].isRoundComplete
      && b.rounds[i].isWeightsUpdated == a.rounds[i].isWeightsUpdated
      && b.rounds[i].gameOver == a.rounds[i].gameOver
  }

  /** The other intermediate layer. */
  function Other(layer: Layer): Layer
  {
    match layer
    case Group1 => Group2
    case Group2 => Group1
  }

  /** `b` differs from `a` at most in round `round`'s `layer` list and in input flags. */
  predicate BotFrame(a: Db, b: Db, round: int, layer: Layer)
  {
    && Stable(a, b)
    && KeepsList(a, b, Other(layer))
    && KeepsFlags(a, b)
    && b.accuracies == a.accuracies
    && forall i | 0 <= i < |a.rounds| && Some(i) != FindRound(a.rounds, round) :: b.rounds[i] == a.rounds[i]
  }

  lemma {:induction false} BotFrameTrans(a: Db, b: Db, c: Db, round: int, layer: Layer)
    requires BotFrame(a, b, round, layer) && BotFrame(b, c, round, layer)
    ensures BotFrame(a, c, round, layer)
  {
    StableFindRound(a.rounds, b.rounds, round);
    SameRosterTrans(a.users, b.users, c.users);
  }

  lemma {:induction false} SameRosterTrans(us: seq<User>, vs: seq<User>, ws: seq<User>)
    requires SameRoster(us, vs) && SameRoster(vs, ws)
    ensures SameRoster(us, ws)
  {
  }

  // ---------------------------------------------------------------------
  // Bot submissions (lines 320-355)

  /** The bot's vote: `Math.random() < 0.5 ? -1 : 1`, with the draw `u` passed in. */
  function BotVote(u: real): int
  {
    if u < 0.5 then -1 else 1
  }

  /** `submitBotPrediction`: append the bot's vote to its layer's list of round `round`, unless it is already there. */
  function Submit(db: Db, botId: int, round: int, layer: Layer, u: real): Db
  {
    match FindRound(db.rounds, round)
    case None => db
    case Some(k) =>
      var row := db.rounds[k];
      var ps := Predictions(row, layer);
      if HasUser(ps, botId) then db
      else
        db.(rounds := db.rounds[k := WithPredictions(row, layer, ps + [Prediction(botId, BotVote(u))])],
            users := MarkGiven(db.users, botId))
  }

  /**
   * A submission appends exactly one entry, at the end of the bot's layer's
   * list, and marks the bot as having given input; a bot already in the
   * list, or a round that is not there, leaves the store as it was.
   */
  lemma {:induction false} SubmitEffect(db: Db, botId: int, round: int, layer: Layer, u: real)
    ensures BotFrame(db, Submit(db, botId, round, layer, u), round, layer)
    ensures forall k | FindRound(db.rounds, round) == Some(k) ::
      var ps := Predictions(db.rounds[k], layer);
      && (HasUser(ps, botId) ==> Submit(db, botId, round, layer, u) == db)
      && (!HasUser(ps, botId) ==>
            && Predictions(Submit(db, botId, round, layer, u).rounds[k], layer) == ps + [Prediction(botId, BotVote(u))]
            && Submit(db, botId, round, layer, u).users == MarkGiven(db.users, botId))
    ensures FindRound(db.rounds, round).None? ==> Submit(db, botId, round, layer, u) == db
  {
    match FindRound(db.rounds, round)
    case None =>
      BotFrameRefl(db, round, layer);
    case Some(k) =>
      var row := db.rounds[k];
      var ps := Predictions(row, layer);
      if HasUser(ps, botId) {
        BotFrameRefl(db, round, layer);
      } else {
        var row' := WithPredictions(row, layer, ps + [Prediction(botId, BotVote(u))]);
        RowReplaceFrame(db, k, row', MarkGiven(db.users, botId), round, layer);
      }
  }

  lemma {:induction false} BotFrameRefl(db: Db, round: int, layer: Layer)
    ensures BotFrame(db, db, round, layer)
  {
  }

  /** Replacing the row of round `round` by one that differs only in its `layer` list, and rewriting input flags, stays inside the frame. */
  lemma {:induction false} RowReplaceFrame(db: Db, k: nat, row: GameState, users: seq<User>, round: int, layer: Layer)
    requires FindRound(db.rounds, round) == Some(k) && k < |db.rounds|
    requires row == WithPredictions(db.rounds[k], layer, Predictions(row, layer))
    requires SameRoster(db.users, users)
    ensures BotFrame(db, db.(rounds := db.rounds[k := row], users := users), round, layer)
  {
    var old_ := db.rounds[k];
    assert row.currentRound == old_.currentRound && row.currentImageId == old_.currentImageId && row.gameStarted == old_.gameStarted;
    assert row.group1Complete == old_.group1Complete && row.finalPrediction == old_.finalPrediction;
    assert row.isRoundComplete == old_.isRoundComplete && row.isWeightsUpdated == old_.isWeightsUpdated;
    assert Predictions(row, Other(layer)) == Predictions(old_, Other(layer));
    var d := db.(rounds := db.rounds[k := row], users := users);
    assert Stable(db, d);
    assert KeepsList(db, d, Other(layer));
    assert KeepsFlags(db, d);
  }

  /** A second submission for the same bot and round changes nothing. */
  lemma {:induction false} SubmitOnce(db: Db, botId: int, round: int, layer: Layer, u: real, u': real)
    ensures Submit(Submit(db, botId, round, layer, u), botId, round, layer, u') == Submit(db, botId, round, layer, u)
  {
    var d := Submit(db, botId, round, layer, u);
    match FindRound(db.rounds, round)
    case None =>
    case Some(k) =>
      var ps := Predictions(db.rounds[k], layer);
      if !HasUser(ps, botId) {
        FindRoundUpdate(db.rounds, k, d.rounds[k], round);
        var entry := Prediction(botId, BotVote(u));
        assert entry in Predictions(d.rounds[k], layer);
      }
  }

  lemma {:induction false} SubmitWf(db: Db, botId: int, round: int, layer: Layer, u: real)
    requires Wf(db)
    ensures Wf(Submit(db, botId, round, layer, u))
  {
    match FindRound(db.rounds, round)
    case None =>
    case Some(k) =>
      var row := db.rounds[k];
      var ps := Predictions(row, layer);
      if !HasUser(ps, botId) {
        assert row in db.rounds;
        var p := Prediction(botId, BotVote(u));
        DistinctSnoc(ps, p);
        var row' := WithPredictions(row, layer, ps + [p]);
        assert Predictions(row', Other(layer)) == Predictions(row, Other(layer));
        assert DistinctUsers(Predictions(row', Group1)) && DistinctUsers(Predictions(row', Group2));
        RowWf(db, k, row', MarkGiven(db.users, botId));
      }
  }

  /** Appending an entry for a participant the list lacks keeps it duplicate-free. */
  lemma {:induction false} DistinctSnoc(ps: seq<Prediction>, p: Prediction)
    requires DistinctUsers(ps) && !HasUser(ps, p.userId)
    ensures DistinctUsers(ps + [p])
  {
    var qs := ps + [p];
    forall i, j | 0 <= i < j < |qs| ensures qs[i].userId != qs[j].userId {
      if j == |ps| {
        assert qs[i] in ps;
      } else {
        assert qs[i] == ps[i] && qs[j] == ps[j];
      }
    }
  }

  method SubmitBotPrediction(s: Store, botId: int, round: int, layer: Layer, u: real)
    requires s.Valid()
    modifies s
    ensures s.Valid()
    ensures s.State() == Submit(old(s.State()), botId, round, layer, u)
  {
    ghost var db := s.State();
    SubmitWf(db, botId, round, layer, u);
    var vote := if u < 0.5 then -1 else 1;
    var found := FindRound(s.rounds, round);
    if found.None? {
      return;
    }
    var k := found.value;
    var ps := Predictions(s.rounds[k], layer);
    if HasUser(ps, botId) {
      return;
    }
    s.rounds := s.rounds[k := WithPredictions(s.rounds[k], layer, ps + [Prediction(botId, vote)])];
    s.users := MarkGiven(s.users, botId);
  }

  // ---------------------------------------------------------------------
  // Prompting idle bots (lines 284-318)

  /** The ids in `bots` with no entry in the snapshot list `snap`, in order. */
  function Absent(bots: seq<int>, snap: seq<Prediction>): (r: seq<int>)
    ensures forall b :: b in r <==> b in bots && !HasUser(snap, b)
  {
    if bots == [] then []
    else
      var b := bots[|bots| - 1];
      assert bots == bots[..|bots| - 1] + [b];
      Absent(bots[..|bots| - 1], snap) + (if HasUser(snap, b) then [] else [b])
  }

  lemma {:induction false} AbsentDistinct(bots: seq<int>, snap: seq<Prediction>)
    requires Distinct(bots)
    ensures Distinct(Absent(bots, snap))
  {
    if bots != [] {
      var init := bots[..|bots| - 1];
      var b := bots[|bots| - 1];
      assert Distinct(init);
      AbsentDistinct(init, snap);
      var r := Absent(init, snap);
      forall x | x in r ensures x != b {
        var i :| 0 <= i < |init| && init[i] == x;
        assert bots[i] == x;
      }
      if !HasUser(snap, b) {
        var r' := r + [b];
        forall i, j | 0 <= i < j < |r'| ensures r'[i] != r'[j] {
          if j == |r| {
            assert r'[i] in r;
          } else {
            assert r'[i] == r[i] && r'[j] == r[j];
          }
        }
      }
    }
  }

  /** A prompted bot together with the draw its vote is made from. */
  datatype Call = Call(bot: int, draw: real)

  /** The calls for the bots `ids`, the `i`-th drawing `random(i)`. */
  function Calls(ids: seq<int>, random: nat -> real): (r: seq<Call>)
    ensures |r| == |ids|
  {
    seq(|ids|, i requires 0 <= i < |ids| => Call(ids[i], random(i)))
  }

  /** One submission per call, in order. */
  function SubmitEach(db: Db, cs: seq<Call>, round: int, layer: Layer): Db
  {
    if cs == [] then db
    else
      var c := cs[|cs| - 1];
      Submit(SubmitEach(db, cs[..|cs| - 1], round, layer), c.bot, round, layer, c.draw)
  }

  /** The entries the calls `cs` add. */
  function Votes(cs: seq<Call>): (r: seq<Prediction>)
    ensures |r| == |cs|
  {
    seq(|cs|, i requires 0 <= i < |cs| => Prediction(cs[i].bot, BotVote(cs[i].draw)))
  }

  /** `handleGroup1Bots` / `handleGroup2Bots`: submit for every bot of the layer that the snapshot row lacks. */
  function HandleBots(db: Db, snap: GameState, layer: Layer, random: nat -> real): Db
  {
    SubmitEach(db, Calls(Absent(Bots(db.users, GroupNumber(layer)), Predictions(snap, layer)), random), snap.currentRound, layer)
  }

  lemma SnocParts<T>(xs: seq<T>, x: T)
    ensures (xs + [x])[..|xs + [x]| - 1] == xs && (xs + [x])[|xs + [x]| - 1] == x
  {
  }

  lemma {:induction false} SubmitEachSnoc(db: Db, cs: seq<Call>, c: Call, round: int, layer: Layer)
    ensures SubmitEach(db, cs + [c], round, layer) == Submit(SubmitEach(db, cs, round, layer), c.bot, round, layer, c.draw)
  {
    SnocParts(cs, c);
  }

  lemma {:induction false} SubmitEachKeeps(db: Db, cs: seq<Call>, round: int, layer: Layer)
    ensures BotFrame(db, SubmitEach(db, cs, round, layer), round, layer)
  {
    if cs != [] {
      var init := cs[..|cs| - 1];
      var c := cs[|cs| - 1];
      var d := SubmitEach(db, init, round, layer);
      SubmitEachKeeps(db, init, round, layer);
      SubmitEffect(d, c.bot, round, layer, c.draw);
      BotFrameTrans(db, d, Submit(d, c.bot, round, layer, c.draw), round, layer);
    } else {
      SameRosterTrans(db.users, db.users, db.users);
    }
  }

  lemma {:induction false} SubmitAppendsAt(d: Db, b: int, round: int, layer: Layer, u: real, row: nat)
    requires FindRound(d.rounds, round) == Some(row)
    requires !HasUser(Predictions(d.rounds[row], layer), b)
    ensures |Submit(d, b, round, layer, u).rounds| == |d.rounds|
    ensures Predictions(Submit(d, b, round, layer, u).rounds[row], layer) == Predictions(d.rounds[row], layer) + [Prediction(b, BotVote(u))]
  {
  }

  lemma {:induction false} SubmitEachFindsRow(db: Db, cs: seq<Call>, round: int, layer: Layer)
    ensures |SubmitEach(db, cs, round, layer).rounds| == |db.rounds|
    ensures FindRound(SubmitEach(db, cs, round, layer).rounds, round) == FindRound(db.rounds, round)
  {
    SubmitEachKeeps(db, cs, round, layer);
    StableFacts(db, SubmitEach(db, cs, round, layer));
  }

  lemma {:induction false} VotesSnoc(cs: seq<Call>)
    requires cs != []
    ensures Votes(cs) == Votes(cs[..|cs| - 1]) + [Prediction(cs[|cs| - 1].bot, BotVote(cs[|cs| - 1].draw))]
  {
  }

  lemma {:induction false} VotesLack(ps: seq<Prediction>, cs: seq<Call>, b: int)
    requires !HasUser(ps, b) && forall i | 0 <= i < |cs| :: cs[i].bot != b
    ensures !HasUser(ps + Votes(cs), b)
  {
    var qs := ps + Votes(cs);
    forall p | p in qs ensures p.userId != b {
      var j :| 0 <= j < |qs| && qs[j] == p;
      if j >= |ps| {
        assert p.userId == cs[j - |ps|].bot;
      } else {
        assert p in ps;
      }
    }
  }

  /**
   * Calls for distinct bots that are all missing from the row's list each
   * append exactly one entry, in order, after the entries already there.
   */
  lemma {:induction false} SubmitEachAppends(db: Db, cs: seq<Call>, round: int, layer: Layer, row: nat)
    requires FindRound(db.rounds, round) == Some(row)
    requires forall i, j | 0 <= i < j < |cs| :: cs[i].bot != cs[j].bot
    requires forall i | 0 <= i < |cs| :: !HasUser(Predictions(db.rounds[row], layer), cs[i].bot)
    ensures |SubmitEach(db, cs, round, layer).rounds| == |db.rounds|
    ensures Predictions(SubmitEach(db, cs, round, layer).rounds[row], layer) == Predictions(db.rounds[row], layer) + Votes(cs)
  {
    var ps := Predictions(db.rounds[row], layer);
    if cs == [] {
      assert ps + Votes(cs) == ps;
    } else {
      var n := |cs| - 1;
      var init := cs[..n];
      var c := cs[n];
      assert forall i | 0 <= i < |init| :: init[i] == cs[i];
      SubmitEachAppends(db, init, round, layer, row);
      var d := SubmitEach(db, init, round, layer);
      SubmitEachFindsRow(db, init, round, layer);
      VotesLack(ps, init, c.bot);
      SubmitAppendsAt(d, c.bot, round, layer, c.draw, row);
      VotesSnoc(cs);
      AppendAssoc(ps, Votes(init), [Prediction(c.bot, BotVote(c.draw))]);
    }
  }

  /**
   * Prompting the bots of a layer from an up-to-date snapshot gives each bot
   * missing from the list exactly one entry, appended in table order, and
   * afterwards every bot of the layer has an entry.
   */
  lemma {:induction false} HandleBotsEachOnce(db: Db, layer: Layer, random: nat -> real, row: nat)
    requires Wf(db) && row < |db.rounds|
    ensures
      var snap := db.rounds[row];
      var missing := Absent(Bots(db.users, GroupNumber(layer)), Predictions(snap, layer));
      && |HandleBots(db, snap, layer, random).rounds| == |db.rounds|
      && Predictions(HandleBots(db, snap, layer, random).rounds[row], layer) == Predictions(snap, layer) + Votes(Calls(missing, random))
      && (forall b | b in Bots(db.users, GroupNumber(layer)) :: HasUser(Predictions(HandleBots(db, snap, layer, random).rounds[row], layer), b))
  {
    var snap := db.rounds[row];
    var bots := Bots(db.users, GroupNumber(layer));
    var ps := Predictions(snap, layer);
    var missing := Absent(bots, ps);
    LatestIsUnique(db.rounds, row);
    BotsDistinct(db.users, GroupNumber(layer));
    AbsentDistinct(bots, ps);
    CallsFor(missing, ps, random);
    SubmitEachAppends(db, Calls(missing, random), snap.currentRound, layer, row);
    VotesCover(ps, bots, random);
  }

  /** The calls for distinct ids missing from `ps` are for distinct bots missing from `ps`. */
  lemma {:induction false} CallsFor(missing: seq<int>, ps: seq<Prediction>, random: nat -> real)
    requires Distinct(missing) && forall b | b in missing :: !HasUser(ps, b)
    ensures var cs := Calls(missing, random);
      && (forall i, j | 0 <= i < j < |cs| :: cs[i].bot != cs[j].bot)
      && (forall i | 0 <= i < |cs| :: !HasUser(ps, cs[i].bot))
  {
    var cs := Calls(missing, random);
    assert forall i | 0 <= i < |cs| :: cs[i].bot == missing[i] && missing[i] in missing;
  }

  /** Appending a vote for every bot missing from `ps` leaves no bot without one. */
  lemma {:induction false} VotesCover(ps: seq<Prediction>, bots: seq<int>, random: nat -> real)
    ensures forall b | b in bots :: HasUser(ps + Votes(Calls(Absent(bots, ps), random)), b)
  {
    var missing := Absent(bots, ps);
    var after := ps + Votes(Calls(missing, random));
    var votes := Votes(Calls(missing, random));
    forall b | b in bots ensures HasUser(after, b) {
      if HasUser(ps, b) {
        var p :| p in ps && p.userId == b;
        assert p in after;
      } else {
        var i :| 0 <= i < |missing| && missing[i] == b;
        assert after[|ps| + i] == votes[i];
      }
    }
  }


  /** With rows in increasing order, each row is the one its round number finds. */
  lemma {:induction false} LatestIsUnique(rounds: seq<GameState>, k: nat)
    requires RoundsIncreasing(rounds) && k < |rounds|
    ensures FindRound(rounds, rounds[k].currentRound) == Some(k)
  {
    assert rounds[k] in rounds;
    var j := FindRound(rounds, rounds[k].currentRound).value;
    assert rounds[j].currentRound == rounds[k].currentRound;
  }

  lemma {:induction false} AbsentSnoc(bots: seq<int>, i: nat, snap: seq<Prediction>)
    requires i < |bots|
    ensures Absent(bots[..i + 1], snap) == Absent(bots[..i], snap) + (if HasUser(snap, bots[i]) then [] else [bots[i]])
  {
    assert bots[..i + 1][..i] == bots[..i];
  }

  /** One turn of the prompting loop: the next bot is skipped or gets the next draw. */
  lemma {:induction false} PromptNext(db: Db, bots: seq<int>, i: nat, snap: seq<Prediction>, round: int, layer: Layer, random: nat -> real)
    requires i < |bots|
    ensures var done := Absent(bots[..i], snap);
      && Absent(bots[..i + 1], snap) == (if HasUser(snap, bots[i]) then done else done + [bots[i]])
      && SubmitEach(db, Calls(Absent(bots[..i + 1], snap), random), round, layer)
         == if HasUser(snap, bots[i]) then SubmitEach(db, Calls(done, random), round, layer)
            else Submit(SubmitEach(db, Calls(done, random), round, layer), bots[i], round, layer, random(|done|))
  {
    AbsentSnoc(bots, i, snap);
    var done := Absent(bots[..i], snap);
    if !HasUser(snap, bots[i]) {
      PromptStep(db, done, bots[i], round, layer, random);
    }
  }

  lemma {:induction false} PromptStep(db: Db, done: seq<int>, b: int, round: int, layer: Layer, random: nat -> real)
    ensures SubmitEach(db, Calls(done + [b], random), round, layer)
         == Submit(SubmitEach(db, Calls(done, random), round, layer), b, round, layer, random(|done|))
  {
    var c := Call(b, random(|done|));
    assert Calls(done + [b], random) == Calls(done, random) + [c];
    SubmitEachSnoc(db, Calls(done, random), c, round, layer);
  }

  method HandleGroupBots(s: Store, snap: GameState, layer: Layer, random: nat -> real)
    requires s.Valid()
    modifies s
    ensures s.Valid()
    ensures s.State() == HandleBots(old(s.State()), snap, layer, random)
  {
    ghost var db := s.State();
    var bots := Bots(s.users, GroupNumber(layer));
    var snapList := Predictions(snap, layer);
    var k: nat := 0;
    for i := 0 to |bots|
      invariant s.Valid()
      invariant k == |Absent(bots[..i], snapList)|
      invariant s.State() == SubmitEach(db, Calls(Absent(bots[..i], snapList), random), snap.currentRound, layer)
    {
      PromptNext(db, bots, i, snapList, snap.currentRound, layer, random);
      if !HasUser(snapList, bots[i]) {
        SubmitBotPrediction(s, bots[i], snap.currentRound, layer, random(k));
        k := k + 1;
      }
    }
    assert bots[..|bots|] == bots;
  }

  // ---------------------------------------------------------------------
  // Writing one row

  /** Replacing row `k` by a row with the same round number and prediction lists, and rewriting input flags, keeps the store's key facts. */
  lemma {:induction false} RowUpdateWf(db: Db, k: nat, row: GameState, users: seq<User>)
    requires Wf(db) && k < |db.rounds|
    requires row.currentRound == db.rounds[k].currentRound
    requires row.group1Predictions == db.rounds[k].group1Predictions && row.group2Predictions == db.rounds[k].group2Predictions
    requires SameRoster(db.users, users)
    ensures Wf(db.(rounds := db.rounds[k := row], users := users))
  {
    assert db.rounds[k] in db.rounds;
    RowWf(db, k, row, users);
  }

  /** Replacing row `k` by a row with the same round number and duplicate-free lists, and rewriting input flags, keeps the store's key facts. */
  lemma {:induction false} RowWf(db: Db, k: nat, row: GameState, users: seq<User>)
    requires Wf(db) && k < |db.rounds|
    requires row.currentRound == db.rounds[k].currentRound
    requires DistinctUsers(row.group1Predictions) && DistinctUsers(row.group2Predictions)
    requires SameRoster(db.users, users)
    ensures Wf(db.(rounds := db.rounds[k := row], users := users))
  {
    var d := db.(rounds := db.rounds[k := row], users := users);
    forall r | r in d.rounds ensures DistinctUsers(r.group1Predictions) && DistinctUsers(r.group2Predictions) {
      var i :| 0 <= i < |d.rounds| && d.rounds[i] == r;
      if i != k {
        assert r in db.rounds;
      }
    }
  }

  // ---------------------------------------------------------------------
  // Group 1 completion (lines 46-51)

  /** `update({ group1_complete: true }).eq('current_round', round)`. */
  function CompleteGroup1(db: Db, round: int): Db
  {
    match FindRound(db.rounds, round)
    case None => db
    case Some(k) => db.(rounds := db.rounds[k := db.rounds[k].(group1Complete := true)])
  }

  /** Setting the flag touches only that flag of that round's row. */
  lemma {:induction false} CompleteGroup1Effect(db: Db, round: int)
    ensures Stable(db, CompleteGroup1(db, round))
    ensures KeepsList(db, CompleteGroup1(db, round), Group1) && KeepsList(db, CompleteGroup1(db, round), Group2)
    ensures CompleteGroup1(db, round).accuracies == db.accuracies && CompleteGroup1(db, round).users == db.users
    ensures forall i | 0 <= i < |db.rounds| ::
      CompleteGroup1(db, round).rounds[i]
        == if Some(i) == FindRound(db.rounds, round) then db.rounds[i].(group1Complete := true) else db.rounds[i]
  {
  }

  method MarkGroup1Complete(s: Store, round: int)
    requires s.Valid()
    modifies s
    ensures s.Valid()
    ensures s.State() == CompleteGroup1(old(s.State()), round)
  {
    var found := FindRound(s.rounds, round);
    if found.Some? {
      var k := found.value;
      RowUpdateWf(s.State(), k, s.rounds[k].(group1Complete := true), s.users);
      s.rounds := s.rounds[k := s.rounds[k].(group1Complete := true)];
    }
  }

  // ---------------------------------------------------------------------
  // The final node's prediction (lines 74-135)

  /** The row a finished round gets: the decision, the round complete and its weights still to update. */
  function Finished(row: GameState, decision: int): GameState
  {
    row.(finalPrediction := Some(decision), isRoundComplete := true, isWeightsUpdated := false)
  }

  /** `makeFinalNodeBotPrediction`: decide on the weighted Group 2 vote, once per round. */
  function FinalPrediction(db: Db, round: int): Db
  {
    match FindRound(db.rounds, round)
    case None => db
    case Some(k) =>
      var row := db.rounds[k];
      if row.finalPrediction.Some? then db
      else
        match FinalNodeId(db.users)
        case None => db
        case Some(f) =>
          if ImageAnswer(db.images, row.currentImageId).None? then db
          else
            db.(users := MarkGroupGiven(db.users, FinalNodeGroup),
                rounds := db.rounds[k := Finished(row, Decide(WeightedSum(row.group2Predictions, db.edges, f)))])
  }

  /** The final prediction is made: the row exists, has no decision yet, and the final node and the image are there. */
  predicate FinalApplies(db: Db, round: int)
  {
    match FindRound(db.rounds, round)
    case None => false
    case Some(k) =>
      && db.rounds[k].finalPrediction.None?
      && FinalNodeId(db.users).Some?
      && ImageAnswer(db.images, db.rounds[k].currentImageId).Some?
  }

  /**
   * When it applies, the final prediction is 1 exactly when the weighted
   * Group 2 vote is non-negative and -1 otherwise, the round is complete
   * with its weights still to update, and the final node is marked as having
   * given input; nothing else changes. Otherwise nothing changes at all.
   */
  lemma {:induction false} FinalPredictionEffect(db: Db, round: int)
    ensures Stable(db, FinalPrediction(db, round))
    ensures KeepsList(db, FinalPrediction(db, round), Group1) && KeepsList(db, FinalPrediction(db, round), Group2)
    ensures FinalPrediction(db, round).accuracies == db.accuracies
    ensures !FinalApplies(db, round) ==> FinalPrediction(db, round) == db
    ensures FinalApplies(db, round) ==>
      var k := FindRound(db.rounds, round).value;
      var f := FinalNodeId(db.users).value;
      var sum := WeightedSum(db.rounds[k].group2Predictions, db.edges, f);
      var row := FinalPrediction(db, round).rounds[k];
      && row.finalPrediction.Some?
      && (row.finalPrediction.value == 1 <==> sum >= 0.0)
      && (row.finalPrediction.value == -1 <==> sum < 0.0)
      && row.isRoundComplete && !row.isWeightsUpdated
      && row.group1Complete == db.rounds[k].group1Complete
      && row.gameOver == db.rounds[k].gameOver
      && (forall i | 0 <= i < |db.rounds| && i != k :: FinalPrediction(db, round).rounds[i] == db.rounds[i])
      && (forall i | 0 <= i < |db.users| ::
            FinalPrediction(db, round).users[i].hasGivenInput
              == (db.users[i].hasGivenInput || db.users[i].groupNumber == FinalNodeGroup))
  {
    if FinalApplies(db, round) {
      var k := FindRound(db.rounds, round).value;
      var row := db.rounds[k];
      var f := FinalNodeId(db.users).value;
      var row' := Finished(row, Decide(WeightedSum(row.group2Predictions, db.edges, f)));
      var d := db.(users := MarkGroupGiven(db.users, FinalNodeGroup), rounds := db.rounds[k := row']);
      assert FinalPrediction(db, round) == d;
      assert Stable(db, d);
      assert KeepsList(db, d, Group1) && KeepsList(db, d, Group2);
    }
  }

  /** The final prediction is made at most once per round: a second call changes nothing. */
  lemma {:induction false} FinalPredictionOnce(db: Db, round: int)
    ensures FinalPrediction(FinalPrediction(db, round), round) == FinalPrediction(db, round)
  {
    if FinalApplies(db, round) {
      var k := FindRound(db.rounds, round).value;
      var d := FinalPrediction(db, round);
      FindRoundUpdate(db.rounds, k, d.rounds[k], round);
    }
  }

  method MakeFinalNodeBotPrediction(s: Store, round: int)
    requires s.Valid()
    modifies s
    ensures s.Valid()
    ensures s.State() == FinalPrediction(old(s.State()), round)
  {
    var found := FindRound(s.rounds, round);
    if found.None? {
      return;
    }
    var k := found.value;
    var row := s.rounds[k];
    if row.finalPrediction.Some? {
      return;
    }
    var finalNode := FinalNodeId(s.users);
    if finalNode.None? {
      return;
    }
    var weightedSum := ComputeWeightedSum(row.group2Predictions, s.edges, finalNode.value);
    var finalPrediction := Decide(weightedSum);
    var correctAnswer := ImageAnswer(s.images, row.currentImageId);
    if correctAnswer.None? {
      return;
    }
    RowUpdateWf(s.State(), k, Finished(row, finalPrediction), MarkGroupGiven(s.users, FinalNodeGroup));
    s.users := MarkGroupGiven(s.users, FinalNodeGroup);
    s.rounds := s.rounds[k := Finished(row, finalPrediction)];
  }

  // ---------------------------------------------------------------------
  // The accuracy record (lines 467-492)

  /** The accuracy of a round: 1 when the final prediction equals the image's answer, else 0. */
  function Accuracy(final: Option<int>, answer: int): int
  {
    if final == Some(answer) then 1 else 0
  }

  /** `storeRoundAccuracy`: append the round's accuracy to `round_accuracies`. */
  function RecordAccuracy(db: Db, round: int): Db
  {
    match FindRound(db.rounds, round)
    case None => db
    case Some(k) =>
      match ImageAnswer(db.images, db.rounds[k].currentImageId)
      case None => db
      case Some(answer) =>
        db.(accuracies := db.accuracies + [RoundAccuracy(round, Accuracy(db.rounds[k].finalPrediction, answer))])
  }

  /**
   * Recording the accuracy right after the final prediction appends one
   * entry for the round, which is 1 exactly when the decision on the weighted
   * vote equals the answer; an answer other than 1 or -1 (an uploaded 0) is
   * never matched.
   */
  lemma {:induction false} FinishAndRecord(db: Db, round: int)
    requires FinalApplies(db, round)
    ensures
      var k := FindRound(db.rounds, round).value;
      var f := FinalNodeId(db.users).value;
      var answer := ImageAnswer(db.images, db.rounds[k].currentImageId).value;
      var decision := Decide(WeightedSum(db.rounds[k].group2Predictions, db.edges, f));
      var after := RecordAccuracy(FinalPrediction(db, round), round);
      && after.accuracies == db.accuracies + [RoundAccuracy(round, Accuracy(Some(decision), answer))]
      && (Accuracy(Some(decision), answer) == 1 <==> decision == answer)
      && (answer != 1 && answer != -1 ==> Accuracy(Some(decision), answer) == 0)
      && after.rounds == FinalPrediction(db, round).rounds
  {
    var k := FindRound(db.rounds, round).value;
    var d := FinalPrediction(db, round);
    FindRoundUpdate(db.rounds, k, d.rounds[k], round);
  }

  method StoreRoundAccuracy(s: Store, round: int)
    requires s.Valid()
    modifies s
    ensures s.Valid()
    ensures s.State() == RecordAccuracy(old(s.State()), round)
  {
    var found := FindRound(s.rounds, round);
    if found.None? {
      return;
    }
    var row := s.rounds[found.value];
    var image := ImageAnswer(s.images, row.currentImageId);
    if image.None? {
      return;
    }
    var accuracy := if row.finalPrediction == Some(image.value) then 1 else 0;
    s.accuracies := s.accuracies + [RoundAccuracy(round, accuracy)];
  }


  // ---------------------------------------------------------------------
  // The weight update (lines 137-281)

  /** The weight update's guard: the row exists, is complete, and its weights are not yet updated. */
  predicate UpdateDue(db: Db, round: int)
  {
    match FindRound(db.rounds, round)
    case None => false
    case Some(k) => db.rounds[k].isRoundComplete && !db.rounds[k].isWeightsUpdated
  }

  /**
   * The update writes no NaN: when it runs, every Group 1 to Group 2
   * connection it follows leads to a Group 2 predictor that has a connection
   * into the final node (otherwise `group2Errors` has no entry for it and
   * the source writes `NaN`).
   */
  predicate BackpropDefined(db: Db, round: int)
  {
    UpdateDue(db, round) ==>
      var row := db.rounds[FindRound(db.rounds, round).value];
      match (ImageAnswer(db.images, row.currentImageId), FinalNodeId(db.users))
      case (Some(answer), Some(f)) =>
        ErrorsDefined(row.group1Predictions, row.group2Predictions, db.edges,
                      Group2Errors(row.group2Predictions, db.edges, f, OutputError(answer, row.finalPrediction)))
      case _ => true
  }

  /** `backpropagateWeightsForRound`: apply the round's delta-rule writes and mark its weights updated. */
  function WeightUpdate(db: Db, round: int): Db
    requires BackpropDefined(db, round)
  {
    if !UpdateDue(db, round) then db
    else
      var k := FindRound(db.rounds, round).value;
      var row := db.rounds[k];
      match (ImageAnswer(db.images, row.currentImageId), FinalNodeId(db.users))
      case (Some(answer), Some(f)) =>
        db.(edges := Backpropagated(db.edges, row.group1Predictions, row.group2Predictions, f, OutputError(answer, row.finalPrediction)),
            rounds := db.rounds[k := row.(isWeightsUpdated := true)])
      case _ => db
  }

  /** The weight update runs at most once per round: afterwards it is no longer due, and a second call changes nothing. */
  lemma {:induction false} WeightUpdateOnce(db: Db, round: int)
    requires BackpropDefined(db, round)
    ensures BackpropDefined(WeightUpdate(db, round), round)
    ensures WeightUpdate(WeightUpdate(db, round), round) == WeightUpdate(db, round)
  {
    if UpdateDue(db, round) {
      var k := FindRound(db.rounds, round).value;
      var d := WeightUpdate(db, round);
      if d != db {
        FindRoundUpdate(db.rounds, k, d.rounds[k], round);
        assert !UpdateDue(d, round);
      }
    }
  }

  lemma {:induction false} WeightUpdateWf(db: Db, round: int)
    requires Wf(db) && BackpropDefined(db, round)
    ensures Wf(WeightUpdate(db, round))
  {
    if UpdateDue(db, round) {
      var k := FindRound(db.rounds, round).value;
      var row := db.rounds[k];
      match (ImageAnswer(db.images, row.currentImageId), FinalNodeId(db.users))
      case (Some(answer), Some(f)) =>
        var err := OutputError(answer, row.finalPrediction);
        var es := Backpropagated(db.edges, row.group1Predictions, row.group2Predictions, f, err);
        RowUpdateWf(db, k, row.(isWeightsUpdated := true), db.users);
        var d := db.(rounds := db.rounds[k := row.(isWeightsUpdated := true)]);
        BackpropagatedIds(db.edges, row.group1Predictions, row.group2Predictions, f, err, db.nextEdgeId);
        assert WeightUpdate(db, round) == d.(edges := es);
      case _ =>
    }
  }

  /** The update keeps every connection's id, so the ids stay distinct and below the next id. */
  lemma {:induction false} BackpropagatedIds(es: seq<Edge>, ps1: seq<Prediction>, ps2: seq<Prediction>, f: int, err: int, next: int)
    requires DistinctIds(es) && forall e | e in es :: e.id < next
    requires ErrorsDefined(ps1, ps2, es, Group2Errors(ps2, es, f, err))
    ensures DistinctIds(Backpropagated(es, ps1, ps2, f, err))
    ensures forall e | e in Backpropagated(es, ps1, ps2, f, err) :: e.id < next
  {
    var es' := Backpropagated(es, ps1, ps2, f, err);
    UntouchedConnections(es, ps1, ps2, f, err);
    forall i, j | 0 <= i < j < |es'| ensures es'[i].id != es'[j].id {
      assert es'[i].id == es[i].id && es'[j].id == es[j].id;
    }
    forall e | e in es' ensures e.id < next {
      var i :| 0 <= i < |es'| && es'[i] == e;
      assert es[i] in es;
    }
  }

  /**
   * A round whose final prediction equals the image's answer has a zero
   * output error, so its weight update changes no weight; it only marks the
   * weights as updated.
   */
  lemma {:induction false} CorrectRoundKeepsWeights(db: Db, round: int)
    requires Wf(db) && BackpropDefined(db, round)
    requires UpdateDue(db, round)
    requires ImageAnswer(db.images, db.rounds[FindRound(db.rounds, round).value].currentImageId)
          == db.rounds[FindRound(db.rounds, round).value].finalPrediction
    ensures WeightUpdate(db, round).edges == db.edges
  {
    var k := FindRound(db.rounds, round).value;
    var row := db.rounds[k];
    match (ImageAnswer(db.images, row.currentImageId), FinalNodeId(db.users))
    case (Some(answer), Some(f)) =>
      assert OutputError(answer, row.finalPrediction) == 0;
      ZeroErrorKeepsWeights(db.edges, row.group1Predictions, row.group2Predictions, f);
    case _ =>
  }

  /**
   * The update's effect on the connections when it runs: each Group 2
   * predictor's connection into the final node moves by
   * `lr * err * prediction`, each Group 1 to Group 2 connection between two
   * predictors by `lr * (err * w) * prediction` with `w` the Group 2
   * member's weight into the final node before the update, and every other
   * connection, as well as every row that repeats the pair of an earlier
   * row, is left as it was (given that the final node does not itself
   * predict in Group 2).
   */
  lemma {:induction false} WeightUpdateRules(db: Db, round: int)
    requires Wf(db) && BackpropDefined(db, round) && UpdateDue(db, round)
    requires ImageAnswer(db.images, db.rounds[FindRound(db.rounds, round).value].currentImageId).Some?
    requires FinalNodeId(db.users).Some?
    requires !HasUser(db.rounds[FindRound(db.rounds, round).value].group2Predictions, FinalNodeId(db.users).value)
    ensures
      var row := db.rounds[FindRound(db.rounds, round).value];
      var f := FinalNodeId(db.users).value;
      var err := OutputError(ImageAnswer(db.images, row.currentImageId).value, row.finalPrediction);
      var es := db.edges;
      var es' := WeightUpdate(db, round).edges;
      && |es'| == |es|
      && (forall q, i | q in row.group2Predictions && 0 <= i < |es| && FindPair(es, q.userId, f) == Some(es[i]) ::
            es'[i].weight == Nudge(es[i].weight, err as real, q.prediction))
      && (forall p, q, i | p in row.group1Predictions && q in row.group2Predictions && 0 <= i < |es|
                          && FindPair(es, p.userId, q.userId) == Some(es[i]) ::
            && FindPair(es, q.userId, f).Some?
            && es'[i].weight == Nudge(es[i].weight, Blame(err, FindPair(es, q.userId, f).value.weight), p.prediction))
      && (forall i | 0 <= i < |es| && !(HasUser(row.group2Predictions, es[i].source) && es[i].target == f)
                                   && !(HasUser(row.group1Predictions, es[i].source) && HasUser(row.group2Predictions, es[i].target)) ::
            es'[i] == es[i])
      && (forall i | 0 <= i < |es| && FindPair(es, es[i].source, es[i].target) != Some(es[i]) :: es'[i] == es[i])
  {
    var k := FindRound(db.rounds, round).value;
    var row := db.rounds[k];
    var f := FinalNodeId(db.users).value;
    var err := OutputError(ImageAnswer(db.images, row.currentImageId).value, row.finalPrediction);
    assert row in db.rounds;
    assert RoundKeys(db.edges, row.group1Predictions, row.group2Predictions, f);
    OutputDeltaRule(db.edges, row.group1Predictions, row.group2Predictions, f, err);
    HiddenDeltaRule(db.edges, row.group1Predictions, row.group2Predictions, f, err);
    UntouchedConnections(db.edges, row.group1Predictions, row.group2Predictions, f, err);
  }

  lemma {:induction false} ApplyWritesSnoc(es: seq<Edge>, ws: seq<Write>, w: Write)
    ensures ApplyWrites(es, ws + [w]) == ApplyWrite(ApplyWrites(es, ws), w)
  {
    assert (ws + [w])[..|ws|] == ws;
  }

  lemma {:induction false} ErrorsDefinedPrefix(ps1: seq<Prediction>, ps2: seq<Prediction>, es: seq<Edge>, errs: map<int, real>, i: nat)
    requires ErrorsDefined(ps1, ps2, es, errs) && i <= |ps1|
    ensures ErrorsDefined(ps1[..i], ps2, es, errs)
  {
    assert forall p | p in ps1[..i] :: p in ps1;
  }

  /** The writes of the first `i` turns of the outer loop of lines 241-264. */
  ghost function HiddenPrefix(ps1: seq<Prediction>, ps2: seq<Prediction>, es: seq<Edge>, errs: map<int, real>, i: nat): seq<Write>
    requires ErrorsDefined(ps1, ps2, es, errs) && i <= |ps1|
  {
    ErrorsDefinedPrefix(ps1, ps2, es, errs, i);
    HiddenWrites(ps1[..i], ps2, es, errs)
  }

  lemma {:induction false} HiddenPrefixNext(ps1: seq<Prediction>, ps2: seq<Prediction>, es: seq<Edge>, errs: map<int, real>, i: nat)
    requires ErrorsDefined(ps1, ps2, es, errs) && i < |ps1|
    ensures forall q | q in ps2 :: FindPair(es, ps1[i].userId, q.userId).Some? ==> q.userId in errs
    ensures HiddenPrefix(ps1, ps2, es, errs, i + 1) == HiddenPrefix(ps1, ps2, es, errs, i) + HiddenRowWrites(ps1[i], ps2, es, errs)
  {
    assert ps1[i] in ps1;
    ErrorsDefinedPrefix(ps1, ps2, es, errs, i + 1);
    assert ps1[..i + 1][..i] == ps1[..i];
  }

  /** The output-layer loop of lines 206-226: one write per Group 2 prediction with a connection into the final node. */
  method WriteOutputLayer(connections: seq<Edge>, ps2: seq<Prediction>, f: int, err: int)
      returns (table: seq<Edge>, ghost ws: seq<Write>)
    ensures table == ApplyWrites(connections, OutputWrites(ps2, connections, f, err))
    ensures ws == OutputWrites(ps2, connections, f, err)
  {
    table, ws := connections, [];
    for i := 0 to |ps2|
      invariant ws == OutputWrites(ps2[..i], connections, f, err)
      invariant table == ApplyWrites(connections, ws)
    {
      assert ps2[..i + 1][..i] == ps2[..i];
      var connection := FindPair(connections, ps2[i].userId, f);
      if connection.Some? {
        var w := OutputUpdate(connection.value, err, ps2[i]);
        ApplyWritesSnoc(connections, ws, w);
        table := ApplyWrite(table, w);
        ws := ws + [w];
      }
    }
    assert ps2[..|ps2|] == ps2;
  }

  /** The loop of lines 229-237 that fills `group2Errors`. */
  method ComputeGroup2Errors(connections: seq<Edge>, ps2: seq<Prediction>, f: int, err: int) returns (errs: map<int, real>)
    ensures errs == Group2Errors(ps2, connections, f, err)
  {
    errs := map[];
    for i := 0 to |ps2|
      invariant errs == Group2Errors(ps2[..i], connections, f, err)
    {
      assert ps2[..i + 1][..i] == ps2[..i];
      var connection := FindPair(connections, ps2[i].userId, f);
      if connection.Some? {
        errs := errs[ps2[i].userId := Blame(err, connection.value.weight)];
      }
    }
    assert ps2[..|ps2|] == ps2;
  }

  /** The inner loop of lines 242-263 for one Group 1 prediction. */
  method WriteHiddenRow(table0: seq<Edge>, connections: seq<Edge>, p: Prediction, ps2: seq<Prediction>, errs: map<int, real>,
                        ghost ws0: seq<Write>) returns (table: seq<Edge>, ghost ws: seq<Write>)
    requires forall q | q in ps2 :: FindPair(connections, p.userId, q.userId).Some? ==> q.userId in errs
    requires table0 == ApplyWrites(connections, ws0)
    ensures table == ApplyWrites(connections, ws0 + HiddenRowWrites(p, ps2, connections, errs))
    ensures ws == ws0 + HiddenRowWrites(p, ps2, connections, errs)
  {
    table, ws := table0, ws0;
    for j := 0 to |ps2|
      invariant ws == ws0 + HiddenRowWrites(p, ps2[..j], connections, errs)
      invariant table == ApplyWrites(connections, ws)
    {
      assert ps2[..j + 1][..j] == ps2[..j];
      var connection := FindPair(connections, p.userId, ps2[j].userId);
      if connection.Some? {
        assert ps2[j] in ps2;
        var w := HiddenUpdate(connection.value, errs[ps2[j].userId], p);
        ApplyWritesSnoc(connections, ws, w);
        table := ApplyWrite(table, w);
        ws := ws + [w];
      }
    }
    assert ps2[..|ps2|] == ps2;
  }

  lemma {:induction false} HiddenPrefixAll(ps1: seq<Prediction>, ps2: seq<Prediction>, es: seq<Edge>, errs: map<int, real>)
    requires ErrorsDefined(ps1, ps2, es, errs)
    ensures HiddenPrefix(ps1, ps2, es, errs, |ps1|) == HiddenWrites(ps1, ps2, es, errs)
  {
    assert ps1[..|ps1|] == ps1;
  }

  lemma AppendAssoc<T>(a: seq<T>, b: seq<T>, c: seq<T>)
    ensures a + b + c == a + (b + c)
  {
  }

  /** The nested loops of lines 241-264. */
  method WriteHiddenLayer(table0: seq<Edge>, connections: seq<Edge>, ps1: seq<Prediction>, ps2: seq<Prediction>, errs: map<int, real>,
                          ghost ws0: seq<Write>) returns (table: seq<Edge>, ghost ws: seq<Write>)
    requires ErrorsDefined(ps1, ps2, connections, errs)
    requires table0 == ApplyWrites(connections, ws0)
    ensures table == ApplyWrites(connections, ws0 + HiddenWrites(ps1, ps2, connections, errs))
    ensures ws == ws0 + HiddenWrites(ps1, ps2, connections, errs)
  {
    table, ws := table0, ws0;
    for i := 0 to |ps1|
      invariant ws == ws0 + HiddenPrefix(ps1, ps2, connections, errs, i)
      invariant table == ApplyWrites(connections, ws)
    {
      HiddenPrefixNext(ps1, ps2, connections, errs, i);
      ghost var row := HiddenRowWrites(ps1[i], ps2, connections, errs);
      AppendAssoc(ws0, HiddenPrefix(ps1, ps2, connections, errs, i), row);
      table, ws := WriteHiddenRow(table, connections, ps1[i], ps2, errs, ws);
    }
    HiddenPrefixAll(ps1, ps2, connections, errs);
  }

  method BackpropagateWeightsForRound(s: Store, round: int)
    requires s.Valid() && BackpropDefined(s.State(), round)
    modifies s
    ensures s.Valid()
    ensures s.State() == WeightUpdate(old(s.State()), round)
  {
    ghost var db := s.State();
    WeightUpdateWf(db, round);
    var found := FindRound(s.rounds, round);
    if found.None? {
      return;
    }
    var k := found.value;
    var gameState := s.rounds[k];
    if !gameState.isRoundComplete || gameState.isWeightsUpdated {
      return;
    }
    var correctAnswer := ImageAnswer(s.images, gameState.currentImageId);
    if correctAnswer.None? {
      return;
    }
    var connections := s.edges;
    var finalNode := FinalNodeId(s.users);
    if finalNode.None? {
      return;
    }
    var f := finalNode.value;
    var outputError := OutputError(correctAnswer.value, gameState.finalPrediction);
    var ps1, ps2 := gameState.group1Predictions, gameState.group2Predictions;
    var table, ws := WriteOutputLayer(connections, ps2, f, outputError);
    s.edges := table;
    var group2Errors := ComputeGroup2Errors(connections, ps2, f, outputError);
    table, ws := WriteHiddenLayer(table, connections, ps1, ps2, group2Errors, ws);
    s.edges := table;
    assert ws == BackpropWrites(ps1, ps2, connections, f, outputError);
    s.rounds := s.rounds[k := gameState.(isWeightsUpdated := true)];
  }

  // ---------------------------------------------------------------------
  // Ending the game (lines 627-658)

  /** The round number the end-of-game row is written with. */
  const TerminalRound: int := 100

  /** The row `endGame` inserts: no image, empty lists, everything complete, the game over and stopped. */
  function TerminalRow(round: int): GameState
  {
    GameState(round, None, [], [], true, None, true, true, false, true)
  }

  /** `endGame` as written: insert the terminal row with round number 100, whatever rounds came before. */
  function EndedAsWritten(db: Db): Db
  {
    db.(rounds := db.rounds + [TerminalRow(TerminalRound)])
  }

  /** The round number the terminal row needs to be the latest row: 100, or one past the last round if that is higher. */
  function EndRound(rounds: seq<GameState>): (n: int)
    ensures n >= TerminalRound
    ensures rounds != [] ==> n > rounds[|rounds| - 1].currentRound
  {
    if rounds == [] then TerminalRound else Max(TerminalRound, rounds[|rounds| - 1].currentRound + 1)
  }

  /** `endGame`, with the terminal row numbered so that it is the latest row. */
  function Ended(db: Db): Db
  {
    db.(rounds := db.rounds + [TerminalRow(EndRound(db.rounds))])
  }

  /**
   * Ending the game keeps the store's key facts and makes the terminal row
   * the latest one: the game is over and not started, so the loop finds
   * nothing to do on any later tick. Nothing but the rows changes.
   */
  lemma {:induction false} GameEnds(db: Db)
    requires Wf(db)
    ensures Wf(Ended(db))
    ensures var rs := Ended(db).rounds;
      && rs[..|db.rounds|] == db.rounds
      && rs[|rs| - 1] == TerminalRow(EndRound(db.rounds))
      && rs[|rs| - 1].gameOver && !rs[|rs| - 1].gameStarted
      && FindRound(rs, rs[|rs| - 1].currentRound) == Some(|rs| - 1)
    ensures Ended(db).(rounds := db.rounds) == db
  {
    EndedWf(db);
    var rs := Ended(db).rounds;
    assert rs[..|db.rounds|] == db.rounds;
    LatestIsLast(rs, |rs| - 1);
  }

  lemma {:induction false} EndedWf(db: Db)
    requires Wf(db)
    ensures Wf(Ended(db))
  {
    var row := TerminalRow(EndRound(db.rounds));
    AppendRowWf(db, row, db.users, db.images);
    assert db.(rounds := db.rounds + [row], users := db.users, images := db.images) == Ended(db);
  }

  /** A row with empty lists and a round number above the last one, and rewritten flags, keep the store's key facts. */
  lemma {:induction false} AppendRowWf(db: Db, row: GameState, users: seq<User>, images: seq<Image>)
    requires Wf(db)
    requires db.rounds != [] ==> row.currentRound > db.rounds[|db.rounds| - 1].currentRound
    requires row.group1Predictions == [] && row.group2Predictions == []
    requires SameRoster(db.users, users)
    requires forall i, j | 0 <= i < j < |images| :: images[i].id != images[j].id
    ensures Wf(db.(rounds := db.rounds + [row], users := users, images := images))
  {
    var rs := db.rounds + [row];
    AppendIncreasing(db.rounds, row);
    forall r | r in rs ensures DistinctUsers(r.group1Predictions) && DistinctUsers(r.group2Predictions) {
      if r != row {
        assert r in db.rounds;
      }
    }
  }

  /** A row whose round number is above the last one keeps the rows in increasing order. */
  lemma {:induction false} AppendIncreasing(rounds: seq<GameState>, row: GameState)
    requires RoundsIncreasing(rounds)
    requires rounds != [] ==> row.currentRound > rounds[|rounds| - 1].currentRound
    ensures RoundsIncreasing(rounds + [row])
  {
    var rs := rounds + [row];
    forall i, j | 0 <= i < j < |rs| ensures rs[i].currentRound < rs[j].currentRound {
      if j == |rounds| && i < |rounds| - 1 {
        assert rounds[i].currentRound < rounds[|rounds| - 1].currentRound;
      }
    }
  }

  /**
   * The end-of-game row as written is not the latest row once the game has
   * reached round 100: the rows fall out of order, and no row is numbered
   * above the last round played, which keeps its flags; past round 100 it
   * is the only row with the highest number, so the loop reads a game that
   * was started and not over as still running.
   * Numbering the row with `EndRound` instead makes it the latest.
   */
  lemma {:induction false} EndedAsWrittenHidesEnd(db: Db)
    requires Wf(db) && db.rounds != []
    requires db.rounds[|db.rounds| - 1].currentRound >= TerminalRound
    ensures var rs := EndedAsWritten(db).rounds;
      var last := db.rounds[|db.rounds| - 1];
      && !RoundsIncreasing(rs)
      && rs[|rs| - 2] == last
      && (forall i | 0 <= i < |rs| :: rs[i].currentRound <= last.currentRound)
      && (last.currentRound > TerminalRound ==>
            forall i | 0 <= i < |rs| && i != |rs| - 2 :: rs[i].currentRound < last.currentRound)
    ensures var rs := Ended(db).rounds;
      rs[|rs| - 1].currentRound > db.rounds[|db.rounds| - 1].currentRound && RoundsIncreasing(rs)
  {
    var rs := EndedAsWritten(db).rounds;
    var n := |db.rounds| - 1;
    assert rs[n] == db.rounds[n] && rs[n + 1] == TerminalRow(TerminalRound);
    forall i | 0 <= i < |rs| && i != n ensures rs[i].currentRound < db.rounds[n].currentRound || db.rounds[n].currentRound == TerminalRound {
      if i < n {
        assert rs[i] == db.rounds[i];
      }
    }
    GameEnds(db);
  }

  method EndGame(s: Store)
    requires s.Valid()
    modifies s
    ensures s.Valid()
    ensures s.State() == Ended(old(s.State()))
  {
    EndedWf(s.State());
    s.rounds := s.rounds + [TerminalRow(EndRound(s.rounds))];
  }

  // ---------------------------------------------------------------------
  // Opening the next round (lines 357-412)

  /** `update({ used: true }).eq('id', id)`. */
  function MarkUsed(images: seq<Image>, id: int): (r: seq<Image>)
    ensures |r| == |images|
    ensures forall i | 0 <= i < |r| ::
      r[i].id == images[i].id && r[i].correctAnswer == images[i].correctAnswer && r[i].used == (images[i].used || images[i].id == id)
  {
    seq(|images|, i requires 0 <= i < |images| => if images[i].id == id then images[i].(used := true) else images[i])
  }

  /** The number of images not yet used. */
  function UnusedCount(images: seq<Image>): nat
  {
    if images == [] then 0
    else UnusedCount(images[..|images| - 1]) + (if images[|images| - 1].used then 0 else 1)
  }

  /** The row a new round starts with: the image, empty lists, nothing complete, the game started. */
  function OpenRow(round: int, image: int): GameState
  {
    GameState(round, Some(image), [], [], false, None, false, false, true, false)
  }

  /**
   * `startNewRound`: with an unused image left, mark the first one used,
   * insert the next round's row and reset every participant's input flag
   * (except group 100); with none left, end the game. When there is no row
   * to number the new one from, the source fails after marking the image.
   */
  function NewRound(db: Db): Db
  {
    match FirstUnusedImage(db.images)
    case None => Ended(db)
    case Some(i) =>
      var image := db.images[i].id;
      var images := MarkUsed(db.images, image);
      if db.rounds == [] then db.(images := images)
      else
        var last := db.rounds[|db.rounds| - 1];
        db.(images := images, rounds := db.rounds + [OpenRow(last.currentRound + 1, image)], users := ResetInputs(db.users))
  }

  lemma {:induction false} MarkUsedKeys(images: seq<Image>, id: int)
    requires forall i, j | 0 <= i < j < |images| :: images[i].id != images[j].id
    ensures var r := MarkUsed(images, id); forall i, j | 0 <= i < j < |r| :: r[i].id != r[j].id
  {
  }

  /** Marking an unused image, whose id is a key, lowers the number of unused images by one. */
  lemma {:induction false} MarkUsedCount(images: seq<Image>, k: nat)
    requires forall i, j | 0 <= i < j < |images| :: images[i].id != images[j].id
    requires k < |images| && !images[k].used
    ensures UnusedCount(MarkUsed(images, images[k].id)) == UnusedCount(images) - 1
  {
    var n := |images| - 1;
    var r := MarkUsed(images, images[k].id);
    assert r[..n] == MarkUsed(images[..n], images[k].id);
    if k < n {
      assert images[n].id != images[k].id;
      MarkUsedCount(images[..n], k);
    } else {
      MarkUsedNone(images[..n], images[k].id);
    }
  }

  /** Marking an id no image has changes nothing. */
  lemma {:induction false} MarkUsedNone(images: seq<Image>, id: int)
    requires forall i | 0 <= i < |images| :: images[i].id != id
    ensures MarkUsed(images, id) == images
  {
  }

  /**
   * With an unused image left, a new round appends the row for the next
   * round number with that image, lowers the number of unused images by one,
   * clears the input flags outside group 100, and keeps the store's key
   * facts; the connections and the accuracy record are untouched.
   */
  lemma {:induction false} NewRoundEffect(db: Db)
    requires Wf(db) && db.rounds != [] && FirstUnusedImage(db.images).Some?
    ensures var d := NewRound(db);
      var i := FirstUnusedImage(db.images).value;
      var last := db.rounds[|db.rounds| - 1];
      && Wf(d)
      && d.rounds == db.rounds + [OpenRow(last.currentRound + 1, db.images[i].id)]
      && FindRound(d.rounds, last.currentRound + 1) == Some(|db.rounds|)
      && UnusedCount(d.images) == UnusedCount(db.images) - 1
      && (forall j | 0 <= j < |d.users| :: d.users[j].hasGivenInput == (db.users[j].hasGivenInput && db.users[j].groupNumber == ResetExemptGroup))
      && d.edges == db.edges && d.accuracies == db.accuracies
  {
    var i := FirstUnusedImage(db.images).value;
    var last := db.rounds[|db.rounds| - 1];
    var row := OpenRow(last.currentRound + 1, db.images[i].id);
    var images := MarkUsed(db.images, db.images[i].id);
    var d := NewRound(db);
    assert d == db.(rounds := db.rounds + [row], users := ResetInputs(db.users), images := images);
    MarkUsedCount(db.images, i);
    MarkUsedKeys(db.images, db.images[i].id);
    AppendRowWf(db, row, ResetInputs(db.users), images);
    LatestIsLast(d.rounds, |d.rounds| - 1);
  }

  /** With no unused image left, a new round ends the game instead. */
  lemma {:induction false} NoImageEndsGame(db: Db)
    requires FirstUnusedImage(db.images).None?
    ensures NewRound(db) == Ended(db)
    ensures forall m | m in db.images :: m.used
  {
  }

  lemma {:induction false} NewRoundWf(db: Db)
    requires Wf(db)
    ensures Wf(NewRound(db))
  {
    match FirstUnusedImage(db.images)
    case None => GameEnds(db);
    case Some(i) =>
      if db.rounds != [] {
        NewRoundEffect(db);
      } else {
        MarkUsedKeys(db.images, db.images[i].id);
      }
  }

  method StartNewRound(s: Store)
    requires s.Valid()
    modifies s
    ensures s.Valid()
    ensures s.State() == NewRound(old(s.State()))
  {
    ghost var db := s.State();
    NewRoundWf(db);
    var newImage := FirstUnusedImage(s.images);
    if newImage.None? {
      EndGame(s);
      return;
    }
    var image := s.images[newImage.value].id;
    s.images := MarkUsed(s.images, image);
    if s.rounds == [] {
      return;
    }
    var currentState := s.rounds[|s.rounds| - 1];
    s.rounds := s.rounds + [OpenRow(currentState.currentRound + 1, image)];
    s.users := ResetInputs(s.users);
  }

  // ---------------------------------------------------------------------
  // One tick of the game loop (lines 11-72)

  /** A tick's weight update, if one is due for the latest row, writes no NaN. */
  predicate TickDefined(db: Db)
  {
    db.rounds != [] ==> BackpropDefined(db, db.rounds[|db.rounds| - 1].currentRound)
  }

  /**
   * `gameLoop`: read the latest row once as a snapshot and act on it. A
   * complete round gets its weight update and then, on the next tick, the
   * next round; an open round prompts the Group 1 bots until Group 1 is
   * complete, then the Group 2 bots, and makes the final prediction and
   * records the accuracy once the snapshot's Group 2 list is as long as
   * Group 2. The counts compare the snapshot's lists with the participants
   * table as it is after the bots have voted.
   */
  function Tick(db: Db, random: nat -> real): Db
    requires TickDefined(db)
  {
    if db.rounds == [] then db
    else
      var snap := db.rounds[|db.rounds| - 1];
      if !snap.gameStarted then db
      else if snap.isRoundComplete then
        if !snap.isWeightsUpdated then WeightUpdate(db, snap.currentRound) else NewRound(db)
      else FinishPhase(BotPhase(db, snap, random), snap, random)
  }

  /**
   * The open-round part of a tick up to the Group 2 prompts: the Group 1
   * bots vote while Group 1 is incomplete, Group 1 is marked complete when
   * the snapshot's list is as long as Group 1, and the Group 2 bots vote
   * when the snapshot already had Group 1 complete.
   */
  function BotPhase(db: Db, snap: GameState, random: nat -> real): Db
  {
    var d1 := if !snap.group1Complete then HandleBots(db, snap, Group1, random) else db;
    var d2 := if |snap.group1Predictions| == |Members(d1.users, 1)| && !snap.group1Complete
              then CompleteGroup1(d1, snap.currentRound) else d1;
    if snap.group1Complete then HandleBots(d2, snap, Group2, random) else d2
  }

  /**
   * The rest of an open-round tick: the final prediction and the accuracy
   * record, when the snapshot's Group 2 list is as long as Group 2.
   */
  function FinishPhase(db: Db, snap: GameState, random: nat -> real): Db
  {
    if |snap.group2Predictions| == |Members(db.users, 2)| && !snap.isRoundComplete
    then RecordAccuracy(FinalPrediction(db, snap.currentRound), snap.currentRound)
    else db
  }

  method GameLoopTick(s: Store, random: nat -> real)
    requires s.Valid() && TickDefined(s.State())
    modifies s
    ensures s.Valid()
    ensures s.State() == Tick(old(s.State()), random)
  {
    if s.rounds == [] {
      return;
    }
    var gameState := s.rounds[|s.rounds| - 1];
    if !gameState.gameStarted {
      return;
    }
    if gameState.isRoundComplete {
      if !gameState.isWeightsUpdated {
        BackpropagateWeightsForRound(s, gameState.currentRound);
      } else {
        StartNewRound(s);
      }
      return;
    }
    PromptBots(s, gameState, random);
    FinishRound(s, gameState, random);
  }

  method PromptBots(s: Store, gameState: GameState, random: nat -> real)
    requires s.Valid()
    modifies s
    ensures s.Valid()
    ensures s.State() == BotPhase(old(s.State()), gameState, random)
  {
    if !gameState.group1Complete {
      HandleGroupBots(s, gameState, Group1, random);
    }
    var group1Users := Members(s.users, 1);
    if |gameState.group1Predictions| == |group1Users| && !gameState.group1Complete {
      MarkGroup1Complete(s, gameState.currentRound);
    }
    if gameState.group1Complete {
      HandleGroupBots(s, gameState, Group2, random);
    }
  }

  method FinishRound(s: Store, gameState: GameState, random: nat -> real)
    requires s.Valid()
    modifies s
    ensures s.Valid()
    ensures s.State() == FinishPhase(old(s.State()), gameState, random)
  {
    var group2Users := Members(s.users, 2);
    if |gameState.group2Predictions| == |group2Users| && !gameState.isRoundComplete {
      MakeFinalNodeBotPrediction(s, gameState.currentRound);
      StoreRoundAccuracy(s, gameState.currentRound);
    }
  }

  /**
   * `d` is `db` after the bots of `layer` were prompted in its latest row:
   * that row's `layer` list is the snapshot's followed by one vote per bot
   * that had none, every bot of the layer now has a vote, the other list,
   * the decision and the round flags are as they were, and the Group 1 flag
   * is `complete`.
   */
  predicate Prompted(db: Db, d: Db, layer: Layer, random: nat -> real, complete: bool)
    requires db.rounds != []
  {
    var k := |db.rounds| - 1;
    var snap := db.rounds[k];
    var bots := Bots(db.users, GroupNumber(layer));
    && |d.rounds| == |db.rounds|
    && Predictions(d.rounds[k], layer) == Predictions(snap, layer) + Votes(Calls(Absent(bots, Predictions(snap, layer)), random))
    && (forall b | b in bots :: HasUser(Predictions(d.rounds[k], layer), b))
    && Predictions(d.rounds[k], Other(layer)) == Predictions(snap, Other(layer))
    && d.rounds[k].group1Complete == complete
    && d.rounds[k].finalPrediction == snap.finalPrediction
    && d.rounds[k].isRoundComplete == snap.isRoundComplete
    && d.rounds[k].isWeightsUpdated == snap.isWeightsUpdated
    && d.rounds[k].gameOver == snap.gameOver
  }

  /**
   * While Group 1 is incomplete a tick prompts only the Group 1 bots, and
   * marks Group 1 complete exactly when the snapshot's Group 1 list is as
   * long as Group 1.
   */
  lemma {:induction false} Group1PhaseEffect(db: Db, random: nat -> real)
    requires Wf(db) && db.rounds != [] && !db.rounds[|db.rounds| - 1].group1Complete
    ensures
      var snap := db.rounds[|db.rounds| - 1];
      Prompted(db, BotPhase(db, snap, random), Group1, random, |snap.group1Predictions| == |Members(db.users, 1)|)
    ensures
      var snap := db.rounds[|db.rounds| - 1];
      var d := BotPhase(db, snap, random);
      && Stable(db, d) && d.accuracies == db.accuracies
      && FindRound(d.rounds, snap.currentRound) == Some(|db.rounds| - 1)
  {
    var k := |db.rounds| - 1;
    var snap := db.rounds[k];
    var round := snap.currentRound;
    var d1 := HandleBots(db, snap, Group1, random);
    var d := BotPhase(db, snap, random);
    HandleBotsPrompted(db, Group1, random);
    StableFacts(db, d1);
    if |snap.group1Predictions| == |Members(d1.users, 1)| {
      assert d == CompleteGroup1(d1, round);
      CompletePrompted(db, d1, random);
    } else {
      assert d == d1;
    }
  }

  /** Prompting the bots of `layer` in the latest row. */
  lemma {:induction false} HandleBotsPrompted(db: Db, layer: Layer, random: nat -> real)
    requires Wf(db) && db.rounds != []
    ensures
      var snap := db.rounds[|db.rounds| - 1];
      Prompted(db, HandleBots(db, snap, layer, random), layer, random, snap.group1Complete)
    ensures
      var snap := db.rounds[|db.rounds| - 1];
      var d := HandleBots(db, snap, layer, random);
      && Stable(db, d) && d.accuracies == db.accuracies
      && FindRound(d.rounds, snap.currentRound) == Some(|db.rounds| - 1)
  {
    var k := |db.rounds| - 1;
    var snap := db.rounds[k];
    var d := HandleBots(db, snap, layer, random);
    LatestIsLast(db.rounds, k);
    HandleBotsEachOnce(db, layer, random, k);
    SubmitEachKeeps(db, Calls(Absent(Bots(db.users, GroupNumber(layer)), Predictions(snap, layer)), random), snap.currentRound, layer);
    StableFacts(db, d);
  }

  /** Marking Group 1 complete after its bots were prompted. */
  lemma {:induction false} CompletePrompted(db: Db, d1: Db, random: nat -> real)
    requires db.rounds != [] && Prompted(db, d1, Group1, random, false)
    requires Stable(db, d1) && d1.accuracies == db.accuracies
    requires FindRound(d1.rounds, db.rounds[|db.rounds| - 1].currentRound) == Some(|db.rounds| - 1)
    ensures
      var d := CompleteGroup1(d1, db.rounds[|db.rounds| - 1].currentRound);
      && Prompted(db, d, Group1, random, true)
      && Stable(db, d) && d.accuracies == db.accuracies
      && FindRound(d.rounds, db.rounds[|db.rounds| - 1].currentRound) == Some(|db.rounds| - 1)
  {
    var round := db.rounds[|db.rounds| - 1].currentRound;
    var d := CompleteGroup1(d1, round);
    CompleteGroup1Effect(d1, round);
    StableFacts(d1, d);
    SameRosterTrans(db.users, d1.users, d.users);
  }

  /** Once Group 1 is complete a tick prompts only the Group 2 bots. */
  lemma {:induction false} Group2PhaseEffect(db: Db, random: nat -> real)
    requires Wf(db) && db.rounds != [] && db.rounds[|db.rounds| - 1].group1Complete
    ensures
      var snap := db.rounds[|db.rounds| - 1];
      Prompted(db, BotPhase(db, snap, random), Group2, random, true)
    ensures
      var snap := db.rounds[|db.rounds| - 1];
      var d := BotPhase(db, snap, random);
      && Stable(db, d) && d.accuracies == db.accuracies
      && FindRound(d.rounds, snap.currentRound) == Some(|db.rounds| - 1)
  {
    var snap := db.rounds[|db.rounds| - 1];
    assert BotPhase(db, snap, random) == HandleBots(db, snap, Group2, random);
    HandleBotsPrompted(db, Group2, random);
  }

  /**
   * The closing part of a tick on the row of round `snap.currentRound`: it
   * keeps both prediction lists and the Group 1 flag; it changes nothing
   * unless the snapshot's Group 2 list is as long as Group 2; and when it
   * acts and the final prediction applies, the round is decided on the
   * weighted Group 2 vote and one accuracy entry is appended.
   */
  lemma {:induction false} FinishPhaseEffect(d: Db, snap: GameState, random: nat -> real, k: nat)
    requires FindRound(d.rounds, snap.currentRound) == Some(k)
    ensures
      var t := FinishPhase(d, snap, random);
      && |t.rounds| == |d.rounds| && FindRound(t.rounds, snap.currentRound) == Some(k)
      && t.rounds[k].group1Predictions == d.rounds[k].group1Predictions
      && t.rounds[k].group2Predictions == d.rounds[k].group2Predictions
      && t.rounds[k].group1Complete == d.rounds[k].group1Complete
      && (|snap.group2Predictions| != |Members(d.users, 2)| || snap.isRoundComplete ==> t == d)
      && (|snap.group2Predictions| == |Members(d.users, 2)| && !snap.isRoundComplete && FinalApplies(d, snap.currentRound) ==>
            var f := FinalNodeId(d.users).value;
            var decision := Decide(WeightedSum(d.rounds[k].group2Predictions, d.edges, f));
            var answer := ImageAnswer(d.images, d.rounds[k].currentImageId).value;
            && t.rounds[k].finalPrediction == Some(decision)
            && t.rounds[k].isRoundComplete && !t.rounds[k].isWeightsUpdated
            && t.accuracies == d.accuracies + [RoundAccuracy(snap.currentRound, Accuracy(Some(decision), answer))])
  {
    var round := snap.currentRound;
    var t := FinishPhase(d, snap, random);
    FinalPredictionEffect(d, round);
    var e := FinalPrediction(d, round);
    StableFacts(d, e);
    assert RecordAccuracy(e, round).rounds == e.rounds;
    if |snap.group2Predictions| == |Members(d.users, 2)| && !snap.isRoundComplete {
      assert t == RecordAccuracy(e, round);
      if FinalApplies(d, round) {
        FinishAndRecord(d, round);
      }
    }
  }

  /** After the game is over a tick changes nothing: the terminal row is never started. */
  lemma {:induction false} GameOverIsFinal(db: Db, random: nat -> real)
    requires Wf(db)
    ensures TickDefined(Ended(db))
    ensures Tick(Ended(db), random) == Ended(db)
  {
    GameEnds(db);
  }

  /**
   * A finished round takes two ticks to move on: the first applies its
   * weight update and marks it, the second starts the next round (or ends
   * the game when no image is left).
   */
  lemma {:induction false} RoundLifecycle(db: Db, random: nat -> real)
    requires Wf(db) && db.rounds != [] && TickDefined(db)
    requires
      var snap := db.rounds[|db.rounds| - 1];
      && snap.gameStarted && snap.isRoundComplete && !snap.isWeightsUpdated
      && ImageAnswer(db.images, snap.currentImageId).Some? && FinalNodeId(db.users).Some?
    ensures
      var snap := db.rounds[|db.rounds| - 1];
      Tick(db, random) == WeightUpdate(db, snap.currentRound)
    ensures |Tick(db, random).rounds| == |db.rounds|
    ensures Tick(db, random).rounds[|db.rounds| - 1] == db.rounds[|db.rounds| - 1].(isWeightsUpdated := true)
    ensures TickDefined(Tick(db, random))
    ensures Tick(Tick(db, random), random) == NewRound(Tick(db, random))
  {
    var k := |db.rounds| - 1;
    var snap := db.rounds[k];
    var d := WeightUpdate(db, snap.currentRound);
    WeightUpdateMarks(db, k);
    assert !UpdateDue(d, snap.currentRound);
  }

  /** The weight update of the latest row, when it runs, marks that row and keeps every row where it is. */
  lemma {:induction false} WeightUpdateMarks(db: Db, k: nat)
    requires Wf(db) && k == |db.rounds| - 1 && BackpropDefined(db, db.rounds[k].currentRound)
    requires db.rounds[k].isRoundComplete && !db.rounds[k].isWeightsUpdated
    requires ImageAnswer(db.images, db.rounds[k].currentImageId).Some? && FinalNodeId(db.users).Some?
    ensures
      var d := WeightUpdate(db, db.rounds[k].currentRound);
      && |d.rounds| == |db.rounds| && d.rounds[k] == db.rounds[k].(isWeightsUpdated := true)
      && FindRound(d.rounds, db.rounds[k].currentRound) == Some(k)
  {
    var round := db.rounds[k].currentRound;
    LatestIsLast(db.rounds, k);
    var d := WeightUpdate(db, round);
    assert d.rounds == db.rounds[k := db.rounds[k].(isWeightsUpdated := true)];
    FindRoundUpdate(db.rounds, k, d.rounds[k], round);
  }

  /**
   * While Group 1 is incomplete, a tick gives every Group 1 bot without a
   * vote one vote, leaves the Group 2 list alone, and sets the Group 1 flag
   * exactly when the snapshot's Group 1 list was already as long as Group 1.
   */
  lemma {:induction false} TickPromptsGroup1(db: Db, random: nat -> real)
    requires Wf(db) && db.rounds != [] && TickDefined(db)
    requires
      var snap := db.rounds[|db.rounds| - 1];
      snap.gameStarted && !snap.isRoundComplete && !snap.group1Complete
    ensures |Tick(db, random).rounds| == |db.rounds|
    ensures
      var snap := db.rounds[|db.rounds| - 1];
      var row := Tick(db, random).rounds[|db.rounds| - 1];
      && row.group1Predictions == snap.group1Predictions + Votes(Calls(Absent(Bots(db.users, 1), snap.group1Predictions), random))
      && (forall b | b in Bots(db.users, 1) :: HasUser(row.group1Predictions, b))
      && row.group2Predictions == snap.group2Predictions
      && (row.group1Complete <==> |snap.group1Predictions| == |Members(db.users, 1)|)
  {
    var k := |db.rounds| - 1;
    var snap := db.rounds[k];
    var d := BotPhase(db, snap, random);
    assert Tick(db, random) == FinishPhase(d, snap, random);
    Group1PhaseEffect(db, random);
    FinishPhaseEffect(d, snap, random, k);
  }

  /**
   * Once Group 1 is complete, a tick gives every Group 2 bot without a vote
   * one vote and leaves the Group 1 list alone.
   */
  lemma {:induction false} TickPromptsGroup2(db: Db, random: nat -> real)
    requires Wf(db) && db.rounds != [] && TickDefined(db)
    requires
      var snap := db.rounds[|db.rounds| - 1];
      snap.gameStarted && !snap.isRoundComplete && snap.group1Complete
    ensures |Tick(db, random).rounds| == |db.rounds|
    ensures
      var snap := db.rounds[|db.rounds| - 1];
      var row := Tick(db, random).rounds[|db.rounds| - 1];
      && row.group2Predictions == snap.group2Predictions + Votes(Calls(Absent(Bots(db.users, 2), snap.group2Predictions), random))
      && (forall b | b in Bots(db.users, 2) :: HasUser(row.group2Predictions, b))
      && row.group1Predictions == snap.group1Predictions
      && row.group1Complete
  {
    var k := |db.rounds| - 1;
    var snap := db.rounds[k];
    var d := BotPhase(db, snap, random);
    assert Tick(db, random) == FinishPhase(d, snap, random);
    Group2PhaseEffect(db, random);
    FinishPhaseEffect(d, snap, random, k);
  }

  /** The bot phase of an open round, with the facts the closing phase needs. */
  lemma {:induction false} OpenRoundBots(db: Db, random: nat -> real)
    requires Wf(db) && db.rounds != []
    ensures
      var snap := db.rounds[|db.rounds| - 1];
      var d := BotPhase(db, snap, random);
      && Stable(db, d) && d.accuracies == db.accuracies
      && FindRound(d.rounds, snap.currentRound) == Some(|db.rounds| - 1)
      && Members(d.users, 2) == Members(db.users, 2) && FinalNodeId(d.users) == FinalNodeId(db.users)
      && d.rounds[|db.rounds| - 1].finalPrediction == snap.finalPrediction
  {
    var snap := db.rounds[|db.rounds| - 1];
    if snap.group1Complete {
      Group2PhaseEffect(db, random);
    } else {
      Group1PhaseEffect(db, random);
    }
    StableFacts(db, BotPhase(db, snap, random));
  }

  /**
   * A tick decides an open round only when the snapshot's Group 2 list is
   * as long as Group 2; otherwise the decision and the accuracy record stay
   * as they were.
   */
  lemma {:induction false} TickFinalNeedsGroup2(db: Db, random: nat -> real)
    requires Wf(db) && db.rounds != [] && TickDefined(db)
    requires
      var snap := db.rounds[|db.rounds| - 1];
      snap.gameStarted && !snap.isRoundComplete
    requires |db.rounds[|db.rounds| - 1].group2Predictions| != |Members(db.users, 2)|
    ensures |Tick(db, random).rounds| == |db.rounds|
    ensures Tick(db, random).rounds[|db.rounds| - 1].finalPrediction == db.rounds[|db.rounds| - 1].finalPrediction
    ensures Tick(db, random).accuracies == db.accuracies
  {
    var k := |db.rounds| - 1;
    var snap := db.rounds[k];
    var d := BotPhase(db, snap, random);
    assert Tick(db, random) == FinishPhase(d, snap, random);
    OpenRoundBots(db, random);
    assert FinishPhase(d, snap, random) == d;
  }

  /**
   * When the snapshot's Group 2 list is as long as Group 2 and the round can
   * be decided, a tick decides it on the weighted vote of the Group 2 list
   * as it stands after the tick, completes the round with its weights still
   * to update, and appends that round's accuracy.
   */
  lemma {:induction false} TickDecides(db: Db, random: nat -> real)
    requires Wf(db) && db.rounds != [] && TickDefined(db)
    requires
      var snap := db.rounds[|db.rounds| - 1];
      snap.gameStarted && !snap.isRoundComplete
    requires |db.rounds[|db.rounds| - 1].group2Predictions| == |Members(db.users, 2)|
    requires
      var snap := db.rounds[|db.rounds| - 1];
      && snap.finalPrediction.None? && FinalNodeId(db.users).Some?
      && ImageAnswer(db.images, snap.currentImageId).Some?
    ensures |Tick(db, random).rounds| == |db.rounds|
    ensures
      var snap := db.rounds[|db.rounds| - 1];
      var row := Tick(db, random).rounds[|db.rounds| - 1];
      var f := FinalNodeId(db.users).value;
      var decision := Decide(WeightedSum(row.group2Predictions, db.edges, f));
      var answer := ImageAnswer(db.images, snap.currentImageId).value;
      && row.finalPrediction == Some(decision)
      && row.isRoundComplete && !row.isWeightsUpdated
      && Tick(db, random).accuracies == db.accuracies + [RoundAccuracy(snap.currentRound, Accuracy(Some(decision), answer))]
  {
    var k := |db.rounds| - 1;
    var snap := db.rounds[k];
    var d := BotPhase(db, snap, random);
    assert Tick(db, random) == FinishPhase(d, snap, random);
    LatestIsLast(db.rounds, k);
    assert FinalApplies(db, snap.currentRound);
    OpenRoundBots(db, random);
    FinalAppliesKept(db, d, snap.currentRound, k);
    FinishPhaseEffect(d, snap, random, k);
  }

  /** Whether the final prediction applies depends only on the row's decision and image, the images and the final node. */
  lemma {:induction false} FinalAppliesKept(a: Db, b: Db, round: int, k: nat)
    requires FindRound(a.rounds, round) == Some(k) && FindRound(b.rounds, round) == Some(k)
    requires b.rounds[k].finalPrediction == a.rounds[k].finalPrediction
    requires b.rounds[k].currentImageId == a.rounds[k].currentImageId
    requires b.images == a.images && FinalNodeId(b.users) == FinalNodeId(a.users)
    ensures FinalApplies(a, round) ==> FinalApplies(b, round)
  {
  }

}
