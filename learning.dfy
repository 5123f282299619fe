/**
 * The arithmetic of the round engine (gameLoop.js): the final node's
 * weighted sum and threshold, and the two-layer delta rule, stated as the
 * list of weight writes the engine sends to the `connections` table in
 * order. Weights are reals; see the README for the floating-point caveats.
 */
module Learning {
  import opened Wrappers
  import opened Store

  /** The step size of the delta rule. */
  const LearningRate: real := 0.05

  /** The first connection from `s` to `t`, in table order (the `connections.find` calls). */
  function FindPair(es: seq<Edge>, s: int, t: int): (e: Option<Edge>)
    ensures e.Some? ==> e.value in es && e.value.source == s && e.value.target == t
    ensures e.None? <==> forall x | x in es :: !(x.source == s && x.target == t)
  {
    if es == [] then None
    else if es[0].source == s && es[0].target == t then Some(es[0])
    else
      assert forall x | x in es :: x == es[0] || x in es[1..];
      FindPair(es[1..], s, t)
  }

  // ---------------------------------------------------------------------
  // The final node's prediction

  /** What one Group 2 prediction adds to the final node's input: nothing without a connection to the final node. */
  function Contribution(p: Prediction, es: seq<Edge>, f: int): real
  {
    match FindPair(es, p.userId, f)
    case None => 0.0
    case Some(e) => (p.prediction as real) * e.weight
  }

  /** The weighted sum over the Group 2 predictions, in list order. */
  function WeightedSum(ps: seq<Prediction>, es: seq<Edge>, f: int): real
  {
    if ps == [] then 0.0
    else WeightedSum(ps[..|ps| - 1], es, f) + Contribution(ps[|ps| - 1], es, f)
  }

  /**
   * The decision `sigmoid(sum) >= 0.5 ? 1 : -1`: over the reals the logistic
   * function reaches one half exactly at zero, so the decision is the sign test.
   */
  function Decide(sum: real): int
  {
    if sum >= 0.0 then 1 else -1
  }

  /** The accumulation loop of lines 93-99. */
  method ComputeWeightedSum(ps: seq<Prediction>, es: seq<Edge>, f: int) returns (sum: real)
    ensures sum == WeightedSum(ps, es, f)
  {
    sum := 0.0;
    for i := 0 to |ps|
      invariant sum == WeightedSum(ps[..i], es, f)
    {
      assert ps[..i + 1][..i] == ps[..i];
      var connection := FindPair(es, ps[i].userId, f);
      if connection.Some? {
        sum := sum + (ps[i].prediction as real) * connection.value.weight;
      }
    }
    assert ps[..|ps|] == ps;
  }

  /** Every connection into the final node has a non-negative weight. */
  predicate NonNegativeInto(es: seq<Edge>, f: int)
  {
    forall e | e in es && e.target == f :: e.weight >= 0.0
  }

  /** Some prediction in `ps` reaches the final node over a connection of positive weight. */
  predicate SomePositiveVoice(ps: seq<Prediction>, es: seq<Edge>, f: int)
  {
    exists p | p in ps :: FindPair(es, p.userId, f).Some? && FindPair(es, p.userId, f).value.weight > 0.0
  }

  /** With non-negative weights, a unanimous vote `v` pulls the sum towards `v`, strictly once some voice counts. */
  lemma {:induction false} UnanimousSum(ps: seq<Prediction>, es: seq<Edge>, f: int, v: int)
    requires v == 1 || v == -1
    requires forall p | p in ps :: p.prediction == v
    requires NonNegativeInto(es, f)
    ensures (v as real) * WeightedSum(ps, es, f) >= 0.0
    ensures SomePositiveVoice(ps, es, f) ==> (v as real) * WeightedSum(ps, es, f) > 0.0
  {
    if ps != [] {
      var init := ps[..|ps| - 1];
      var last := ps[|ps| - 1];
      assert forall p | p in init :: p in ps;
      UnanimousSum(init, es, f, v);
      var c := Contribution(last, es, f);
      assert (v as real) * c >= 0.0;
      assert (v as real) * WeightedSum(ps, es, f) == (v as real) * WeightedSum(init, es, f) + (v as real) * c;
      if SomePositiveVoice(ps, es, f) {
        var p :| p in ps && FindPair(es, p.userId, f).Some? && FindPair(es, p.userId, f).value.weight > 0.0;
        if p == last {
          assert (v as real) * c == FindPair(es, p.userId, f).value.weight;
        } else {
          assert p in init;
        }
      }
    }
  }

  /**
   * A unanimous Group 2 decides the final prediction when the connections
   * into the final node are non-negative: all `1` gives `1`, and all `-1`
   * gives `-1` as soon as one of them reaches the final node with positive
   * weight.
   */
  lemma {:induction false} UnanimousDecision(ps: seq<Prediction>, es: seq<Edge>, f: int, v: int)
    requires v == 1 || v == -1
    requires forall p | p in ps :: p.prediction == v
    requires NonNegativeInto(es, f)
    ensures v == 1 ==> Decide(WeightedSum(ps, es, f)) == 1
    ensures v == -1 && SomePositiveVoice(ps, es, f) ==> Decide(WeightedSum(ps, es, f)) == -1
  {
    UnanimousSum(ps, es, f, v);
  }

  // ---------------------------------------------------------------------
  // Weight writes

  /** One `update({ weight }).eq('id', id)` on the `connections` table. */
  datatype Write = Write(id: int, weight: real)

  /** The table after one write: every row with that id takes the new weight. */
  function ApplyWrite(es: seq<Edge>, w: Write): seq<Edge>
  {
    seq(|es|, i requires 0 <= i < |es| => if es[i].id == w.id then es[i].(weight := w.weight) else es[i])
  }

  /** The table after a list of writes, in order. */
  function ApplyWrites(es: seq<Edge>, ws: seq<Write>): seq<Edge>
  {
    if ws == [] then es
    else ApplyWrite(ApplyWrites(es, ws[..|ws| - 1]), ws[|ws| - 1])
  }

  /** The weight the last write to `id` sets, if any write names `id`. */
  function LastWrite(ws: seq<Write>, id: int): (w: Option<real>)
    ensures w.None? <==> forall x | x in ws :: x.id != id
    ensures w.Some? ==> Write(id, w.value) in ws
  {
    if ws == [] then None
    else if ws[|ws| - 1].id == id then Some(ws[|ws| - 1].weight)
    else
      var init := ws[..|ws| - 1];
      assert forall x | x in ws :: x in init || x == ws[|ws| - 1];
      LastWrite(init, id)
  }

  /**
   * Writing weights changes nothing but weights: every row keeps its id and
   * endpoints and takes the weight of the last write to its id, or keeps its
   * weight when no write names it.
   */
  lemma {:induction false} ApplyWritesEffect(es: seq<Edge>, ws: seq<Write>)
    ensures |ApplyWrites(es, ws)| == |es|
    ensures forall i | 0 <= i < |es| ::
      ApplyWrites(es, ws)[i] == es[i].(weight := match LastWrite(ws, es[i].id) case None => es[i].weight case Some(w) => w)
  {
    if ws != [] {
      ApplyWritesEffect(es, ws[..|ws| - 1]);
    }
  }

  lemma {:induction false} ApplyWritesLength(es: seq<Edge>, ws: seq<Write>)
    ensures |ApplyWrites(es, ws)| == |es|
  {
    if ws != [] {
      ApplyWritesLength(es, ws[..|ws| - 1]);
    }
  }

  /** When every write to `id` sets the same weight `w`, and one does, the row with that id ends with `w`. */
  lemma {:induction false} LastWriteAgreed(ws: seq<Write>, id: int, w: real)
    requires Write(id, w) in ws
    requires forall x | x in ws && x.id == id :: x.weight == w
    ensures LastWrite(ws, id) == Some(w)
  {
    var r := LastWrite(ws, id);
    assert Write(id, r.value) in ws;
  }

  /** The output error `correct - final`; JavaScript turns a missing final prediction into 0. */
  function OutputError(correct: int, final: Option<int>): int
  {
    correct - (match final case None => 0 case Some(v) => v)
  }

  /** The delta rule: a weight `w` moves by the learning rate times the error times the input. */
  function Nudge(w: real, error: real, input: int): real
  {
    w + LearningRate * error * (input as real)
  }

  /** A Group 2 member's error: the output error scaled by its weight into the final node. */
  function Blame(err: int, w: real): real
  {
    (err as real) * w
  }

  /** The write for Group 2 prediction `q` on its connection `e` into the final node. */
  function OutputUpdate(e: Edge, err: int, q: Prediction): Write
  {
    Write(e.id, Nudge(e.weight, err as real, q.prediction))
  }

  /** The write for Group 1 prediction `p` on its connection `e` to a Group 2 member whose error is `g2Error`. */
  function HiddenUpdate(e: Edge, g2Error: real, p: Prediction): Write
  {
    Write(e.id, Nudge(e.weight, g2Error, p.prediction))
  }

  /** The writes of lines 206-226: `w + lr * err * pred` on each Group 2 member's connection into the final node. */
  function OutputWrites(ps2: seq<Prediction>, es: seq<Edge>, f: int, err: int): seq<Write>
  {
    if ps2 == [] then []
    else
      var p := ps2[|ps2| - 1];
      OutputWrites(ps2[..|ps2| - 1], es, f, err) +
        match FindPair(es, p.userId, f)
        case None => []
        case Some(e) => [OutputUpdate(e, err, p)]
  }

  /** The `group2Errors` table of lines 229-237: `err * w` with `w` the weight read before this round's writes. */
  function Group2Errors(ps2: seq<Prediction>, es: seq<Edge>, f: int, err: int): map<int, real>
  {
    if ps2 == [] then map[]
    else
      var p := ps2[|ps2| - 1];
      var m := Group2Errors(ps2[..|ps2| - 1], es, f, err);
      match FindPair(es, p.userId, f)
      case None => m
      case Some(e) => m[p.userId := Blame(err, e.weight)]
  }

  /** Every Group 1 to Group 2 connection the update touches leads to a Group 2 member with an error (else the source writes NaN). */
  predicate ErrorsDefined(ps1: seq<Prediction>, ps2: seq<Prediction>, es: seq<Edge>, errs: map<int, real>)
  {
    forall p, q | p in ps1 && q in ps2 :: FindPair(es, p.userId, q.userId).Some? ==> q.userId in errs
  }

  /** The writes of the inner loop of lines 242-263 for one Group 1 prediction `p`. */
  function HiddenRowWrites(p: Prediction, ps2: seq<Prediction>, es: seq<Edge>, errs: map<int, real>): seq<Write>
    requires forall q | q in ps2 :: FindPair(es, p.userId, q.userId).Some? ==> q.userId in errs
  {
    if ps2 == [] then []
    else
      var q := ps2[|ps2| - 1];
      HiddenRowWrites(p, ps2[..|ps2| - 1], es, errs) +
        match FindPair(es, p.userId, q.userId)
        case None => []
        case Some(e) => [HiddenUpdate(e, errs[q.userId], p)]
  }

  /** The writes of the nested loops of lines 241-264. */
  function HiddenWrites(ps1: seq<Prediction>, ps2: seq<Prediction>, es: seq<Edge>, errs: map<int, real>): seq<Write>
    requires ErrorsDefined(ps1, ps2, es, errs)
  {
    if ps1 == [] then []
    else
      var init := ps1[..|ps1| - 1];
      assert ErrorsDefined(init, ps2, es, errs) by {
        assert forall p | p in init :: p in ps1;
      }
      HiddenWrites(init, ps2, es, errs) + HiddenRowWrites(ps1[|ps1| - 1], ps2, es, errs)
  }

  /** Every write of a round: the output layer first, then the hidden layer. */
  function BackpropWrites(ps1: seq<Prediction>, ps2: seq<Prediction>, es: seq<Edge>, f: int, err: int): seq<Write>
    requires ErrorsDefined(ps1, ps2, es, Group2Errors(ps2, es, f, err))
  {
    OutputWrites(ps2, es, f, err) + HiddenWrites(ps1, ps2, es, Group2Errors(ps2, es, f, err))
  }

  // ---------------------------------------------------------------------
  // Where the writes come from

  /** Each output write comes from a Group 2 prediction and its connection into the final node. */
  lemma {:induction false} OutputWriteSource(ps2: seq<Prediction>, es: seq<Edge>, f: int, err: int, x: Write)
      returns (q: Prediction, e: Edge)
    requires x in OutputWrites(ps2, es, f, err)
    ensures q in ps2 && FindPair(es, q.userId, f) == Some(e) && x == OutputUpdate(e, err, q)
  {
    var init := ps2[..|ps2| - 1];
    var last := ps2[|ps2| - 1];
    if x in OutputWrites(init, es, f, err) {
      q, e := OutputWriteSource(init, es, f, err, x);
    } else {
      q, e := last, FindPair(es, last.userId, f).value;
    }
  }

  /** Each Group 2 prediction with a connection into the final node gets its output write. */
  lemma {:induction false} OutputWriteFor(ps2: seq<Prediction>, es: seq<Edge>, f: int, err: int, q: Prediction)
    requires q in ps2 && FindPair(es, q.userId, f).Some?
    ensures OutputUpdate(FindPair(es, q.userId, f).value, err, q) in OutputWrites(ps2, es, f, err)
  {
    var init := ps2[..|ps2| - 1];
    if q != ps2[|ps2| - 1] {
      assert ps2 == init + [ps2[|ps2| - 1]];
      OutputWriteFor(init, es, f, err, q);
    }
  }

  /** The error table holds, for each Group 2 member with a connection into the final node, `err` times that connection's weight as read. */
  lemma {:induction false} Group2ErrorsValues(ps2: seq<Prediction>, es: seq<Edge>, f: int, err: int)
    requires DistinctUsers(ps2)
    ensures forall k :: k in Group2Errors(ps2, es, f, err) <==> HasUser(ps2, k) && FindPair(es, k, f).Some?
    ensures forall q | q in ps2 && FindPair(es, q.userId, f).Some? ::
      && q.userId in Group2Errors(ps2, es, f, err)
      && Group2Errors(ps2, es, f, err)[q.userId] == Blame(err, FindPair(es, q.userId, f).value.weight)
  {
    if ps2 != [] {
      var init := ps2[..|ps2| - 1];
      var last := ps2[|ps2| - 1];
      assert ps2 == init + [last];
      assert DistinctUsers(init);
      Group2ErrorsValues(init, es, f, err);
      forall q | q in init ensures q.userId != last.userId {
        var i :| 0 <= i < |init| && init[i] == q;
        assert ps2[i] == q;
      }
    }
  }

  lemma {:induction false} Group2ErrorAt(ps2: seq<Prediction>, es: seq<Edge>, f: int, err: int, q: Prediction)
    requires DistinctUsers(ps2) && q in ps2 && FindPair(es, q.userId, f).Some?
    ensures q.userId in Group2Errors(ps2, es, f, err)
    ensures Group2Errors(ps2, es, f, err)[q.userId] == Blame(err, FindPair(es, q.userId, f).value.weight)
  {
    var init := ps2[..|ps2| - 1];
    var last := ps2[|ps2| - 1];
    assert ps2 == init + [last];
    if q != last {
      assert DistinctUsers(init);
      var i :| 0 <= i < |init| && init[i] == q;
      assert ps2[i] == q;
      assert q.userId != last.userId;
      Group2ErrorAt(init, es, f, err, q);
    }
  }

  lemma {:induction false} Group2ErrorKey(ps2: seq<Prediction>, es: seq<Edge>, f: int, err: int, k: int)
    requires k in Group2Errors(ps2, es, f, err)
    ensures FindPair(es, k, f).Some?
  {
    var init := ps2[..|ps2| - 1];
    if k in Group2Errors(init, es, f, err) {
      Group2ErrorKey(init, es, f, err, k);
    }
  }

  /** With a zero output error every Group 2 error is zero. */
  lemma {:induction false} Group2ErrorsZero(ps2: seq<Prediction>, es: seq<Edge>, f: int)
    ensures forall k | k in Group2Errors(ps2, es, f, 0) :: Group2Errors(ps2, es, f, 0)[k] == 0.0
  {
    if ps2 != [] {
      Group2ErrorsZero(ps2[..|ps2| - 1], es, f);
    }
  }

  lemma {:induction false} HiddenRowWriteSource(p: Prediction, ps2: seq<Prediction>, es: seq<Edge>, errs: map<int, real>, x: Write)
      returns (q: Prediction, e: Edge)
    requires forall q | q in ps2 :: FindPair(es, p.userId, q.userId).Some? ==> q.userId in errs
    requires x in HiddenRowWrites(p, ps2, es, errs)
    ensures q in ps2 && FindPair(es, p.userId, q.userId) == Some(e) && q.userId in errs
    ensures x == HiddenUpdate(e, errs[q.userId], p)
  {
    var init := ps2[..|ps2| - 1];
    var last := ps2[|ps2| - 1];
    if x in HiddenRowWrites(p, init, es, errs) {
      q, e := HiddenRowWriteSource(p, init, es, errs, x);
    } else {
      q, e := last, FindPair(es, p.userId, last.userId).value;
    }
  }

  /** Each hidden write comes from a Group 1 prediction, a Group 2 prediction and the connection between them. */
  lemma {:induction false} HiddenWriteSource(ps1: seq<Prediction>, ps2: seq<Prediction>, es: seq<Edge>, errs: map<int, real>, x: Write)
      returns (p: Prediction, q: Prediction, e: Edge)
    requires ErrorsDefined(ps1, ps2, es, errs)
    requires x in HiddenWrites(ps1, ps2, es, errs)
    ensures p in ps1 && q in ps2 && FindPair(es, p.userId, q.userId) == Some(e) && q.userId in errs
    ensures x == HiddenUpdate(e, errs[q.userId], p)
  {
    var init := ps1[..|ps1| - 1];
    var last := ps1[|ps1| - 1];
    assert forall p | p in init :: p in ps1;
    if x in HiddenWrites(init, ps2, es, errs) {
      p, q, e := HiddenWriteSource(init, ps2, es, errs, x);
    } else {
      p := last;
      q, e := HiddenRowWriteSource(last, ps2, es, errs, x);
    }
  }

  lemma {:induction false} HiddenRowWriteFor(p: Prediction, ps2: seq<Prediction>, es: seq<Edge>, errs: map<int, real>, q: Prediction)
    requires forall q | q in ps2 :: FindPair(es, p.userId, q.userId).Some? ==> q.userId in errs
    requires q in ps2 && FindPair(es, p.userId, q.userId).Some?
    ensures HiddenUpdate(FindPair(es, p.userId, q.userId).value, errs[q.userId], p) in HiddenRowWrites(p, ps2, es, errs)
  {
    var init := ps2[..|ps2| - 1];
    if q != ps2[|ps2| - 1] {
      assert ps2 == init + [ps2[|ps2| - 1]];
      HiddenRowWriteFor(p, init, es, errs, q);
    }
  }

  /** Each Group 1 prediction with a connection to a Group 2 predictor gets its hidden write. */
  lemma {:induction false} HiddenWriteFor(ps1: seq<Prediction>, ps2: seq<Prediction>, es: seq<Edge>, errs: map<int, real>,
                                          p: Prediction, q: Prediction)
    requires ErrorsDefined(ps1, ps2, es, errs)
    requires p in ps1 && q in ps2 && FindPair(es, p.userId, q.userId).Some?
    ensures HiddenUpdate(FindPair(es, p.userId, q.userId).value, errs[q.userId], p) in HiddenWrites(ps1, ps2, es, errs)
  {
    var init := ps1[..|ps1| - 1];
    var last := ps1[|ps1| - 1];
    assert forall p | p in init :: p in ps1;
    if p == last {
      HiddenRowWriteFor(p, ps2, es, errs, q);
    } else {
      assert ps1 == init + [last];
      HiddenWriteFor(init, ps2, es, errs, p, q);
    }
  }

  // ---------------------------------------------------------------------
  // The table after a round's weight update

  /** The `connections` table after the writes of one weight update. */
  function Backpropagated(es: seq<Edge>, ps1: seq<Prediction>, ps2: seq<Prediction>, f: int, err: int): seq<Edge>
    requires ErrorsDefined(ps1, ps2, es, Group2Errors(ps2, es, f, err))
  {
    ApplyWrites(es, BackpropWrites(ps1, ps2, es, f, err))
  }

  /** With distinct ids, a row is the only row with its id. */
  lemma {:induction false} SameIdSameRow(es: seq<Edge>, e: Edge, i: nat)
    requires DistinctIds(es) && e in es && i < |es| && e.id == es[i].id
    ensures e == es[i]
  {
    var j :| 0 <= j < |es| && es[j] == e;
    assert i == j;
  }

  /** With distinct ids, two different rows have different ids. */
  lemma {:induction false} OtherRowOtherId(es: seq<Edge>, e: Edge, i: nat)
    requires DistinctIds(es) && e in es && i < |es| && e != es[i]
    ensures e.id != es[i].id
  {
    var j :| 0 <= j < |es| && es[j] == e;
    assert j != i;
  }

  /** With distinct users, a list entry is the only entry of its user. */
  lemma {:induction false} SameUserSameEntry(ps: seq<Prediction>, p: Prediction, q: Prediction)
    requires DistinctUsers(ps) && p in ps && q in ps && p.userId == q.userId
    ensures p == q
  {
    var i :| 0 <= i < |ps| && ps[i] == p;
    var j :| 0 <= j < |ps| && ps[j] == q;
    assert i == j;
  }

  /** Writes that each restore a row's own weight change nothing. */
  lemma {:induction false} NeutralWrites(es: seq<Edge>, ws: seq<Write>)
    requires DistinctIds(es)
    requires forall x | x in ws :: exists e | e in es :: x == Write(e.id, e.weight)
    ensures ApplyWrites(es, ws) == es
  {
    var out := ApplyWrites(es, ws);
    ApplyWritesEffect(es, ws);
    forall i | 0 <= i < |es| ensures out[i] == es[i] {
      var lw := LastWrite(ws, es[i].id);
      if lw.Some? {
        var x := Write(es[i].id, lw.value);
        assert x in ws;
        var e :| e in es && x == Write(e.id, e.weight);
        SameIdSameRow(es, e, i);
      }
    }
  }

  /** A round whose final prediction was right (zero output error) changes no weight. */
  lemma {:induction false} ZeroErrorKeepsWeights(es: seq<Edge>, ps1: seq<Prediction>, ps2: seq<Prediction>, f: int)
    requires DistinctIds(es)
    requires ErrorsDefined(ps1, ps2, es, Group2Errors(ps2, es, f, 0))
    ensures Backpropagated(es, ps1, ps2, f, 0) == es
  {
    var errs := Group2Errors(ps2, es, f, 0);
    var ws := BackpropWrites(ps1, ps2, es, f, 0);
    Group2ErrorsZero(ps2, es, f);
    forall x | x in ws ensures exists e | e in es :: x == Write(e.id, e.weight) {
      if x in OutputWrites(ps2, es, f, 0) {
        var q, e := OutputWriteSource(ps2, es, f, 0, x);
        assert x == Write(e.id, e.weight);
      } else {
        var p, q, e := HiddenWriteSource(ps1, ps2, es, errs, x);
        assert errs[q.userId] == 0.0;
        assert x == Write(e.id, e.weight);
      }
    }
    NeutralWrites(es, ws);
  }

  /** The facts under which each connection receives at most one distinct write. */
  predicate RoundKeys(es: seq<Edge>, ps1: seq<Prediction>, ps2: seq<Prediction>, f: int)
  {
    DistinctIds(es) && DistinctUsers(ps1) && DistinctUsers(ps2) && !HasUser(ps2, f)
  }

  lemma {:induction false} OutputDeltaAt(es: seq<Edge>, ps1: seq<Prediction>, ps2: seq<Prediction>, f: int, err: int, q: Prediction, i: nat)
    requires RoundKeys(es, ps1, ps2, f)
    requires ErrorsDefined(ps1, ps2, es, Group2Errors(ps2, es, f, err))
    requires q in ps2 && i < |es| && FindPair(es, q.userId, f) == Some(es[i])
    ensures |Backpropagated(es, ps1, ps2, f, err)| == |es|
    ensures Backpropagated(es, ps1, ps2, f, err)[i]
         == es[i].(weight := Nudge(es[i].weight, err as real, q.prediction))
  {
    var errs := Group2Errors(ps2, es, f, err);
    var ws := BackpropWrites(ps1, ps2, es, f, err);
    var w := OutputUpdate(es[i], err, q);
    OutputWriteFor(ps2, es, f, err, q);
    ApplyWritesEffect(es, ws);
    forall x | x in ws && x.id == es[i].id ensures x.weight == w.weight {
      if x in OutputWrites(ps2, es, f, err) {
        var q', e := OutputWriteSource(ps2, es, f, err, x);
        SameIdSameRow(es, e, i);
        SameUserSameEntry(ps2, q, q');
      } else {
        var p', q', e := HiddenWriteSource(ps1, ps2, es, errs, x);
        assert q'.userId != f;
        SameIdSameRow(es, e, i);
      }
    }
    LastWriteAgreed(ws, es[i].id, w.weight);
  }

  /**
   * The output layer's delta rule: the connection from each Group 2
   * predictor into the final node moves by `lr * err * prediction`, given
   * that ids and predicting users are keys and the final node is not itself
   * a Group 2 predictor.
   */
  lemma {:induction false} OutputDeltaRule(es: seq<Edge>, ps1: seq<Prediction>, ps2: seq<Prediction>, f: int, err: int)
    requires RoundKeys(es, ps1, ps2, f)
    requires ErrorsDefined(ps1, ps2, es, Group2Errors(ps2, es, f, err))
    ensures |Backpropagated(es, ps1, ps2, f, err)| == |es|
    ensures forall q, i | q in ps2 && 0 <= i < |es| && FindPair(es, q.userId, f) == Some(es[i]) ::
      Backpropagated(es, ps1, ps2, f, err)[i].weight == Nudge(es[i].weight, err as real, q.prediction)
  {
    ApplyWritesEffect(es, BackpropWrites(ps1, ps2, es, f, err));
    forall q, i | q in ps2 && 0 <= i < |es| && FindPair(es, q.userId, f) == Some(es[i])
      ensures Backpropagated(es, ps1, ps2, f, err)[i].weight == Nudge(es[i].weight, err as real, q.prediction)
    {
      OutputDeltaAt(es, ps1, ps2, f, err, q, i);
    }
  }

  lemma {:induction false} HiddenDeltaAt(es: seq<Edge>, ps1: seq<Prediction>, ps2: seq<Prediction>, f: int, err: int,
                                         p: Prediction, q: Prediction, i: nat)
    requires RoundKeys(es, ps1, ps2, f)
    requires ErrorsDefined(ps1, ps2, es, Group2Errors(ps2, es, f, err))
    requires p in ps1 && q in ps2 && i < |es| && FindPair(es, p.userId, q.userId) == Some(es[i])
    ensures FindPair(es, q.userId, f).Some?
    ensures |Backpropagated(es, ps1, ps2, f, err)| == |es|
    ensures Backpropagated(es, ps1, ps2, f, err)[i].weight
         == Nudge(es[i].weight, Blame(err, FindPair(es, q.userId, f).value.weight), p.prediction)
  {
    var errs := Group2Errors(ps2, es, f, err);
    var ws := BackpropWrites(ps1, ps2, es, f, err);
    Group2ErrorKey(ps2, es, f, err, q.userId);
    Group2ErrorAt(ps2, es, f, err, q);
    var g := Blame(err, FindPair(es, q.userId, f).value.weight);
    assert errs[q.userId] == g;
    var w := HiddenUpdate(es[i], g, p);
    HiddenWriteFor(ps1, ps2, es, errs, p, q);
    ApplyWritesEffect(es, ws);
    forall x | x in ws && x.id == es[i].id ensures x.weight == w.weight {
      if x in OutputWrites(ps2, es, f, err) {
        var q', e := OutputWriteSource(ps2, es, f, err, x);
        assert q.userId != f;
        SameIdSameRow(es, e, i);
      } else {
        var p', q', e := HiddenWriteSource(ps1, ps2, es, errs, x);
        SameIdSameRow(es, e, i);
        SameUserSameEntry(ps1, p, p');
        SameUserSameEntry(ps2, q, q');
      }
    }
    LastWriteAgreed(ws, es[i].id, w.weight);
    assert Backpropagated(es, ps1, ps2, f, err)[i].weight == w.weight;
  }

  /**
   * The hidden layer's delta rule: the connection from a Group 1 predictor
   * to a Group 2 predictor moves by `lr * (err * w) * prediction`, where `w`
   * is the Group 2 member's weight into the final node as read before this
   * round's writes.
   */
  lemma {:induction false} HiddenDeltaRule(es: seq<Edge>, ps1: seq<Prediction>, ps2: seq<Prediction>, f: int, err: int)
    requires RoundKeys(es, ps1, ps2, f)
    requires ErrorsDefined(ps1, ps2, es, Group2Errors(ps2, es, f, err))
    ensures |Backpropagated(es, ps1, ps2, f, err)| == |es|
    ensures forall p, q, i | p in ps1 && q in ps2 && 0 <= i < |es| && FindPair(es, p.userId, q.userId) == Some(es[i]) ::
      && FindPair(es, q.userId, f).Some?
      && Backpropagated(es, ps1, ps2, f, err)[i].weight
         == Nudge(es[i].weight, Blame(err, FindPair(es, q.userId, f).value.weight), p.prediction)
  {
    ApplyWritesLength(es, BackpropWrites(ps1, ps2, es, f, err));
    forall p, q, i | p in ps1 && q in ps2 && 0 <= i < |es| && FindPair(es, p.userId, q.userId) == Some(es[i])
      ensures && FindPair(es, q.userId, f).Some?
              && Backpropagated(es, ps1, ps2, f, err)[i].weight
                 == Nudge(es[i].weight, Blame(err, FindPair(es, q.userId, f).value.weight), p.prediction)
    {
      HiddenDeltaAt(es, ps1, ps2, f, err, p, q, i);
    }
  }

  lemma {:induction false} UntouchedAt(es: seq<Edge>, ps1: seq<Prediction>, ps2: seq<Prediction>, f: int, err: int, i: nat)
    requires DistinctIds(es)
    requires ErrorsDefined(ps1, ps2, es, Group2Errors(ps2, es, f, err))
    requires i < |es|
    requires !(HasUser(ps2, es[i].source) && es[i].target == f)
    requires !(HasUser(ps1, es[i].source) && HasUser(ps2, es[i].target))
    ensures |Backpropagated(es, ps1, ps2, f, err)| == |es|
    ensures Backpropagated(es, ps1, ps2, f, err)[i] == es[i]
  {
    var errs := Group2Errors(ps2, es, f, err);
    var ws := BackpropWrites(ps1, ps2, es, f, err);
    ApplyWritesEffect(es, ws);
    forall x | x in ws ensures x.id != es[i].id {
      if x in OutputWrites(ps2, es, f, err) {
        var q', e := OutputWriteSource(ps2, es, f, err, x);
        var j :| 0 <= j < |es| && es[j] == e;
        assert j != i;
      } else {
        var p', q', e := HiddenWriteSource(ps1, ps2, es, errs, x);
        var j :| 0 <= j < |es| && es[j] == e;
        assert j != i;
      }
    }
  }

  /**
   * A row that repeats the pair of an earlier row is never written: every
   * lookup by pair stops at the earlier row.
   */
  lemma {:induction false} ShadowedAt(es: seq<Edge>, ps1: seq<Prediction>, ps2: seq<Prediction>, f: int, err: int, i: nat)
    requires DistinctIds(es)
    requires ErrorsDefined(ps1, ps2, es, Group2Errors(ps2, es, f, err))
    requires i < |es|
    requires FindPair(es, es[i].source, es[i].target) != Some(es[i])
    ensures |Backpropagated(es, ps1, ps2, f, err)| == |es|
    ensures Backpropagated(es, ps1, ps2, f, err)[i] == es[i]
  {
    var errs := Group2Errors(ps2, es, f, err);
    var ws := BackpropWrites(ps1, ps2, es, f, err);
    ApplyWritesEffect(es, ws);
    forall x | x in ws ensures x.id != es[i].id {
      if x in OutputWrites(ps2, es, f, err) {
        var q', e := OutputWriteSource(ps2, es, f, err, x);
        assert e != es[i];
        OtherRowOtherId(es, e, i);
      } else {
        var p', q', e := HiddenWriteSource(ps1, ps2, es, errs, x);
        assert e != es[i];
        OtherRowOtherId(es, e, i);
      }
    }
  }

  /**
   * Only connections from a Group 2 predictor into the final node or from a
   * Group 1 predictor to a Group 2 predictor are written, and of those only
   * the first row of each pair; every other row stays as it was, and every
   * row keeps its id and endpoints.
   */
  lemma {:induction false} UntouchedConnections(es: seq<Edge>, ps1: seq<Prediction>, ps2: seq<Prediction>, f: int, err: int)
    requires DistinctIds(es)
    requires ErrorsDefined(ps1, ps2, es, Group2Errors(ps2, es, f, err))
    ensures |Backpropagated(es, ps1, ps2, f, err)| == |es|
    ensures forall i | 0 <= i < |es| ::
      var e := Backpropagated(es, ps1, ps2, f, err)[i];
      e.id == es[i].id && e.source == es[i].source && e.target == es[i].target
    ensures forall i | 0 <= i < |es| && !(HasUser(ps2, es[i].source) && es[i].target == f)
                                     && !(HasUser(ps1, es[i].source) && HasUser(ps2, es[i].target)) ::
      Backpropagated(es, ps1, ps2, f, err)[i] == es[i]
    ensures forall i | 0 <= i < |es| && FindPair(es, es[i].source, es[i].target) != Some(es[i]) ::
      Backpropagated(es, ps1, ps2, f, err)[i] == es[i]
  {
    ApplyWritesEffect(es, BackpropWrites(ps1, ps2, es, f, err));
    forall i | 0 <= i < |es| && FindPair(es, es[i].source, es[i].target) != Some(es[i])
      ensures Backpropagated(es, ps1, ps2, f, err)[i] == es[i]
    {
      ShadowedAt(es, ps1, ps2, f, err, i);
    }
    forall i | 0 <= i < |es| && !(HasUser(ps2, es[i].source) && es[i].target == f)
                             && !(HasUser(ps1, es[i].source) && HasUser(ps2, es[i].target))
      ensures Backpropagated(es, ps1, ps2, f, err)[i] == es[i]
    {
      UntouchedAt(es, ps1, ps2, f, err, i);
    }
  }
}
