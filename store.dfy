/**
 * The persistent store the round engine and the topology reconciler work on:
 * the `game_state` rows, the `connections` table, the participants table
 * (`vk_demo_db`), the `images` table and the `round_accuracies` table.
 * Every store call is modelled as succeeding; a `.single()` read that finds no
 * row (or more than one) is a `None`.
 */
module Store {
  import opened Wrappers

  /** One entry of a round's `group1_predictions` / `group2_predictions` list. */
  datatype Prediction = Prediction(userId: int, prediction: int)

  /** One row of `game_state`. */
  datatype GameState = GameState(
    currentRound: int,
    currentImageId: Option<int>,
    group1Predictions: seq<Prediction>,
    group2Predictions: seq<Prediction>,
    group1Complete: bool,
    finalPrediction: Option<int>,
    isRoundComplete: bool,
    isWeightsUpdated: bool,
    gameStarted: bool,
    gameOver: bool)

  /** One row of `connections`: a weighted directed edge between two participants. */
  datatype Edge = Edge(id: int, source: int, target: int, weight: real)

  /** One row of `vk_demo_db`; `groupNumber` is 1, 2, -2 (the final node) or -1 (unassigned). */
  datatype User = User(id: int, groupNumber: int, isBot: bool, hasGivenInput: bool)

  /** One row of `images`; the upload form only admits labels 0 and 1. */
  datatype Image = Image(id: int, correctAnswer: int, used: bool)

  /** One row of `round_accuracies`. */
  datatype RoundAccuracy = RoundAccuracy(round: int, accuracy: int)

  /** The two intermediate layers, which own a prediction list each. */
  datatype Layer = Group1 | Group2

  const FinalNodeGroup: int := -2

  function GroupNumber(layer: Layer): int
  {
    match layer
    case Group1 => 1
    case Group2 => 2
  }

  /** The prediction list of `layer` in a row (the `group${n}_predictions` column). */
  function Predictions(row: GameState, layer: Layer): seq<Prediction>
  {
    match layer
    case Group1 => row.group1Predictions
    case Group2 => row.group2Predictions
  }

  function WithPredictions(row: GameState, layer: Layer, ps: seq<Prediction>): (r: GameState)
    ensures Predictions(r, layer) == ps
    ensures forall other: Layer | other != layer :: Predictions(r, other) == Predictions(row, other)
    ensures r.currentRound == row.currentRound && r.gameStarted == row.gameStarted
  {
    match layer
    case Group1 => row.(group1Predictions := ps)
    case Group2 => row.(group2Predictions := ps)
  }

  /** Some entry of `ps` belongs to participant `u` (the `.some(p => p.user_id === id)` test). */
  predicate HasUser(ps: seq<Prediction>, u: int)
  {
    exists p | p in ps :: p.userId == u
  }

  /** No participant appears twice in a prediction list. */
  predicate DistinctUsers(ps: seq<Prediction>)
  {
    forall i, j | 0 <= i < j < |ps| :: ps[i].userId != ps[j].userId
  }

  /** The ids of the participants whose group is `group`, in table order. */
  function Members(users: seq<User>, group: int): (ids: seq<int>)
    ensures |ids| <= |users|
    ensures forall x :: x in ids <==> exists u | u in users :: u.id == x && u.groupNumber == group
  {
    if users == [] then []
    else
      var last := users[|users| - 1];
      assert users == users[..|users| - 1] + [last];
      Members(users[..|users| - 1], group) + (if last.groupNumber == group then [last.id] else [])
  }

  /** The ids of the bots whose group is `group`, in table order. */
  function Bots(users: seq<User>, group: int): (ids: seq<int>)
    ensures |ids| <= |users|
    ensures forall x :: x in ids <==> exists u | u in users :: u.id == x && u.groupNumber == group && u.isBot
  {
    if users == [] then []
    else
      var last := users[|users| - 1];
      assert users == users[..|users| - 1] + [last];
      Bots(users[..|users| - 1], group) + (if last.groupNumber == group && last.isBot then [last.id] else [])
  }

  /** The final node's id: `.eq('group_number', -2).single()` succeeds only when exactly one participant is in that group. */
  function FinalNodeId(users: seq<User>): (f: Option<int>)
    ensures f.Some? <==> |Members(users, FinalNodeGroup)| == 1
    ensures f.Some? ==> exists u | u in users :: u.id == f.value && u.groupNumber == FinalNodeGroup
  {
    var ids := Members(users, FinalNodeGroup);
    if |ids| == 1 then
      assert ids[0] in ids;
      Some(ids[0])
    else None
  }

  /** The label of the image with id `id`, if there is such an image. */
  function ImageAnswer(images: seq<Image>, id: Option<int>): (a: Option<int>)
    ensures a.Some? <==> id.Some? && exists m | m in images :: m.id == id.value
    ensures a.Some? ==> exists m | m in images :: m.id == id.value && m.correctAnswer == a.value
  {
    if id.None? || images == [] then None
    else if images[0].id == id.value then Some(images[0].correctAnswer)
    else
      var rest := ImageAnswer(images[1..], id);
      assert forall m | m in images :: m == images[0] || m in images[1..];
      rest
  }

  /** The index of the first image not yet used (`.eq('used', false).limit(1)`). */
  function FirstUnusedImage(images: seq<Image>): (k: Option<nat>)
    ensures k.Some? ==> k.value < |images| && !images[k.value].used
    ensures k.Some? ==> forall j | 0 <= j < k.value :: images[j].used
    ensures k.None? <==> forall m | m in images :: m.used
  {
    if images == [] then None
    else if !images[0].used then Some(0)
    else
      match FirstUnusedImage(images[1..])
      case None =>
        assert forall m | m in images :: m == images[0] || m in images[1..];
        None
      case Some(k) => Some(k + 1)
  }

  /** The index of the row whose round number is `round`. */
  function FindRound(rounds: seq<GameState>, round: int): (k: Option<nat>)
    ensures k.Some? ==> k.value < |rounds| && rounds[k.value].currentRound == round
    ensures k.Some? ==> forall j | 0 <= j < k.value :: rounds[j].currentRound != round
    ensures k.None? <==> forall r | r in rounds :: r.currentRound != round
  {
    if rounds == [] then None
    else if rounds[0].currentRound == round then Some(0)
    else
      match FindRound(rounds[1..], round)
      case None =>
        assert forall r | r in rounds :: r == rounds[0] || r in rounds[1..];
        None
      case Some(k) => Some(k + 1)
  }

  /** Rows are stored in strictly increasing round order. */
  predicate RoundsIncreasing(rounds: seq<GameState>)
  {
    forall i, j | 0 <= i < j < |rounds| :: rounds[i].currentRound < rounds[j].currentRound
  }

  /** Row ids are keys of the `connections` table. */
  predicate DistinctIds(es: seq<Edge>)
  {
    forall i, j | 0 <= i < j < |es| :: es[i].id != es[j].id
  }

  /** The whole store as one value. */
  datatype Db = Db(
    rounds: seq<GameState>,
    edges: seq<Edge>,
    users: seq<User>,
    images: seq<Image>,
    accuracies: seq<RoundAccuracy>,
    nextEdgeId: int)

  /** Key and ordering facts the store keeps. */
  predicate Wf(db: Db)
  {
    && RoundsIncreasing(db.rounds)
    && (forall r | r in db.rounds :: DistinctUsers(r.group1Predictions) && DistinctUsers(r.group2Predictions))
    && DistinctIds(db.edges)
    && (forall e | e in db.edges :: e.id < db.nextEdgeId)
    && (forall i, j | 0 <= i < j < |db.users| :: db.users[i].id != db.users[j].id)
    && (forall i, j | 0 <= i < j < |db.images| :: db.images[i].id != db.images[j].id)
  }

  /** With rows in increasing order, the row `order by current_round desc limit 1` reads is the last one. */
  lemma {:induction false} LatestIsLast(rounds: seq<GameState>, k: nat)
    requires RoundsIncreasing(rounds) && k < |rounds|
    ensures k < |rounds| - 1 ==> rounds[k].currentRound < rounds[|rounds| - 1].currentRound
    ensures FindRound(rounds, rounds[|rounds| - 1].currentRound) == Some(|rounds| - 1)
  {
    var n := |rounds| - 1;
    assert rounds[n] in rounds;
    var j := FindRound(rounds, rounds[n].currentRound).value;
    assert rounds[j].currentRound == rounds[n].currentRound;
  }

  /**
   * The store: the tables as fields that the round engine and the topology
   * reconciler read and overwrite.
   */
  class Store {
    var rounds: seq<GameState>
    var edges: seq<Edge>
    var users: seq<User>
    var images: seq<Image>
    var accuracies: seq<RoundAccuracy>
    var nextEdgeId: int

    function State(): Db
      reads this
    {
      Db(rounds, edges, users, images, accuracies, nextEdgeId)
    }

    ghost predicate Valid()
      reads this
    {
      Wf(State())
    }

    constructor (db: Db)
      requires Wf(db)
      ensures Valid() && State() == db
    {
      rounds, edges, users, images, accuracies, nextEdgeId :=
        db.rounds, db.edges, db.users, db.images, db.accuracies, db.nextEdgeId;
    }
  }
}
