# A verified model of the prediction-network game core

The game runs a three-layer "network" of people and bots: Group 1 members
predict, Group 2 members predict, and a final node decides by a weighted
vote of the Group 2 predictions over the connections into it. After each
round the connection weights are adjusted by a two-layer delta rule. A
separate reconciler keeps the connection graph well formed as members join,
leave or change group.

This project models two source files:

- `gameLoop.js`, the round engine. One tick reads the latest `game_state`
  row and acts on it. It prompts idle bots, marks Group 1 complete, makes the
  final prediction, records the round's accuracy, applies the weight update,
  and then opens the next round or ends the game.
- `neuralNetworkConnections.js`, the topology reconciler. It checks the base
  conditions, repairs the stored connections or regenerates them, and writes
  the difference back as one insert and one delete.

Modules:

- `Wrappers`: `Option`.
- `Store`: the entities and the store.
  - Rows of `game_state`, users, connections, images and `round_accuracies`
    are datatypes.
  - The store is a class with one field per table.
  - `Store.Wf` is the store invariant: rows in increasing round order,
    distinct voters in each list, distinct edge, user and image ids, and edge
    ids below the next free id.
  - Each table query the core makes is a function (`FindRound`, `Members`,
    `Bots`, `FinalNodeId`, `ImageAnswer`, `FirstUnusedImage`).
- `Topology`: the check, the four repair passes and the regeneration, each as
  a method over a `seq<Link>`, with the lemmas that connect them.
- `Reconciler`: the insert/delete diff and one whole reconciliation run on
  the store.
- `Learning`:
  - the weighted sum and its threshold;
  - the weight update as a list of `(id, weight)` writes applied in order;
  - the delta rules those writes realise.
- `GameLoop`: every step of the round engine.
  - Each step is a specification function from one store value to the next,
    and a method on the `Store` class proved to produce exactly that value.
  - The lemmas state what the steps do to the rows, votes, flags, weights
    and accuracy record.

`Math.random` is a parameter `random: nat -> real`; the k-th draw is
`random(k)`. Weights are `real`. The sigmoid threshold at `gameLoop.js:102-105`
is `sum >= 0` (`Learning.Decide`).

## Model

| member | source | states |
|---|---|---|
| Store.WithPredictions | gameLoop.js:336-344 | replacing one group's list leaves the other list, the round number and the started flag as they were |
| Store.Members | gameLoop.js:39-42 | an id is listed exactly when some user with that id is in the group |
| Store.Bots | gameLoop.js:286-290 | an id is listed exactly when some bot user with that id is in the group |
| Store.FinalNodeId | gameLoop.js:91 | a final node is found exactly when group -2 has one member, and it is that member |
| Store.ImageAnswer | gameLoop.js:107-111 | an answer is found exactly when the round has an image id naming a stored image, and it is that image's label |
| Store.FirstUnusedImage | gameLoop.js:368-373 | the first image not yet used; none exactly when every image is used |
| Store.FindRound | gameLoop.js:325-329 | the first row with that round number; none exactly when no row has it |
| Store.LatestIsLast | gameLoop.js:16-21 | with rows in increasing round order, the row with the highest round number is the last row |
| Topology.AllLinkedToFinal | neuralNetworkConnections.js:86-88 | true exactly when every Group 2 member has a connection to the final node |
| Topology.AllHaveDegree | neuralNetworkConnections.js:91-93 | true exactly when every Group 1 member has exactly k outgoing connections |
| Topology.AllCovered | neuralNetworkConnections.js:96-98 | true exactly when every Group 2 member has an incoming connection from some Group 1 member |
| Topology.CheckBaseConditions | neuralNetworkConnections.js:84-101 | true exactly when all three base conditions hold, with 2 outgoing connections per Group 1 member |
| Topology.KeepAdmissibleMembers | neuralNetworkConnections.js:107-117 | a connection survives exactly when it was stored and its source is in Group 1, Group 2 or the final node and its target in Group 2 or the final node |
| Topology.KeepAdmissibleAll | neuralNetworkConnections.js:107-117 | when no stored connection is invalid, the filter returns the list unchanged |
| Topology.RemoveInvalidConnections | neuralNetworkConnections.js:106-117 | returns the stored list without the invalid connections, order and weights kept |
| Topology.ConnectGroup2ToFinal | neuralNetworkConnections.js:119-131 | the pass walks Group 2 in order and appends, for each member still lacking one, exactly one weight-0.5 connection to the final node (the result is `FinalLinked`) |
| Topology.FinalLinkedFacts | neuralNetworkConnections.js:119-131 | the pass keeps the list in front, appends no duplicate pair, leaves every Group 2 member connected to the final node, and adds nothing when none lacks a connection |
| Topology.Unlinked | neuralNetworkConnections.js:139-143 | the Group 2 members, in order, that the Group 1 member is not yet connected to |
| Topology.TopUpMember | neuralNetworkConnections.js:135-151 | the member's new connections are exactly weight-0.5 connections to the first min(2 - k, free) Group 2 members it is not linked to, in Group 2 order (`TopUpLinks`); a member with k >= 2 gains none |
| Topology.TopUpLinksFacts | neuralNetworkConnections.js:135-151 | the appended connections go only to unlinked Group 2 members, add no duplicate pair, and bring the out-degree to min(2, k + free) when k < 2 |
| Topology.TopUpGroup1 | neuralNetworkConnections.js:133-155 | the pass tops up the Group 1 members one after another, each from the list the earlier ones left (the result is `TopUp`) |
| Topology.TopUpFacts | neuralNetworkConnections.js:133-155 | the top-up appends only Group 1 to Group 2 connections of weight 0.5 with no duplicate pair; each member's out-degree is as its own top-up gives it; nothing changes when every member has 2 or more |
| Topology.FirstWithRoom | neuralNetworkConnections.js:163-165 | a Group 1 member with fewer than 2 outgoing connections; none exactly when every member is full |
| Topology.CoverMember | neuralNetworkConnections.js:158-174 | an uncovered Group 2 member gets one weight-0.5 connection from the first Group 1 member, in Group 1 order, with fewer than two connections (`FirstWithRoom`); a covered member, or one with no such source, changes nothing |
| Topology.CoverGroup2 | neuralNetworkConnections.js:156-175 | the pass covers the Group 2 members in order, each from the list the earlier ones left (the result is `Cover`) |
| Topology.CoverFacts | neuralNetworkConnections.js:156-175 | after the pass every Group 2 member is covered unless Group 1 is full; each added connection goes to a member that was uncovered; no out-degree goes past max(2, its old value); nothing changes when all are covered or Group 1 is full |
| Topology.UpdateExistingConnections | neuralNetworkConnections.js:103-178 | the repair returns exactly `Repaired`, the four passes in order; it keeps the valid stored connections as a prefix and appends only weight-0.5 admissible connections with no duplicate pair; every Group 2 member reaches the final node; out-degrees are bounded by max(2, old) and at least the top-up's; a stored list that meets the base conditions and has no invalid connection comes back unchanged |
| Topology.RepairedFacts | neuralNetworkConnections.js:103-178 | the guarantees of the four passes, composed: valid prefix kept, only fresh admissible weight-0.5 connections appended, final node reached, degrees bounded and topped up, Group 2 covered unless Group 1 is full |
| Topology.RepairedUnchanged | neuralNetworkConnections.js:103-178 | a stored list that meets the base conditions and has no invalid connection is repaired to itself |
| Topology.RepairLinks | neuralNetworkConnections.js:103-177 | the three appending passes together keep the valid prefix, add only admissible weight-0.5 connections without duplicates, and leave every Group 2 member connected to the final node |
| Topology.RepairDegrees | neuralNetworkConnections.js:133-175 | across the passes each Group 1 member's out-degree stays within max(2, old) and at least the top-up value |
| Topology.PickIndex | neuralNetworkConnections.js:197 | the index `floor(u * n)` for a draw in [0, 1) is a valid index |
| Topology.RemoveAtFacts | neuralNetworkConnections.js:198 | splicing one element out of a list of distinct ids leaves the others, distinct, without it |
| Topology.Picks | neuralNetworkConnections.js:194-205 | the random draws pick min(count, available) Group 2 members, one per draw |
| Topology.PicksFacts | neuralNetworkConnections.js:194-205 | every pick is an available member, and from distinct candidates the picks are distinct |
| Topology.ConnectMember | neuralNetworkConnections.js:194-205 | one Group 1 member's random fan-out, consuming one draw per pick |
| Topology.LinkAllToFinal | neuralNetworkConnections.js:184-190 | one weight-0.5 connection to the final node per Group 2 member, in order |
| Topology.ConnectGroup1Randomly | neuralNetworkConnections.js:193-206 | appends the random fan-out of every Group 1 member in order |
| Topology.Group1LinksSnoc | neuralNetworkConnections.js:193-206 | the fan-out of one more member is appended after the fan-outs before it |
| Topology.Group1LinksShape | neuralNetworkConnections.js:193-206 | the fan-outs hold min(2, size of Group 2) weight-0.5 Group 1 to Group 2 connections per member, with no duplicate pair |
| Topology.Group1LinksDegrees | neuralNetworkConnections.js:193-206 | each Group 1 member gets exactly min(2, size of Group 2) outgoing connections |
| Topology.RegeneratedNoDuplicates | neuralNetworkConnections.js:183-206 | the final-node connections followed by the fan-outs contain no duplicate pair |
| Topology.RegeneratedCovered | neuralNetworkConnections.js:208-222 | after regeneration either every Group 2 member is covered or Group 1 is full, so the closing cover pass adds nothing |
| Topology.RegeneratedShape | neuralNetworkConnections.js:180-225 | regeneration yields one final-node connection per Group 2 member, then min(2, size of Group 2) distinct targets per Group 1 member, all of weight 0.5 and without duplicates |
| Topology.CreateAllConnections | neuralNetworkConnections.js:180-225 | the method, including its closing cover pass, returns exactly the regenerated list |
| Reconciler.Diff | neuralNetworkConnections.js:38-57 | computes the insert list and the delete list |
| Reconciler.InsertsMembers | neuralNetworkConnections.js:38-49 | a computed connection is inserted exactly when its pair is not stored |
| Reconciler.DeletesMembers | neuralNetworkConnections.js:52-57 | a stored connection is deleted exactly when its pair is not in the computed list |
| Reconciler.InsertsNone | neuralNetworkConnections.js:38-49 | when every computed pair is stored, nothing is inserted |
| Reconciler.DeletesNone | neuralNetworkConnections.js:52-57 | when every stored pair is computed, nothing is deleted |
| Reconciler.DiffOfStoredIsEmpty | neuralNetworkConnections.js:38-57 | diffing the stored connections against themselves inserts and deletes nothing |
| Reconciler.WithoutIdsMembers | neuralNetworkConnections.js:68-72 | deleting by id removes exactly the rows with those ids |
| Reconciler.DeletedIds | neuralNetworkConnections.js:52-72 | a stored row's id is deleted exactly when its pair is not computed, and no inserted row takes a deleted id |
| Reconciler.ReconciledRows | neuralNetworkConnections.js:59-75 | after the writes a row is present exactly when it was stored with a computed pair, or it is a newly inserted row |
| Reconciler.ReconciledIds | neuralNetworkConnections.js:59-75 | after the writes the ids are distinct and below the advanced next id |
| Reconciler.ReconciledPairs | neuralNetworkConnections.js:38-75 | after the writes a pair is stored exactly when it is in the computed list; surviving pairs keep their stored row and weight |
| Reconciler.ReconcileOfStored | neuralNetworkConnections.js:38-75 | reconciling the stored connections with themselves leaves the table as it was |
| Reconciler.StoreGroups | neuralNetworkConnections.js:13-15 | Group 1, Group 2 and the final node read from the user table are distinct and disjoint |
| Reconciler.ComputeConnections | neuralNetworkConnections.js:25-35 | the computed list holds only admissible connections and reaches the final node from every Group 2 member; it is the regeneration when the base conditions fail; when they hold it is the repair, keeping the valid stored connections in front with their weights, appending weight-0.5 connections with no duplicate pair, with degrees bounded and topped up and Group 2 covered unless Group 1 is full; it is the stored list when nothing is invalid |
| Reconciler.UpdateConnections | neuralNetworkConnections.js:7-82 | one run writes the reconciled connections and changes no other table; it changes nothing without a final node; when the base conditions hold, every stored row with an admissible pair survives with its id and weight; it changes nothing at all when the stored connections already meet the base conditions and none is invalid |
| Reconciler.AdmissibleRowsSurvive | neuralNetworkConnections.js:37-75 | when the computed list starts with the admissible stored connections, the insert and the delete leave every stored row with an admissible pair in place, id and weight included |
| Reconciler.ReconciledWf | neuralNetworkConnections.js:59-75 | the writes keep the store invariant |
| Learning.FindPair | gameLoop.js:207 | the first connection with that source and target; none exactly when there is none |
| Learning.ComputeWeightedSum | gameLoop.js:93-99 | the loop's sum is the weighted sum over the Group 2 predictions that have a connection into the final node |
| Learning.UnanimousSum | gameLoop.js:93-99 | with non-negative weights into the final node, a unanimous vote v gives a sum of v's sign, strictly so when some voter has a positive weight |
| Learning.UnanimousDecision | gameLoop.js:93-105 | with non-negative weights, a unanimous 1 is decided 1, and a unanimous -1 with some positive weight is decided -1 |
| Learning.LastWrite | gameLoop.js:214-217 | the weight last written to an id; none exactly when it is never written |
| Learning.ApplyWritesEffect | gameLoop.js:214-217 | applying per-id writes in order gives each connection its last written weight and leaves the rest as they were |
| Learning.OutputWriteSource | gameLoop.js:206-226 | each output-layer write comes from a Group 2 prediction and its connection into the final node |
| Learning.OutputWriteFor | gameLoop.js:206-226 | each Group 2 prediction with a connection into the final node produces its write |
| Learning.Group2ErrorsValues | gameLoop.js:228-237 | a Group 2 member has an error entry exactly when it predicted and has a final-node connection; the entry is err times that connection's weight before the update |
| Learning.HiddenWriteSource | gameLoop.js:241-264 | each hidden-layer write comes from a Group 1 prediction, a Group 2 prediction and the connection between them |
| Learning.HiddenWriteFor | gameLoop.js:241-264 | each such connection produces its write |
| Learning.ZeroErrorKeepsWeights | gameLoop.js:198-264 | with zero output error the update writes every weight back unchanged |
| Learning.OutputDeltaRule | gameLoop.js:206-226 | each Group 2 to final connection moves to w + 0.05 * err * prediction |
| Learning.HiddenDeltaRule | gameLoop.js:241-264 | each Group 1 to Group 2 connection moves to w + 0.05 * (err * w2) * prediction, with w2 the Group 2 member's final-node weight before the update |
| Learning.UntouchedConnections | gameLoop.js:198-264 | the update keeps every connection's id and endpoints, keeps every connection with no predicting endpoints unchanged, and keeps unchanged every row that repeats the pair of an earlier row, since each lookup by pair stops at the first |
| Learning.ShadowedAt | gameLoop.js:198-264 | a row that is not the first row of its pair receives no write |
| GameLoop.MarkGiven | gameLoop.js:346-349 | only the named user's input flag is set; the roster is unchanged |
| GameLoop.MarkGroupGiven | gameLoop.js:115-120 | the input flag is set for every member of the group and nothing else changes |
| GameLoop.ResetInputs | gameLoop.js:402-405 | every input flag is cleared except in group 100; the roster is unchanged |
| GameLoop.SubmitEffect | gameLoop.js:320-349 | a bot already in the list changes nothing; otherwise one entry (bot, vote) is appended to that round's list and the bot is marked; the other list, the completion and game-over flags, the other rows and the accuracies are kept |
| GameLoop.SubmitOnce | gameLoop.js:333-334 | a second submission by the same bot for the same round and group changes nothing |
| GameLoop.SubmitWf | gameLoop.js:320-349 | a submission keeps the store invariant, in particular distinct voters per list |
| GameLoop.SubmitBotPrediction | gameLoop.js:320-355 | the method's new store is the submission's |
| GameLoop.Absent | gameLoop.js:294-299 | a bot is listed exactly when it has no entry in the snapshot's list |
| GameLoop.SubmitEachKeeps | gameLoop.js:294-299 | a run of submissions touches only that round's list for that group and the input flags; the round number, image, started and game-over flags, completion flags and the other rows are kept |
| GameLoop.SubmitEachAppends | gameLoop.js:294-299 | submissions by distinct missing bots append exactly one entry each, in order, after the entries already there |
| GameLoop.HandleBotsEachOnce | gameLoop.js:284-318 | prompting the bots gives each bot missing from the snapshot's list exactly one entry, in table order, and afterwards every bot of the group has an entry |
| GameLoop.VotesCover | gameLoop.js:294-299 | appending one vote per missing bot leaves no bot without one |
| GameLoop.HandleGroupBots | gameLoop.js:284-318 | the method's loop produces exactly the prompting's store |
| GameLoop.CompleteGroup1Effect | gameLoop.js:46-51 | only that round's Group 1 flag is set; lists, users and accuracies are kept |
| GameLoop.MarkGroup1Complete | gameLoop.js:46-51 | the method's new store is the flag update's |
| GameLoop.FinalPredictionEffect | gameLoop.js:74-135 | when it applies, the decision is 1 exactly when the weighted Group 2 sum is >= 0 and -1 otherwise; the round is complete with weights pending and the final node marked; nothing else changes; otherwise nothing changes at all |
| GameLoop.FinalPredictionOnce | gameLoop.js:84-86 | a second final prediction for the same round changes nothing |
| GameLoop.MakeFinalNodeBotPrediction | gameLoop.js:74-135 | the method's new store is the final prediction's |
| GameLoop.FinishAndRecord | gameLoop.js:467-492 | after the final prediction one accuracy entry is appended, 1 exactly when the decision equals the image's label; a label other than 1 and -1 always scores 0 |
| GameLoop.StoreRoundAccuracy | gameLoop.js:467-492 | the method's new store is the accuracy record's |
| GameLoop.WeightUpdateOnce | gameLoop.js:154-270 | the update runs only when the round is complete and not yet updated, and marks it updated, so a second call changes nothing |
| GameLoop.WeightUpdateWf | gameLoop.js:198-270 | the update keeps the store invariant |
| GameLoop.BackpropagatedIds | gameLoop.js:214-217 | the per-id writes keep connection ids distinct and below the next id |
| GameLoop.CorrectRoundKeepsWeights | gameLoop.js:198-264 | a round decided correctly leaves every weight as it was |
| GameLoop.WeightUpdateRules | gameLoop.js:198-264 | on the store: Group 2 to final connections move by 0.05 * err * prediction; Group 1 to Group 2 connections move by 0.05 * (err * w2) * prediction with w2 read before the update; every other connection, and every row repeating an earlier row's pair, is unchanged |
| GameLoop.WriteOutputLayer | gameLoop.js:204-226 | the loop's table is the output writes applied to the fetched connections |
| GameLoop.ComputeGroup2Errors | gameLoop.js:228-237 | the loop's map is the Group 2 error map |
| GameLoop.WriteHiddenRow | gameLoop.js:242-263 | the inner loop appends one Group 1 member's writes and applies them |
| GameLoop.WriteHiddenLayer | gameLoop.js:239-264 | the nested loops append all hidden-layer writes and apply them |
| GameLoop.BackpropagateWeightsForRound | gameLoop.js:137-281 | the method's new store is the weight update's |
| GameLoop.EndRound | gameLoop.js:634 | the terminal round number is at least 100 and above every existing round |
| GameLoop.GameEnds | gameLoop.js:627-658 | ending the game appends a terminal row, over and not started, that is the latest row; the earlier rows and the other tables are kept; the invariant holds |
| GameLoop.EndedAsWrittenHidesEnd | gameLoop.js:631-647 | for any store whose last round is numbered 100 or more, the row the source appends (round 100) leaves the rows out of order, and no row is numbered above the last round played, which keeps its flags; above 100 that round stays the only latest row, at exactly 100 the terminal row ties it; the corrected end appends a row above every round |
| GameLoop.EndGame | gameLoop.js:627-658 | the method appends the terminal row and keeps the invariant |
| GameLoop.MarkUsed | gameLoop.js:380-383 | only the chosen image is marked used; ids and labels are kept |
| GameLoop.MarkUsedCount | gameLoop.js:380-383 | marking an unused image lowers the unused count by one |
| GameLoop.NewRoundEffect | gameLoop.js:357-412 | with an unused image left, a row for round prev + 1 with that image, empty lists and cleared flags is appended; the unused count drops by one; input flags outside group 100 are cleared; connections and accuracies are kept |
| GameLoop.NoImageEndsGame | gameLoop.js:375-378 | with every image used, a new round ends the game instead |
| GameLoop.NewRoundWf | gameLoop.js:357-412 | starting a round keeps the invariant |
| GameLoop.StartNewRound | gameLoop.js:357-412 | the method's new store is the new round's |
| GameLoop.GameLoopTick | gameLoop.js:11-72 | one tick's new store is `Tick` of the old one: no rows or not started, nothing; complete and not updated, the weight update; complete and updated, a new round; open, the bot phases and then the final prediction and accuracy |
| GameLoop.PromptBots | gameLoop.js:36-54 | the bot part of a tick, as the method runs it |
| GameLoop.FinishRound | gameLoop.js:63-67 | the closing part of a tick, as the method runs it |
| GameLoop.HandleBotsPrompted | gameLoop.js:284-318 | prompting the latest row appends the missing bots' votes and keeps every other field of it |
| GameLoop.Group1PhaseEffect | gameLoop.js:36-51 | with Group 1 open, the Group 1 bots vote, Group 2 is untouched, and Group 1 is marked complete exactly when the snapshot's list was as long as Group 1 |
| GameLoop.Group2PhaseEffect | gameLoop.js:53-54 | with Group 1 complete, only the Group 2 bots vote |
| GameLoop.FinishPhaseEffect | gameLoop.js:63-67 | the closing phase acts only when the snapshot's Group 2 list is as long as Group 2 and the round is open; then it decides the round on the weighted vote and appends its accuracy |
| GameLoop.GameOverIsFinal | gameLoop.js:24 | after the game has ended, a tick changes nothing |
| GameLoop.RoundLifecycle | gameLoop.js:26-34 | a completed round takes one tick for the weight update, which marks its row, and the next tick starts a new round |
| GameLoop.TickPromptsGroup1 | gameLoop.js:36-51 | a tick in the Group 1 phase gives each missing Group 1 bot one vote, leaves the Group 2 list alone, and sets the Group 1 flag exactly when the snapshot's list was as long as Group 1 |
| GameLoop.TickPromptsGroup2 | gameLoop.js:53-54 | a tick after Group 1 is complete gives each missing Group 2 bot one vote and leaves the Group 1 list alone |
| GameLoop.TickFinalNeedsGroup2 | gameLoop.js:63-67 | while the snapshot's Group 2 list is shorter or longer than Group 2, a tick neither decides the round nor records an accuracy |
| GameLoop.TickDecides | gameLoop.js:63-67 | when the snapshot's Group 2 list is as long as Group 2, a tick decides the open round on the weighted vote of its Group 2 list, completes it with weights pending and appends its accuracy, whatever the Group 1 flag |
| GameLoop.FinalAppliesKept | gameLoop.js:84-111 | whether the final prediction applies depends only on the row's decision and image, the images and the final node |

## Left out

- Store I/O, the Supabase client, HTTP controllers, routes and browser scripts. The store is a class with one field per table, and each query is a function over it.
- The timers (`setInterval` in `gameLoop.js:414-465` and `neuralNetworkConnections.js:228-234`) and `checkGameStart`. Each tick or reconciliation run is one sequential method call.
- Concurrency between ticks, the reconciler and client submissions. The source reads and then writes without atomicity, and interleavings are not modelled.
- Store errors and thrown exceptions. A failing `.single()`, a missing image or a missing final node becomes a no-op path, as the source's catch blocks make it.
- Accuracy plotting (`gameLoop.js:494-625`) and console logging.
- IEEE-754 arithmetic. Weights are reals, and the sigmoid is replaced by its threshold `sum >= 0`. In floating point a tiny negative sum can round the sigmoid to exactly 0.5, which the source then decides as 1.
- Table order. Query results are taken in the order of the modelled sequences. The source's `limit(1)` on unused images and its `find` calls depend on database order.
- `game_over` has no default in the inserted rows of `gameLoop.js:385-400`. It is modelled as false.
- GameLoop.BackpropDefined: the weight update requires that every Group 2 predictor reached by a Group 1 connection has a connection into the final node. Otherwise the source writes `NaN` weights, which reals cannot represent.
- GameLoop.WriteOutputLayer and the other weight-write loops compute a connections table value and return its writes. They do not issue one store update per write. The store method applies the resulting table at once.
- GameLoop.EndGame: the source inserts round 100 unconditionally and never inspects the insert's result. Whether a second round 100 row is stored or rejected depends on a table schema that is not part of this model. The model appends the corrected terminal row (see Findings) instead.
- Labels are `int`. Uploaded labels are 0 or 1 while predictions are -1 or 1, so a label of 0 never scores. `GameLoop.FinishAndRecord` states this.
- The random draws in `Topology.Picks` are taken to lie in [0, 1), as `Math.random` promises.

## Findings

| source | as written | input that shows it | evidently intended | confidence | as-written member | corrected member |
|---|---|---|---|---|---|---|
| gameLoop.js:627-658 | `endGame` always inserts the terminal row with round number 100, then calls `stopGameLoop` (line 647). The tick and `checkGameStart` (gameLoop.js:430-450) both read the row with the highest round number. | A game whose last round is numbered 150 (more than 99 images). The terminal row becomes row 100, and the latest row stays round 150, started and not over. `checkGameStart` sees it started and restarts the loop. The tick finds round 150 complete and calls `startNewRound`, which finds no image and calls `endGame` again. The game never ends, and every cycle adds another round 100 row or has its insert rejected, depending on the table schema. | The terminal row gets a round number above every existing round, for example max(100, last + 1). It is then the latest row, the game is over and not started, and the loop stays stopped. | not executed | GameLoop.EndedAsWrittenHidesEnd | GameLoop.GameEnds |
