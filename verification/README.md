# Object-centric process mining, verified

A Dafny model of the algorithmic core of an object-centric process-mining engine, with proofs of what that core
promises. `dafny verify dfyconfig.toml` checks all of it.

**Conformance checking.** `AlignmentSearch.AlignDfg` aligns a trace with a directly-follows model by a Dijkstra
search with stale heap entries, zero-weight moves, several starts and ends, and a bound of its own on expansions.
`AlignmentOutcome.Outcome` says what such a search has to return without a heap, a distance map or an order of
exploration, and determines it uniquely. `AlignmentTheorems` translates that into edit distance to the runs of the
model, `AlignmentExactness` settles when the two are the same, and `AlignmentTruncation` when the search gives up.
`TokenReplay.ReplayTrace` replays a trace on a Petri net, adding tokens where they are missing; `ReplaySpec` specifies it
place by place and proves that what it adds is the least top-up of the initial marking, and `ReplayMeaning` says what the
counters mean for the token game.

**Binding capsules.** `CapsuleDecoder` is the cursor-based decoder of the binary format, proved equal to the parsing
functions of `CapsuleParser`. Those take a flag for the early size guards: the guards are shown to change no result,
accepted capsules are prefix-free, and decoding is the inverse of the encoder of `CapsuleEncoder`; `CapsuleCanonical`
says which accepted capsules are encodings, and `CapsuleMeaning` and `CapsuleText` what their bytes stand for.
`CapsuleRows` has the two lazy iterators over a decoded capsule.

**Event summaries.** `EventSummary` aggregates a stream of event rows in one pass. `EventLog` shows that the accepted
streams are exactly the flattened logs; `EventCounts` and `EventBalances` prove the balances between what is counted.
`EventMeaning` says of the rows and events one by one which streams are accepted and what is counted. `WindowMerge`
and `WindowFallback` align counts over many windows, from chunks of 256 or from summaries, with one result.

**Filters and coverage.** `DynamicQuery` compiles a filter to a plan of common table expressions, with three-valued
logic; `DynamicQueryMeaning` and `DynamicQueryAnswer` prove that the plan selects what the filter asks. `Coverage` has
the greedy coverage model and the exchange argument for its optimality.

## Where the code and its description part

* The alignment cost is described as distance to the model, but the start entry at index 0 is free. The cost is the
  least `RunCost`, which is within one of the edit distance to the nearest run. It is one less for the empty trace,
  always (`EmptyTraceIsUndercharged`), and one more for some traces whose start comes late (`LateStartIsOvercharged`).
  Over the models with given start activities it is the edit distance exactly for the traces that begin with the one and
  only start activity (`CostIsDistanceIff`). A cost of zero means that the trace fits exactly when the trace does not
  merely lack its start (`ZeroCostMeansFittingIff`).
* "The state bound was exceeded" is no mere safeguard. Some trace is truncated exactly when the model's edges reach more
  activities than it lists (`TruncatesSomeTraceIff`), although it may have an accepting run
  (`UnlistedActivitiesTruncate`). Leaving out activities does no harm as long as their number suffices.
* The token subtraction of the replay is safe for all initial tokens and all traces exactly when no place has two arcs
  that both take tokens to one transition that is the first with its label (`SafeForAllTokensIff`); `TwoArcsAreUnsafe` is
  a net on which it is not, and `SilentArcsAreSafe` one where such arcs lead to a transition that no event fires.
* A case-time condition with one missing bound is not the half-open interval (`RangeIsIntervalIff`); requests are
  refused for it before they are compiled. `BaseMeansCaseIff` is the exact condition for the whole base table.

## Model

| member | source | states |
|---|---|---|
| `AlignmentSearch.AlignDfg` | crates/ocpm-conformance/src/lib.rs:303-383 | The search returns the one outcome that the model and the trace determine: the least cost of any accepting walk with the number of states nearer than its end, truncation when the nearer states fill the bound, or the missing-boundary and no-alignment errors |
| `AlignmentSearch.Relax` | crates/ocpm-conformance/src/lib.rs:385-397 | A state is pushed and its distance set exactly when no distance as low is known |
| `AlignmentSearch.PopLeast` | crates/ocpm-conformance/src/lib.rs:343-343 | The heap gives up one occurrence of an entry that is least by cost, then index, then activity |
| `AlignmentGraph.BeforeIff` | crates/ocpm-conformance/src/lib.rs:326-326 | The heap order compares costs, then positions, then activities as texts, character by character |
| `AlignmentSearch.Adjacency` | crates/ocpm-conformance/src/lib.rs:310-320 | The adjacency lists name exactly the edge targets of each source, in order |
| `AlignmentSearch.RelaxKeeps` | crates/ocpm-conformance/src/lib.rs:385-397 | Relaxing along a walk behind all settled states keeps the search invariant and touches no settled state |
| `AlignmentSearch.Cut` | crates/ocpm-conformance/src/lib.rs:358-377 | Every walk ends in a settled state at a known cost, or some unsettled known state is no farther than its end |
| `AlignmentSearch.LiveEntryIsExact` | crates/ocpm-conformance/src/lib.rs:343-347 | A popped entry whose distance is live belongs to a state never settled before, and its cost is the least of all walks there, stale entries and zero-weight moves notwithstanding |
| `AlignmentSearch.LiveEntryIsNext` | crates/ocpm-conformance/src/lib.rs:343-347 | Settling the live entry keeps the settled states an initial segment of all reachable states in heap order |
| `AlignmentSearch.SettledAreNearest` | crates/ocpm-conformance/src/lib.rs:343-378 | The settled states are at every step the nearest ones |
| `AlignmentSearch.EmptyHeapMeansExhausted` | crates/ocpm-conformance/src/lib.rs:379-383 | An empty heap means that every reachable state is settled and none is accepting |
| `AlignmentOutcome.OutcomeIsUnique` | crates/ocpm-conformance/src/lib.rs:343-378 | Cost, number of expansions and error depend on the model and the trace alone, not on the order of starts, edges or pushes |
| `AlignmentTruncation.ExpandedAreNearest` | crates/ocpm-conformance/src/lib.rs:343-357 | The expansions are one for each state that the heap order does not put behind the goal, and no other accepting state is among them |
| `AlignmentTheorems.WalkAboveDistance` | crates/ocpm-conformance/src/lib.rs:358-377 | No walk costs less than the edit distance between the events it reads and the run it traces |
| `AlignmentTheorems.DistanceHasWalk` | crates/ocpm-conformance/src/lib.rs:358-377 | For every run and every prefix of the trace there is a walk that costs exactly their edit distance |
| `EditScripts.DistanceIsFewestEdits` | crates/ocpm-conformance/src/lib.rs:358-377 | The distance behind the cost is the least number of single insertions, deletions and replacements that lead from one sequence to the other |
| `AlignmentTheorems.AlignedIsLeastRunCost` | crates/ocpm-conformance/src/lib.rs:326-378 | The returned cost is the minimum over all accepting runs of the cheaper of skipping the start for free and pairing it with the first event; an error without alignment means that no run is accepting |
| `AlignmentTheorems.CostWithinOneOfDistance` | crates/ocpm-conformance/src/lib.rs:328-338 | The cost differs from the edit distance to the nearest run by at most one |
| `AlignmentTheorems.ZeroCostIff` | crates/ocpm-conformance/src/lib.rs:328-338 | The cost is zero exactly for accepting runs and for traces that become one behind a single start activity |
| `AlignmentTheorems.ZeroCostMeansFittingIff` | crates/ocpm-conformance/src/lib.rs:328-338 | Zero cost means an accepting run exactly when the trace does not merely lack its start |
| `AlignmentSearch.SettledAreStates` | crates/ocpm-conformance/src/lib.rs:340-354 | Only pairs of a trace position and a reachable activity are ever settled, each once, so the search ends |
| `AlignmentTruncation.OutcomeExists` | crates/ocpm-conformance/src/lib.rs:343-383 | Every model and trace have an outcome, which with `OutcomeIsUnique` makes it a function of the two |
| `AlignmentTruncation.BoundIs` | crates/ocpm-conformance/src/lib.rs:340-342 | Unless it saturates, the bound has room for each listed activity, or one, at every position of the trace, and one more |
| `AlignmentReach.ReachableIff` | crates/ocpm-conformance/src/lib.rs:358-377 | The reachable activities are the ends of edge sequences from a start activity |
| `AlignmentTruncation.TruncationNeedsMoreReachable` | crates/ocpm-conformance/src/lib.rs:340-354 | The bound is exceeded only if the edges reach more activities than the model lists |
| `AlignmentTruncation.LongForeignTraceTruncates` | crates/ocpm-conformance/src/lib.rs:340-354 | If they do, every long enough trace of activities that the model does not reach is truncated |
| `AlignmentTruncation.TruncatesSomeTraceIff` | crates/ocpm-conformance/src/lib.rs:340-354 | Some trace is truncated exactly when the edges reach more activities than the model lists |
| `AlignmentTruncation.AlignsExactlyWhenARunExists` | crates/ocpm-conformance/src/lib.rs:340-382 | On a model that lists as many activities as its edges reach, every trace is aligned exactly when some run is accepting, for at most the longer of the trace and the steps of any accepting run |
| `AlignmentTruncation.AlignsEveryTraceIff` | crates/ocpm-conformance/src/lib.rs:304-382 | All traces are aligned exactly when some run is accepting and the edges reach no more activities than the model lists |
| `AlignmentTruncation.ListedModelAlignsIff` | crates/ocpm-conformance/src/lib.rs:340-382 | On a model that lists every activity its edges reach, all traces are aligned exactly when some run is accepting, however large the model |
| `AlignmentExactness.CostIsDistanceIff` | crates/ocpm-conformance/src/lib.rs:328-338 | For any set of start activities: over all models with these starts, the cost is the edit distance to the nearest run exactly for the traces that begin with the one and only start activity |
| `AlignmentExactness.EmptyTraceIsUndercharged` | crates/ocpm-conformance/src/lib.rs:328-338 | On every model the empty trace costs one less than its edit distance |
| `AlignmentExactness.EveryTraceCanDiffer` | crates/ocpm-conformance/src/lib.rs:328-338 | For every trace there is a model on which the cost is not the edit distance to the nearest run |
| `AlignmentExactness.LateStartIsOvercharged` | crates/ocpm-conformance/src/lib.rs:328-338 | A trace and a model where the cost is three and the edit distance two |
| `AlignmentTruncation.UnlistedActivitiesTruncate` | crates/ocpm-conformance/src/lib.rs:340-354 | A model with an accepting run but no listed activities, on which the search for the empty trace is truncated |
| `AlignmentReport.AlignLog` | crates/ocpm-conformance/src/lib.rs:263-301 | The moves are the sum of the costs of all traces, the synchronous moves the sum of their events less their costs as far as these go, the expansions the sum of the expansions, and the violations exactly the traces that cost; the first trace whose search fails ends the report with its error |
| `AlignmentReport.MovesAgainstEvents` | crates/ocpm-conformance/src/lib.rs:278-285 | Synchronous moves and moves are at least the events, and equal them exactly when no trace costs more than it is long |
| `AlignmentReport.MovesAddUpToEvents` | crates/ocpm-conformance/src/lib.rs:278-285 | If some accepting run has no more steps than the shortest trace has events, synchronous moves and costs add up to the events |
| `TokenReplay.ReplayTrace` | crates/ocpm-conformance/src/lib.rs:205-261 | On every net, parallel arcs and repeated place ids included, the token loop counts missing, consumed, produced, remaining and unmatched events as the place-by-place specification does, unless some firing takes more tokens than a place holds, and then it says so |
| `TokenReplay.FireOne` | crates/ocpm-conformance/src/lib.rs:226-254 | One event is safe exactly when every place covers its arcs after the top-up; it then leaves every place at its topped-up level less its need plus its gain, and counts the deficits, needs and gains of all places |
| `TokenReplay.TopUp` | crates/ocpm-conformance/src/lib.rs:229-238 | Each place is raised to the heaviest of its arcs, looked at one by one, and the tokens added are what is counted missing |
| `TokenReplay.Consume` | crates/ocpm-conformance/src/lib.rs:239-242 | The subtraction is safe exactly when every place holds what its arcs take together; it then loses that much, and the tokens taken are what is counted consumed |
| `TokenReplay.Produce` | crates/ocpm-conformance/src/lib.rs:243-254 | Every place gains its outgoing weights, parallel or not, and the tokens added are what is counted produced |
| `TokenReplay.Remaining` | crates/ocpm-conformance/src/lib.rs:256-259 | What remains is the sum, over all entries of the place list, of the distance to the tokens that the entry ends with |
| `TokenReplay.SafeNetReplaysAll` | crates/ocpm-conformance/src/lib.rs:229-242 | Where no place has two arcs that both take tokens to one transition that an event can fire, every trace is replayed |
| `ReplaySpec.SafeForAllTokensIff` | crates/ocpm-conformance/src/lib.rs:212-242 | The subtraction is safe for all initial tokens and all traces exactly on those nets |
| `ReplaySpec.SilentArcsAreSafe` | crates/ocpm-conformance/src/lib.rs:212-242 | A net with two such arcs into a transition without a label, which no event fires: it is among those nets |
| `ReplaySpec.TwoArcsAreUnsafe` | crates/ocpm-conformance/src/lib.rs:229-242 | A net with two such arcs on which the replay of a single event takes three tokens where two are |
| `ReplaySpec.LeastTopUp` | crates/ocpm-conformance/src/lib.rs:226-254 | The transitions can be fired at a place from its level plus some tokens exactly when these are at least what the replay injects there |
| `ReplaySpec.InjectionSuffices` | crates/ocpm-conformance/src/lib.rs:226-254 | With the injected tokens added at the outset the whole sequence fires under the standard rule and reaches the replay's final marking |
| `ReplaySpec.MissingIsLeast` | crates/ocpm-conformance/src/lib.rs:207-254 | From the tokens of the last entry for each place, no smaller total addition lets the sequence fire |
| `ReplaySpec.MissingSuffices` | crates/ocpm-conformance/src/lib.rs:207-254 | And an addition of that size does |
| `ReplaySpec.FiresPlaceByPlace` | crates/ocpm-conformance/src/lib.rs:226-254 | A sequence fires on the net exactly when it can be fired at each place on its own |
| `ReplaySpec.SpotlessIff` | crates/ocpm-conformance/src/lib.rs:207-260 | Unmatched, missing and remaining are all zero exactly when every event names a transition and the transitions fire from the initial to the final marking |
| `ReplayMeaning.FitsIff` | crates/ocpm-conformance/src/lib.rs:207-260 | The same said of the token game: the first transitions with the labels of the events find, take and put down the tokens of their arcs, from the initial tokens of the places to their final ones |
| `ReplayMeaning.FiredIsAdditive` | crates/ocpm-conformance/src/lib.rs:212-224 | Events fire their transitions one after the other, each the first with its label or none |
| `ReplayMeaning.ConsumedIs` | crates/ocpm-conformance/src/lib.rs:239-242 | Consumed are the weights of all arcs from the places to the transitions fired |
| `ReplayMeaning.ProducedIs` | crates/ocpm-conformance/src/lib.rs:243-254 | Produced are the weights of all arcs from the transitions fired to the places |
| `ReplayMeaning.ResidualIs` | crates/ocpm-conformance/src/lib.rs:256-259 | Remaining sums, over the entries of the place list, how far the tokens are from the final ones |
| `ReplayMeaning.LogMovesAre` | crates/ocpm-conformance/src/lib.rs:212-220 | Unmatched are the events whose activity labels no transition |
| `PetriNets.WeightIs` | crates/ocpm-conformance/src/lib.rs:226-254 | Arcs with the same ends add up |
| `PetriNets.StartsAt` | crates/ocpm-conformance/src/lib.rs:207-211 | The replay starts from the marking that holds, at every place, the initial tokens of the last entry for it |
| `ReplaySpec.PlaceBalance` | crates/ocpm-conformance/src/lib.rs:226-254 | At each place final level plus consumed equals initial level plus injected plus produced, and no more is injected than consumed |
| `ReplaySpec.ReplayBalance` | crates/ocpm-conformance/src/lib.rs:205-261 | The same balance over all places, with missing at most consumed and unmatched at most the events |
| `ReplayReport.ReplayLog` | crates/ocpm-conformance/src/lib.rs:131-165 | There is a report exactly when every trace is replayed safely; each total is the sum of that counter over the traces, conforming the sum of the matched events, deviations that of unmatched, missing and remaining, and the violations are exactly the traces with any of these |
| `ReplayReport.TotalsBounded` | crates/ocpm-conformance/src/lib.rs:151-165 | Over any log missing is at most consumed and unmatched at most the events, so both subtractions are safe |
| `CapsuleEncoder.RoundTrip` | crates/ocpm-core/src/binding.rs:617-666 | Decoding an encoded capsule gives back its schema, row count and all columns, labels, flags, values and pair groups |
| `CapsuleEncoder.DecodableIffWellFormed` | crates/ocpm-core/src/binding.rs:121-145 | The capsules that some bytes decode to are exactly the well-formed ones: the round trip leaves none out |
| `CapsuleEncoder.VarintRoundTrip` | crates/ocpm-core/src/binding.rs:575-592 | Every 64-bit value is read back from its encoding, whatever follows |
| `CapsuleCanonical.CanonicalIff` | crates/ocpm-core/src/binding.rs:617-666 | No accepted capsule is shorter than the encoding of what it decodes to, and it is that encoding exactly when none of its numbers of several bytes ends in zero and the bits behind its last flag are zero |
| `CapsuleCanonical.PackUnpackIff` | crates/ocpm-core/src/binding.rs:656-664 | Packing the unpacked flags gives the bytes back exactly when the bits behind the last flag are zero |
| `CapsuleEncoder.VarintCanonicalIff` | crates/ocpm-core/src/binding.rs:575-588 | The bytes that an accepted varint takes are its encoding exactly when they are a single byte or do not end in zero |
| `CapsuleEncoder.DeltasRoundTrip` | crates/ocpm-core/src/binding.rs:599-610 | Every column with 64-bit values and differences is read back from its zigzag differences |
| `CapsuleEncoder.PackRoundTrip` | crates/ocpm-core/src/binding.rs:656-664 | Flags packed eight to a byte are unpacked unchanged, for every length |
| `CapsuleMeaning.AcceptedIsDescribed` | crates/ocpm-core/src/binding.rs:121-145 | Accepted bytes begin with 79, 67, 80, 66, 1; the sixth is the code of the schema and fixes, for each of the eleven codes, the number of columns and whether labels, flags and values are there; the row count follows as a number |
| `CapsuleMeaning.DescribedIsAccepted` | crates/ocpm-core/src/binding.rs:121-145 | And everything so described, with parts that fit its row count, is accepted from an encoding that begins so |
| `CapsuleMeaning.VarintIff` | crates/ocpm-core/src/binding.rs:575-588 | A number is read exactly when at most ten bytes hold one of 64 bits, seven bits a byte and the lowest first, with the high bit on all but the last; and it is that number |
| `CapsuleMeaning.DeltasAre` | crates/ocpm-core/src/binding.rs:594-610 | Each number of a column is twice the difference to the identifier before it, or for negative ones its complement |
| `CapsuleMeaning.FlagsAre` | crates/ocpm-core/src/binding.rs:457-466 | The flag of row i is bit i modulo eight of byte i over eight |
| `CapsuleText.ValidUtf8Iff` | crates/ocpm-core/src/binding.rs:434-436 | Labels are accepted exactly when they encode a sequence of Unicode scalar values |
| `CapsuleFormat.ZigzagIsBijective` | crates/ocpm-core/src/binding.rs:594-597 | Zigzag and its inverse are inverse to each other between the signed and the unsigned 64-bit integers |
| `CapsuleLaws.MaterializedExact` | crates/ocpm-core/src/binding.rs:367-484 | The size guards change no accepted materialized body, nor which bodies are accepted |
| `CapsuleLaws.PairGroupTableExact` | crates/ocpm-core/src/binding.rs:486-532 | The size guards and overflow checks change no accepted pair-group table, nor which tables are accepted |
| `CapsuleLaws.GuardsAreExact` | crates/ocpm-core/src/binding.rs:385-408 | The guarded decoder accepts the same bytes with the same capsule as an unguarded one over unbounded integers |
| `CapsuleLaws.CapsuleStable` | crates/ocpm-core/src/binding.rs:121-139 | Appending bytes to a readable capsule changes nothing but the bytes left over, and does not help one that is refused for more than a lack of bytes |
| `CapsuleLaws.BeginningIsTruncated` | crates/ocpm-core/src/binding.rs:121-139 | Every proper beginning of an accepted capsule is refused as truncated |
| `CapsuleMeaning.RefusedHeader` | crates/ocpm-core/src/binding.rs:121-139 | A header is refused for the first thing wrong with it: length, magic, version with its number, or schema with its code |
| `CapsuleLaws.AcceptedIsPrefixFree` | crates/ocpm-core/src/binding.rs:121-139 | An accepted capsule followed by any bytes at all is refused for trailing bytes |
| `CapsuleLaws.AcceptedIsWellFormed` | crates/ocpm-core/src/binding.rs:121-145 | What is accepted has columns of the promised length, labels within the dictionary and groups that add up to the row count |
| `CapsuleDecoder.Cursor.TakeBytes` | crates/ocpm-core/src/binding.rs:555-562 | Takes exactly the bytes asked for off the front, or fails and leaves the cursor where it was |
| `CapsuleDecoder.Cursor.NextVarint` | crates/ocpm-core/src/binding.rs:575-588 | The shifting loop reads the value that the recursive definition gives, with the same overflow and truncation errors |
| `CapsuleDecoder.Cursor.NextIds` | crates/ocpm-core/src/binding.rs:599-610 | The loop reads the running sums of the differences, refusing those that leave 64 bits |
| `CapsuleDecoder.MinimumBytes` | crates/ocpm-core/src/binding.rs:385-407 | The checked arithmetic gives the least number of bytes the rows can take, or none when it does not fit |
| `CapsuleDecoder.DecodeMaterialized` | crates/ocpm-core/src/binding.rs:367-484 | The loops read columns, labels, flags and values as the parsing functions say, with the same errors and the same bytes left |
| `CapsuleDecoder.DecodePairGroups` | crates/ocpm-core/src/binding.rs:486-532 | The loops read sources, sizes, targets and events as the parsing functions say, with the same errors and the same bytes left |
| `CapsuleDecoder.DecodeCapsule` | crates/ocpm-core/src/binding.rs:121-145 | Decoding by cursor is the specified decoding, unless an allocation fails, and none does while as many elements can be allocated as the capsule has bytes: no row, group, entry, dictionary or label reservation asks for more |
| `CapsuleRows.RowCount` | crates/ocpm-core/src/binding.rs:500-518 | A well-formed capsule has exactly as many rows as it says |
| `CapsuleRows.MaterializedRowIs` | crates/ocpm-core/src/binding.rs:298-322 | Row i of a materialized capsule holds entry i of every column, in order, and flag, label and value i |
| `CapsuleRows.GroupRowIs` | crates/ocpm-core/src/binding.rs:323-357 | Behind the squares of the groups before it, row left times size plus right of a group holds its source, the targets of both entries and the events of both |
| `CapsuleRows.ExpandCount` | crates/ocpm-core/src/binding.rs:500-518 | The expanded groups from any position on have the sum of the squares of their sizes in rows |
| `CapsuleRows.RowsToComeStep` | crates/ocpm-core/src/binding.rs:323-357 | At every position the row under the iterator is the next of the row-major Cartesian squares, and stepping right, then left, then to the next group leaves exactly the rows behind it |
| `CapsuleRows.BindingRows.constructor` | crates/ocpm-core/src/binding.rs:159-168 | A new iterator has all rows of the capsule to come |
| `CapsuleRows.BindingRows.Next` | crates/ocpm-core/src/binding.rs:298-357 | Each call yields the first of the rows to come, or none when none are, within bounds |
| `CapsuleRows.BindingRows.NextPair` | crates/ocpm-core/src/binding.rs:323-357 | The same for factorized capsules |
| `CapsuleRows.BindingRows.SizeHint` | crates/ocpm-core/src/binding.rs:359-362 | The hint is exact at every step |
| `CapsuleRows.PairGroupIter.Next` | crates/ocpm-core/src/binding.rs:264-276 | Each call yields the first of the groups to come with its slices of targets and events |
| `CapsuleRows.PairGroupIter.SizeHint` | crates/ocpm-core/src/binding.rs:278-281 | The hint is exact at every step |
| `CapsuleRows.CollectRows` | crates/ocpm-core/src/binding.rs:298-362 | Draining the row iterator yields all rows of the capsule, as many as it says |
| `CapsuleRows.ExpandGroups` | crates/ocpm-core/src/binding.rs:261-282 | Expanding the slices of the group iterator yields the rows of the row iterator |
| `EventMeaning.AcceptedIff` | src/ocpm_engine/event_batches.py:146-224 | A stream is accepted exactly when its windows are among those asked for and in order, and every row is numbered one more than the row before if that is of the same case and window, and one otherwise |
| `EventMeaning.RefusedBecause` | src/ocpm_engine/event_batches.py:189-224 | The first row that does not continue the stream decides the error: out of order when its window is still to come, unexpected with its window otherwise |
| `EventLog.AcceptedIffFlattened` | src/ocpm_engine/event_batches.py:146-224 | A stream is read as a log exactly when it is that log flattened: windows in order, cases as maximal runs, ordinals from one, nothing left over |
| `EventLog.ReadLogBack` | src/ocpm_engine/event_batches.py:146-224 | Every well-formed log is read back from its rows |
| `EventLog.ReadLogSound` | src/ocpm_engine/event_batches.py:146-224 | What is read has the promised number of windows and flattens to the rows |
| `EventSummary.SummarizeRows` | src/ocpm_engine/event_batches.py:134-224 | The one-pass summary fails on the same streams with the same errors as reading the whole log first, and its totals are those of the windows' cases |
| `EventSummary.SummarizeWindow` | src/ocpm_engine/event_batches.py:149-219 | One window is consumed to its last row and summarized, late flush included |
| `EventMeaning.SummaryIs` | src/ocpm_engine/event_batches.py:160-219 | Every number of a summary is the sum over the cases, and where need be over their events, of what it counts: paths, steps and their times, cases visiting, occurrences, starts and ends |
| `EventSummary.WindowState.FlushCase` | src/ocpm_engine/event_batches.py:160-178 | Flushing counts the open case, if there is one, in all totals |
| `EventSummary.WindowState.TakeRow` | src/ocpm_engine/event_batches.py:180-199 | A row of another case flushes the open one first; a row out of order is refused; otherwise the row extends the case under way |
| `EventSummary.CountActivities` | src/ocpm_engine/event_batches.py:165-172 | Cases are counted once for each distinct activity, occurrences for each event, one start and one end for the case |
| `EventSummary.CountEdges` | src/ocpm_engine/event_batches.py:173-178 | Every step of the path adds one to its edge and its time to the edge's duration |
| `EventBalances.SummaryFlow` | src/ocpm_engine/event_batches.py:165-219 | In every summary the occurrences of an activity equal its starts plus the listed edges into it, and its ends plus those out of it |
| `EventBalances.SummaryEdges` | src/ocpm_engine/event_batches.py:165-219 | The frequencies of all listed edges plus the case count are the event count |
| `EventBalances.SummaryTime` | src/ocpm_engine/event_batches.py:173-219 | The durations of all listed edges are the time from first to last event of all cases |
| `EventCounts.FlowBalance` | src/ocpm_engine/event_batches.py:165-178 | For every activity of any cases occurrences equal starts plus arriving edges, and ends plus departing edges |
| `EventCounts.EdgeTotal` | src/ocpm_engine/event_batches.py:165-178 | Edge frequencies plus cases add up to the events |
| `EventCounts.EdgeTimeTotal` | src/ocpm_engine/event_batches.py:173-178 | Edge durations add up to the time from first to last event of all cases |
| `WindowMerge.MergeRows` | src/ocpm_engine/engine.py:551-583 | The merge is refused with the fault of the first faulty row, and otherwise lays the chunks of every edge over zeros and keeps the edges that are frequent enough in total |
| `WindowMerge.OverlaidCell` | src/ocpm_engine/engine.py:573-577 | A window of a merged edge holds the count of its chunk, and zero when the chunk has no row for the edge |
| `WindowMerge.MergedAnswerIsAligned` | src/ocpm_engine/engine.py:551-583 | For any number of windows the database's answer, whole or in chunks of 256 and in any order, merges without a fault into the counts of the whole request |
| `WindowMerge.FaultlessIff` | src/ocpm_engine/engine.py:555-572 | Rows are faultless exactly when each chunk lies within the windows and ends with its 256th or the last one, no count is negative, and no two rows are for the same chunk and edge |
| `WindowMerge.FaultIs` | src/ocpm_engine/engine.py:561-572 | The fault of a row: a chunk outside the windows or of the wrong length, then a negative count, then an earlier row for the same chunk and edge |
| `WindowMerge.CountIs` | src/ocpm_engine/engine.py:551-577 | What is counted are the direct steps from source to target in the window of the object type |
| `WindowMerge.ExecuteLifecycleDfg` | src/ocpm_engine/engine.py:532-590 | Given the database's contract, exactly the edges of the object types, sources and targets asked for whose counts over all windows sum to the minimum are returned, with their count in every window |
| `WindowFallback.SetWindow` | src/ocpm_engine/engine.py:609-622 | One summary sets its window for exactly its admitted edges and changes no other count |
| `WindowFallback.ExecuteFallback` | src/ocpm_engine/engine.py:592-633 | The fallback ends with the first broken stream, and otherwise returns the edges so asked for, whose counts over all windows sum to the minimum, with the counts of the logs that the event rows flatten |
| `WindowFallback.PathsAgree` | src/ocpm_engine/engine.py:551-633 | Merged chunks and fallback return the same counts |
| `DynamicQuery.Compile` | src/ocpm_engine/dynamic_queries.py:180-340 | The compiler's appends and clears produce the staged plan, with the event-stream strategy exactly when there are edge filters |
| `DynamicQuery.HavingIff` | src/ocpm_engine/dynamic_queries.py:223-234 | Under three-valued logic the group condition holds exactly when every included predicate has a witness in the group |
| `DynamicQuery.AnyOfIff` | src/ocpm_engine/dynamic_queries.py:236-243 | Under three-valued logic the disjunction holds exactly when some excluded predicate holds |
| `DynamicQuery.RangeIsIntervalIff` | src/ocpm_engine/dynamic_queries.py:31-35 | The condition on case time means its interval exactly when both bounds are given or neither |
| `DynamicQuery.BaseMeansCaseIff` | src/ocpm_engine/dynamic_queries.py:12-35 | For dates in order, the base table means what the filter asks of every case that ends no earlier than it starts, exactly when the bounds are paired or an activity is both included and excluded |
| `DynamicQueryMeaning.PlanSelectsWhatIsAsked` | src/ocpm_engine/dynamic_queries.py:211-329 | For every filter and database the plan refers to no missing table and selects exactly the cases with a witness for each included predicate and none for an excluded one |
| `DynamicQueryAnswer.SelectedIff` | src/ocpm_engine/dynamic_queries.py:211-329 | Said of the rows of the database alone: a case is selected exactly when its dates, status, activities and time fit and, for each included attribute, type and step, some event, link or pair of neighbouring events is there, and none for an excluded one |
| `DynamicQueryMeaning.GroupedByTypes` | src/ocpm_engine/dynamic_queries.py:251-259 | Counting distinct related types finds exactly the cases that are related to all of them, repeated types included |
| `DynamicQueryMeaning.EdgeWitness` | src/ocpm_engine/dynamic_queries.py:64-82 | The paired edges of the preselected cases have a match exactly when the case has such a step in the whole log |
| `DynamicQueryMeaning.PruningKeepsEdges` | src/ocpm_engine/dynamic_queries.py:64-82 | Pairing only the events of the preselected cases gives those cases the same edges |
| `DynamicQueryMeaning.PruningKeepsGraph` | src/ocpm_engine/dynamic_queries.py:118-131 | Counting the graph over the pruned edges gives the frequencies and the total durations of the whole log |
| `DynamicQueryMeaning.GraphIsOfWholeLog` | src/ocpm_engine/dynamic_queries.py:264-340 | The graph of the compiled plan, in frequencies and total durations, is that of the selected cases over the whole log |
| `DynamicQueryAnswer.GraphIs` | src/ocpm_engine/dynamic_queries.py:118-131 | An edge of the graph counts the pairs of neighbouring events of selected cases with its activities, and adds up the time between them |
| `Coverage.RankingIsUnique` | benchmarks/ecosystem/common.py:130-131 | The ranking depends on the counts alone, not on the order of the input |
| `Coverage.Rank` | benchmarks/ecosystem/common.py:130-131 | The keys by falling training count, ties by name |
| `Coverage.RankedBeforeIff` | benchmarks/ecosystem/common.py:130-131 | Higher counts first, then smaller sources, then smaller targets, character by character |
| `Coverage.SelectModel` | benchmarks/ecosystem/common.py:133-141 | The loop stops with the shortest prefix of the ranking that reaches the target, without edges of count zero |
| `Coverage.Exchange` | benchmarks/ecosystem/common.py:133-141 | No set covers more than an equally large one whose weights dominate the rest |
| `Coverage.TopRankedCoverMost` | benchmarks/ecosystem/common.py:131-141 | The first edges of the ranking cover the most among all sets of that size |
| `Coverage.GreedyReaches` | benchmarks/ecosystem/common.py:132-141 | A target up to the training total is reached |
| `Coverage.GreedyIsOptimal` | benchmarks/ecosystem/common.py:132-141 | No smaller set reaches the target, and none of that size covers more |
| `Coverage.GreedyIsMonotone` | benchmarks/ecosystem/common.py:132-141 | A higher target extends the model |
| `Coverage.ScoreCounts` | benchmarks/ecosystem/common.py:127-151 | The score's model is the greedy one; its conforming count is the sum of the test counts of the edges in it, and its deviations that of the others |

## Left out

* Widths of counters: costs, token counts and report totals are unbounded naturals. The saturating arithmetic of the
  state bound and the checked arithmetic of the decoder are modelled; sizes are 64 bits wide.
- AlignmentSearch.PopLeast: the binary heap is the multiset that its library documents, not the array behind it.
- AlignmentSearch.Adjacency: map listings are modelled by maps; the order in which start activities are relaxed is left open, since the outcome does not depend on it.
- AlignmentTruncation.TruncatesSomeTraceIff: for models whose shortest surely truncated trace has a bound below the largest machine word (`Representable`).
- AlignmentSearch.AlignDfg: the 64-bit counter of expansions never exceeds a saturated bound (`Exceeds`); that it would overflow after as many expansions is left out.
- TokenReplay.ReplayTrace: a subtraction that takes too many tokens ends the replay, as it does in a build with overflow checks; the wrapped numbers of a build without are left out.
- CapsuleEncoder.RoundTrip: for encodings of at most the largest slice length.
- CapsuleDecoder.DecodeCapsule: allocation is modelled by the number of elements that can be allocated at once, whatever their size.
- CapsuleDecoder.Cursor.NextVarint: bit operations are written as arithmetic on unbounded integers.
* Capsule labels are byte strings that are valid UTF-8 (section 4 of RFC 3629); floating-point values are their bit patterns.
* Sorted listings of counts: summaries and aligned counts are maps here, and equal maps have equal listings.
- EventSummary.SummarizeRows: timestamps are integers and durations are totals; the division by the frequency is left out.
- WindowMerge.ExecuteLifecycleDfg: the database functions are modelled by the contract that the code relies on, one row for each chunk and sufficiently frequent edge.
- WindowFallback.ExecuteFallback: summaries come from event rows; the native factorized summary is not part of this model.
- DynamicQuery.Compile: plans are syntax trees; SQL text, parameter names, bucket pruning and the graph over precomputed edge buckets are left out.
- DynamicQueryMeaning.PlanSelectsWhatIsAsked: unpaired case-time bounds select by the database's own reading of the range, which is stated beside it.
- Coverage.ScoreCounts: the target is any natural number instead of 95 percent rounded up in floating point; fitness is left out.
* Fitness, precision and simplicity ratios, rounding, drift, percentiles and other thin statistics.
* Declarative constraints, frequency coverage and object-centric net quality, which are short or derivative.
* Lifecycle variants by window and variant coverage, which repeat the argument for edges.
* Artifact hashing, the native extension, request parsing and validation, database access and benchmark control.
