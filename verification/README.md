# A verified model of the ACE2 activity estimator and three scheduling cores

ACE2 estimates how often every signal of a mapped logic network switches. It simulates the network cycle by cycle with
an event-driven simulator, averages the counters, and then computes the switching activity of each logic node from its
decision diagram. This project models that computation from the packed cubes at the bottom to `ace_calc_activity` at
the top, together with three other algorithmic cores of the repository: the thread limiter of ABC's `starter`, the
layering of the BLIF explorer, and its netlist search.

The procedures that update records in place are methods over an array of records (`AceInfo.Info`) or over class fields,
each proved against a specification function; the theorems are lemmas about those functions. The protocol of `starter`
is a state machine whose runs are all sequences of actors. `double` is `real`, integers are unbounded (counters, depths
and stamps stay far below 2^31 in the program), cube words are `bv32`, and `rand()` is an arbitrary function of cycle
and object.

| file | contents |
|---|---|
| `AceInfo.dfy` | the record of one object, the transition-probability macros, the clamp |
| `Cube.dfy` | literals packed two bits each into uninitialised 32-bit words |
| `Expectation.dfy` | expectation over independent bits, the reference for every probability |
| `Bdd.dfy`, `BddSwitch.dfy`, `BddPaths.dfy` | diagrams and the code's walk; the recursive sums and their bounds; the explicit sum over paths |
| `BddCalc.dfy` | the procedures of `bdd.c` |
| `Network.dfy` | objects, fanins, latches, depth-first order |
| `Traces.dfy` | ones and changes of a 0/1 stream |
| `Sim.dfy` | the simulator: one step function and one method per procedure |
| `SimLatches.dfy` | in-place register transfer and the simultaneous one |
| `SimRefines.dfy`, `SimRuns.dfy` | the reference simulator that re-evaluates everything, and the refinement over whole runs, with chains of latches |
| `SimCounters.dfy`, `SimActivities.dfy` | counters against traces; the closing assertions of `ace_sim_activities` |
| `VectorFile.dfy`, `Vectors.dfy` | reading the vector file; the reader's statistics and the replay of the vectors |
| `Cycles.dfy`, `Depth.dfy` | latches on cycles; longest-path depth |
| `LongRuns.dfy`, `Ace.dfy` | when the clamps abort on the records of a run; `ace_calc_activity`, end to end |
| `Examples.dfy` | small networks and a file on which properties fail |
| `Starter.dfy`, `StarterCap.dfy`, `StarterRuns.dfy` | the thread limiter under every interleaving; the use it makes of its cap; its infinite runs |
| `NodeTable.dfy`, `Layers.dfy` | worklist search by name; worklist layering |

## What turned out not to hold

Each of these is kept as the code has it, with the exact condition and a concrete case proved beside it.

- The closing assertions of `ace_sim_activities` fail for one family of inputs: an input whose stream starts and ends
  with 1 and never holds 0 twice in a row (the constant 1, for one: `Vectors.ConstantOneTrips`), in a run of fewer than
  100000 cycles. Its first 1 is counted as a toggle, so its toggles exceed twice its zeros. They fail on exactly these
  inputs and on the three objects of each latch whose source is one; logic nodes and primary outputs never trip them
  (`SimActivities.ObjectPassesExactly`).
- In runs of 100000 cycles and more the tolerance lets such inputs through, and a clamp of stage 4 can abort instead.
  For every network and every length of run it does so exactly if some logic node of depth factor 1 (depth 4 or less) has
  a fanin, other than a clock, that is such an input with 1 to 50000 zeros, or a latch output whose source is one
  (`Ace.ClampsHoldExactly`, `Vectors.VectorFragileExactly`): with the vector 1 0 1 1 1 ... every check before stage 4
  passes, and the clamp aborts at a node that copies the input and at one that copies the latch behind it
  (`Examples.LongRunAborts`). After a simulation of fewer than 100000 cycles that passes there is no such node
  (`Ace.ShortRunsComplete`). Nothing else can fail (`Ace.AceCalcActivity`).
- The simulator does not look at the length of the vectors. It stays inside them exactly if every input with a vector
  has an entry for each cycle, that is, after a file that was read to its end, if the run is no longer than the file has
  complete lines (`Vectors.FileCoversRun`). The program always simulates 5000 cycles, so a shorter file is overrun
  (`Examples.ShortFileIsOverrun`). The reader itself writes no more entries than its first pass counted
  (`Vectors.StoredLengths`).
- A logic node with no input or latch output in its cone is never evaluated to 1: it keeps the 0 it was reset to
  (`SimRuns.ConstantOneIsMissed`; a network with one constant node: `Examples.ConstantIsMissed`).
- The loop of `update_FFs` is in place, so a latch shows not its driver but its source: the driver followed through the
  outputs of latches that come earlier. In every network the event-driven simulator agrees, in all cycles, with the
  simulator that re-evaluates every node and moves every latch to its source, exactly when the nodes of the point above
  are the constant 0 (`SimRuns.EventDrivenRefinesReference`). It agrees with the synchronous circuit, where every latch
  shows its driver, exactly when, in addition, no latch that reads an earlier one's output ever has a 1 at its source
  (`SimRuns.SynchronousExactly`); in particular when there is no such latch (`SimRuns.ChainFreeIsSynchronous`). With a
  chain behind an input that rises in the first cycle, the second latch shows the 1 a cycle too early
  (`SimRuns.ChainShowsTooEarly`; two latches in a row: `Examples.ChainIsTooEarly`).
- Swapping the children of a complemented edge is not negation. The walk of `bdd.c` from an edge computes the function
  that `Cudd_Eval` does exactly when, at the first complemented edges to vertices, the walk of each child is the
  negation of the function of the other child (`Bdd.WalkIsEvalExactly`). On ordered diagrams this is decided, without
  looking at assignments, by one descent from two copies of the root, one walked and one evaluated
  (`Bdd.WalkIsEvalDecided`). That the children are each other's negation
  wherever the walk meets a complemented edge is enough (`Bdd.SwapIsNegationSuffices`) but not needed
  (`Bdd.MisreadingsCancel`). NAND of two inputs is misread (`Bdd.NandIsMisread`).
- A leaf of `calc_switch_prob_recur` multiplies the path weight in twice: what it returns is the sum, over the paths to
  the other leaf, of the square of the weight of the path times the chance of the phase after it
  (`BddPaths.SwitchSumIsPathSum`). The result is still below the joint
  probability and so in range (`BddSwitch.ActivityBound`), and it is strictly below exactly when the node can move to
  the phase at all, that is when some possible step of its inputs moves it there (`BddSwitch.UnderestimatesExactly`).
  For a buffer it is half (`BddSwitch.BufferIsUnderestimated`).
- The vector reader misses a fall when a character other than `0` and `1` follows a `1` (`Vectors.StrayHidesFall`); its
  counts are the changes of the stored bits exactly when there is no such place (`Vectors.CountedTogglesExactly`).
- The vector reader aborts on every file whose last line is complete, in particular on one that ends in a newline
  (`VectorFile.FinalNewlineIsMissed`), and on an empty file, which has no line at all; it drops the last line of every
  other file, and aborts if there is no line before it (`Vectors.CountVectors`).
- With one CPU `starter` never starts a command: it can end exactly when it has two CPUs or no commands
  (`Starter.EndsExactly`). With two CPUs every fair schedule ends it (`StarterRuns.FairSchedulesEnd`), and there are
  fair ones (`StarterRuns.FairExists`).
- A unit of the drawing is not to the right of a parent that is itself a `top^out` unit
  (`Layers.OutputParentOnTheRight`). A processed visible unit that is no latch or memory is right of every other parent
  (`Layers.PlacedIsRight`, `Layers.Container.ComputeLayers`); nothing of the kind holds for latches, memories, hidden
  units and units that are never processed.
- Main in `starter` can spin on a count that is already out of date (`Starter.StaleCount`). While it waits, a worker is
  still on the counter exactly if the counter is not 0 (`Starter.WaitingMeansPending`), and in every state some thread,
  perhaps main itself, can bring the end closer (`Starter.SomeoneDescends`).

## Model

| member | source | states |
|---|---|---|
| `AceInfo.MacrosAreStationary` | ace2/ace.h:22-23 | for a one-probability `p` and a switching probability below `2 min(p, 1-p)` the two macros are the transition probabilities of a stationary chain with one-probability `p`, also at `p = 0` and `p = 1`; the clamp leaves them alone |
| `AceInfo.ScalingStaysConsistent` | ace2/bdd.c:365-368 | dividing the switching probability by the depth factor keeps the pair consistent |
| `AceInfo.EpsilonFixClamps` | ace2/ace.c:318-326 | the clamp accepts exactly the values within EPSILON of the unit interval, lands inside it, and is the identity exactly on it |
| `Cube.WhichBit` | ace2/cube.h:22 | the bit number of an element is below 32 |
| `Cube.ElementsDoNotOverlap` | ace2/cube.h:21-22 | word number and bit number together determine the element |
| `Cube.LiteralStaysInOneWord` | ace2/cube.h:24-25 | the two bits of a literal are neighbours in one word |
| `Cube.AccessInBounds` | ace2/cube.h:45 | every element of an n-literal cube lies inside the SET_SIZE(2n) words, past word 0 |
| `Cube.InsertTouchesOneElement` | ace2/cube.h:41 | set_insert adds its element and changes no other |
| `Cube.RemoveTouchesOneElement` | ace2/cube.h:40 | set_remove takes its element out and changes no other |
| `Cube.ReadIsTwoElements` | ace2/cube.h:24-33 | node_get_literal tells ZERO, ONE, TWO and the bad code 00 apart by the two elements of the literal |
| `Cube.WriteThenRead` | ace2/cube.h:40-41 | storing a literal makes it readable and disturbs no other literal, whatever the memory held |
| `Cube.StoreLiteral` | ace2/cube.c:29-40 | in place: every literal of the cube reads as before, except the stored one |
| `Cube.AceCubeNewDc` | ace2/cube.c:49-64 | a fresh cube over uninitialised memory reads TWO in every literal |
| `Cube.AceCubeDup` | ace2/cube.c:16-47 | the copy has the same literals in memory of its own; it aborts exactly when a literal is bad |
| `Expectation.ExpIsSumOverAssignments` | ace2/bdd.c:221-233 | the expectation used as reference is the sum over all assignments of the product of the per-input weights times the value |
| `Expectation.ExpVanishesExactly` | ace2/bdd.c:221-233 | the expectation of a non-negative function is 0 exactly if the function is 0 on every assignment of positive probability |
| `Bdd.WalkIsEvalExactly` | ace2/bdd.c:203-209 | the code's branch rule computes the Boolean function of an edge exactly when, at the first complemented edges to vertices, the walk of each child is the negation of the function of the other |
| `Bdd.AgreeExactly` | ace2/bdd.c:203-209 | a descent through two ordered diagrams, one walked and one evaluated, succeeds exactly if the walk of the one is the Boolean function of the other |
| `Bdd.WalkIsEvalDecided` | ace2/bdd.c:203-209 | so the walk from an edge of an ordered diagram is its Boolean function exactly if the descent from two copies of it succeeds |
| `Bdd.SwapIsNegationSuffices` | ace2/bdd.c:203-209 | complementary children wherever the walk meets a complemented edge are enough |
| `Bdd.MisreadingsCancel` | ace2/bdd.c:203-209 | but not needed: a read-once diagram over four inputs whose root is read right although they are not complementary |
| `Bdd.UncomplementedWalkIsEval` | ace2/bdd.c:303-309 | without complemented edges to vertices the walk is the Boolean function |
| `Bdd.NandIsMisread` | ace2/bdd.c:203-209 | NAND, a complemented edge, ends at the wrong leaf for 00 |
| `Bdd.ReachIsExpectation` | ace2/bdd.c:172-242 | the recursion computes the total weight of the assignments whose walk ends at the phase leaf, for diagrams that test no variable twice on a path |
| `Bdd.PhasesSumToOne` | ace2/bdd.c:180-190 | the results for the two phases add up to 1 |
| `Bdd.ReachIsProbability` | ace2/bdd.c:215-240 | with weights in the unit interval every intermediate result is in it |
| `BddSwitch.TotalOverOneInput` | ace2/bdd.c:311-325 | fixing one open input to ONE and to ZERO and averaging with its static probability gives the unrefined result |
| `BddSwitch.TotalProbability` | ace2/bdd.c:266-331 | summed over all enumerated paths, weight times conditional result is the unrefined result |
| `BddSwitch.SwitchBelowJoint` | ace2/bdd.c:284-287 | squaring the path weights can only lose: the sum is between 0 and the singly weighted one |
| `BddSwitch.ActivityBound` | ace2/bdd.c:266-331 | what the enumeration returns is at most the joint probability, which is at most the chance of the phase and of the other phase |
| `BddSwitch.JointIsSwitchProbability` | ace2/bdd.c:266-331 | weighted once, the sum is exactly the probability, over the current and the next assignment, of leaving the other leaf and arriving at the phase |
| `BddSwitch.SwitchSumIsJointExactly` | ace2/bdd.c:280-296 | the enumeration with the double weight returns the singly weighted sum exactly when that is 0 |
| `BddSwitch.JointVanishesExactly` | ace2/bdd.c:266-331 | the singly weighted sum is 0 exactly when no possible current assignment away from the phase has a possible next one at the phase |
| `BddSwitch.UnderestimatesExactly` | ace2/bdd.c:280-296 | the enumeration returns less than the joint probability exactly when the node can move to the phase |
| `BddSwitch.AverageOverCube` | ace2/bdd.c:244-264 | the probability given a cube is the average over the full assignments inside the cube |
| `BddSwitch.BufferIsUnderestimated` | ace2/bdd.c:284-287 | the double weight is a real loss: 1/8 instead of 1/4 for a buffer |
| `BddPaths.PathsExactly` | ace2/bdd.c:298-325 | the list of paths holds exactly the sequences of branches that lead to the leaf |
| `BddPaths.PathsDistinct` | ace2/bdd.c:298-325 | and each of them once |
| `BddPaths.ChanceOfCube` | ace2/bdd.c:215-233 | the conditional probability of a cube is the expectation over inputs that are 1 next with `1 - prob1to0` after a 1 on the path, `prob0to1` after a 0, and the static probability otherwise |
| `BddPaths.SwitchSumFrom` | ace2/bdd.c:280-331 | from any point of the descent: the squared weight so far times the recursive sum is the explicit sum over the paths that go on from there |
| `BddPaths.SwitchSumIsPathSum` | ace2/bdd.c:266-331 | from the top: the sum over all paths to the other leaf of weight times weight times chance |
| `BddCalc.AceBddCountPaths` | ace2/bdd.c:55-76 | the counters grow by the numbers of paths of the code's walk to the two leaves (the lists of `BddPaths.PathsExactly`), although the code does not swap children here |
| `BddCalc.PathsMeanAssignments` | ace2/bdd.c:55-76 | a path to a leaf exists exactly if some assignment ends there |
| `BddCalc.MajorityPhaseIsTaken` | ace2/bdd.c:382-384 | the phase that the activity is computed for is one the node can take |
| `BddCalc.CalcCubeSwitchProbRecur` | ace2/bdd.c:172-242 | the memoised recursion returns the value of the plain one, keeps the memo table sound, and stays in the unit interval; no bad literal is met; the transition probabilities need not be stationary |
| `BddCalc.CalcCubeSwitchProb` | ace2/bdd.c:244-264 | the same from an empty table |
| `BddCalc.CalcSwitchProbRecur` | ace2/bdd.c:266-331 | each call finds in its packed cube exactly the branches that led to it, leaves the caller's cube alone, and, when the weight passed in is that of these branches, returns the explicit sum over the paths that go on from there; the range assertions hold |
| `BddCalc.LeafSwitchProb` | ace2/bdd.c:280-296 | a leaf other than the phase contributes its conditional probability with the weight taken twice |
| `BddCalc.BranchCube` | ace2/bdd.c:311-325 | a private copy with one literal set, the original unchanged |
| `BddCalc.ChainsAreStationary` | ace2/bdd.c:359-379 | from consistent fanins no clamp aborts, and after the loop every fanin has a stationary chain |
| `BddCalc.SetTransitionProbs` | ace2/bdd.c:359-379 | the loop aborts exactly when a clamp does, and otherwise writes only the transition probabilities of the fanins: upwards and downwards each half of `switch_prob / d` per cycle, as far as probabilities allow, with the ends `p = 0` and `p = 1` |
| `BddCalc.ClampHoldsExactly` | ace2/ace.c:318-326 | the two clamps of a fanin pass exactly if `switch_prob` is below `2 d (1 - p)` and below `2 d p`, each times 1 + EPSILON |
| `BddCalc.ConsistentMoves` | ace2/bdd.c:365-368 | for consistent probabilities `(1 - p) prob0to1 = switch_prob / (2 d) = p prob1to0` inside, 0 and 1 at `p = 0`, 1 and 0 at `p = 1` |
| `BddCalc.DepthScaleExactly` | ace2/bdd.c:345-349 | the depth factor is 1 below depth 5 and two fifths of the depth, rounded down, from there on |
| `BddCalc.EstimateIsExplicit` | ace2/bdd.c:382-384 | the estimate is `2 d` times the explicit sum, for the phase 1 exactly if more paths lead to the one leaf |
| `BddCalc.EstimateBelowPhases` | ace2/bdd.c:382-384 | from stationary chains the scaled estimate lies between 0 and 2 d times the chance of either phase |
| `BddCalc.AceBddCalcSwitchAct` | ace2/bdd.c:333-390 | aborts exactly when a clamp does; otherwise the activity is 2 d times the enumeration's result for the majority phase and not negative, and none of the other assertions fails |
| `Network.FaninsRankLower` | ace2/sim.c:318-321 | in the depth-first order the fanins of a logic node are signals that come before it |
| `Traces.ChangeBalance` | ace2/sim.c:329-335 | exactly how many changes a 0/1 stream with given ones and zeros has, from its ends and its repetitions |
| `Sim.GetPiValues` | ace2/sim.c:22-122 | stops exactly when the cycle is past the end of some vector; otherwise every input takes the value of its vector, or of the draw against its transition probabilities, with status and counters; nothing else changes |
| `Sim.PiFromVector` | ace2/sim.c:26-67 | one input driven by a vector |
| `Sim.DrawnInput` | ace2/sim.c:68-118 | an input without a vector rises exactly below `up` and falls exactly below `down`, the transition probabilities of the stationary chain with its static and switching probability, at `p = 0` and `p = 1` too |
| `Sim.PiFromDraw` | ace2/sim.c:68-118 | one input driven by the random draw |
| `Sim.GetFaninStatus` | ace2/sim.c:156-178 | UNDEF if some fanin is undefined, else NEW if some fanin is NEW or SIM, else OLD |
| `Sim.GetFaninValues` | ace2/sim.c:124-154 | null exactly when no fanin is NEW, otherwise the values of all fanins |
| `Sim.CuddEval` | ace2/sim.c:215-223 | the evaluation ends at a constant, and it is the one constant exactly when the diagram's function is true |
| `Sim.EvaluateNode` | ace2/sim.c:189-252 | one logic node: status, value and counters from the statuses and values of its fanins |
| `Sim.EvaluateCircuit` | ace2/sim.c:180-253 | the nodes in order, each reading what the earlier ones wrote |
| `Sim.MoveLatch` | ace2/sim.c:263-289 | the three objects of one latch take over the record of the driver |
| `Sim.UpdateFFs` | ace2/sim.c:255-290 | the in-place loop over the latches |
| `SimLatches.InPlaceIsSimultaneous` | ace2/sim.c:255-290 | the loop equals the simultaneous assignment in every state exactly when no latch reads the output of an earlier one that does not read itself |
| `SimLatches.ChainBreaks` | ace2/sim.c:263-289 | a state in which such a chain ends with another value |
| `SimLatches.LatchShowsSource` | ace2/sim.c:263-289 | in every network the three objects of a latch take over the record of its source: the driver, followed through the outputs of earlier latches |
| `SimLatches.SourceIsDriver` | ace2/sim.c:263-289 | without chains the source is the driver |
| `SimLatches.LatchObjectsAgree` | ace2/sim.c:270-288 | in every network the input object, the latch and the output object end with the same value, status and counters |
| `SimLatches.OnlyLatchObjectsMove` | ace2/sim.c:255-290 | the transfer changes no other object |
| `SimCounters.OldMeansUnchanged` | ace2/sim.c:207-210 | in every network and run an object with status OLD has the value of the previous cycle, or 0 in the first |
| `SimRefines.SourceFreeIsConstant` | ace2/sim.c:156-178 | a node without inputs or latch outputs in its cone has one value in all cycles of the reference |
| `SimRefines.NodeStepIsExpected` | ace2/sim.c:193-247 | the step on a node gives its reference value, its change status and the counters of its trace |
| `SimRuns.EveryRecordIsExact` | ace2/sim.c:319-323 | in every cycle of every run, if constant nodes are 0, each signal's whole record is the expected one: reference value, NEW exactly if changed, ones and toggles of the trace; a latch output carries its source's record of the cycle before |
| `SimRuns.ConstantOneIsMissed` | ace2/sim.c:207-210 | a constant-1 node shows 0 |
| `SimRuns.EventDrivenRefinesReference` | ace2/sim.c:180-323 | in every network and run, over all cycles and signals, the event-driven values equal those of the simulator that re-evaluates every node and moves every latch to its source, exactly when all constant nodes are 0 |
| `SimRuns.SynchronousExactly` | ace2/sim.c:180-323 | in every network and run they equal those of the synchronous circuit exactly when, in addition, no chained latch ever has a 1 at its source |
| `SimRuns.ChainFreeIsSynchronous` | ace2/sim.c:180-323 | without chains, exactly when all constant nodes are 0 |
| `SimRuns.ChainShowsTooEarly` | ace2/sim.c:263-289 | behind an input that rises in the first cycle a chained latch shows 1 in the second cycle, where the synchronous circuit has 0 |
| `SimCounters.CountersAreExact` | ace2/sim.c:202-242 | in every network num_ones is the number of cycles with value 1 and num_toggles the number of changes, plus one for an input that starts with 1 |
| `SimCounters.FaninsDefined` | ace2/sim.c:133-136 | in every cycle of every run, whatever a logic node reads when its turn comes is defined and a bit |
| `SimCounters.RunReady` | ace2/sim.c:113-117 | between cycles inputs and latch outputs hold a bit or are still reset: "Bad value" is never reached |
| `SimActivities.EndChecksOnCounts` | ace2/sim.c:329-335 | the assertions on the averages are the integer conditions on the counters |
| `SimActivities.EndChecksExactly` | ace2/sim.c:329-335 | for counters of a stream they hold except for an input stream with isolated zeros in a short run |
| `SimActivities.RecordShape` | ace2/sim.c:319-335 | the final record of any object, in every network: `2 z + 1` toggles for `z` zeros if it comes from an input with isolated zeros, directly or through a latch; otherwise at most twice as many toggles as ones and as zeros |
| `SimActivities.ObjectPassesExactly` | ace2/sim.c:326-338 | object by object, in every network: the closing assertions fail exactly on inputs with isolated zeros in a short run and on the three objects of each latch whose source is one |
| `SimActivities.SimulationPassesExactly` | ace2/sim.c:326-338 | in every network they hold for all objects exactly when no input stream has isolated zeros in a short run |
| `SimActivities.AceSimActivities` | ace2/sim.c:292-340 | reads past a vector exactly if some vector is shorter than the run; otherwise passes exactly if no input stream has isolated zeros in a short run, and then every record is the averaged record of the run |
| `VectorFile.Stream.Fgets` | ace2/io_ace.c:309-312 | the next line up to its newline or the size of the buffer, null exactly at the end of the text; the end-of-file mark is set exactly by reading past the end |
| `VectorFile.LineLengthExactly` | ace2/io_ace.c:309-312 | a line ends at the first newline, the size of the buffer or the end of the text, whichever comes first |
| `VectorFile.ChunksJoined` | ace2/io_ace.c:309-315 | successive calls return the text piece by piece, nothing lost or read twice |
| `VectorFile.ScanIsFirstWord` | ace2/io_ace.c:332 | a blank line leaves the vector as it is, any other one replaces it by its first word, whole |
| `VectorFile.CountLines` | ace2/io_ace.c:309-315 | the counting pass survives exactly if the last line is incomplete, and counts all lines but that one |
| `VectorFile.FinalNewlineIsMissed` | ace2/io_ace.c:311-315 | a text that ends in a newline has no incomplete last line, so the passes abort on it |
| `Vectors.CountVectors` | ace2/io_ace.c:309-371 | aborts exactly if there is no line, or the last line is complete, or it is the only one and there are inputs; otherwise reports a wrong length exactly if a processed vector has one, and leaves ones, toggles and stored bits of every column of the vectors before it; all lines but the last are processed, blank ones repeating the vector before |
| `Vectors.StoredLengths` | ace2/io_ace.c:319-369 | an input gets one entry per accepted line: at most as many as the first pass counted, and exactly as many if the file is read to its end |
| `Vectors.FileCoversRun` | ace2/sim.c:26-58 | after such a file no read of the simulation is out of bounds exactly if the run is no longer than the file has complete lines |
| `Vectors.CountedTogglesExactly` | ace2/io_ace.c:353-358 | the counted toggles are the changes of the stored bits exactly when no stray character follows a 1 |
| `Vectors.StrayHidesFall` | ace2/io_ace.c:353-358 | the column `1x` falls once and counts no toggle |
| `Vectors.ReaderIsConsistent` | ace2/io_ace.c:373-387 | the derived probabilities satisfy the assertions made on inputs before the simulation |
| `Vectors.TraceIsVector` | ace2/sim.c:26-67 | the simulator shows a 0/1 vector as it is |
| `Vectors.ReplayCounts` | ace2/sim.c:26-67 | replaying a whole column gives the counters of its bits |
| `Vectors.ReplayAgrees` | ace2/io_ace.c:343-389 | the same ones as the reader counted, and as many toggles plus one for a leading 1, exactly when no stray character hid a fall |
| `Vectors.VectorTripsExactly` | ace2/sim.c:329-335 | which vector columns make the closing assertions fail, told from the file |
| `Vectors.VectorFragileExactly` | ace2/ace.c:318-326 | which vector columns make a clamp abort in a long run, told from the file |
| `Vectors.ConstantOneTrips` | ace2/sim.c:329-335 | an input that is always 1 makes them fail |
| `Cycles.InCycle` | ace2/cycle.c:8-49 | terminates on every graph; true only if a non-empty fanin path leads to the target; false leaves everything reachable stamped, and with no stamps at the start it means there is no path |
| `Cycles.NoWayOut` | ace2/cycle.c:38-48 | no path leaves a set that is closed under fanins |
| `Cycles.FreshPass` | ace2/cycle.c:69-75 | stamps of earlier passes hide nothing |
| `Cycles.LatchesInCycles` | ace2/cycle.c:51-78 | returns, in network order, the latches that lie on a fanin path back to themselves, and changes only stamps |
| `Cycles.CyclicExactly` | ace2/cycle.c:51-78 | an object is in the result exactly if it is a latch on a cycle |
| `Depth.CalcDepth` | ace2/depth.c:8-29 | one more than the largest depth among the fanins, for nodes and outputs; 0 for the rest |
| `Depth.LongestAbove` | ace2/depth.c:14-24 | one more than the longest fanin path is the longest path |
| `Depth.DepthsIncrease` | ace2/depth.c:18-24 | depth strictly increases along every edge between logic nodes and is at least 1 |
| `Depth.AceCalcNetworkDepth` | ace2/depth.c:31-50 | every logic node gets the number of logic nodes on the longest path that ends at it, and the result is the largest of them |
| `Ace.AceUpdateLatchProbs` | ace2/ace.c:78-98 | every latch output takes over probabilities and status of its latch's input object; nothing else changes |
| `Ace.UpdateChangesNothing` | ace2/ace.c:199-202 | after a simulation of at least one cycle that changes nothing |
| `LongRuns.EvenIsConsistent` | ace2/sim.c:329-335 | the averages of every other record are consistent exactly, without any tolerance |
| `LongRuns.OddRecordClamps` | ace2/ace.c:318-326 | on `2 z + 1` toggles and `z` zeros a clamp aborts exactly if the depth factor is 1 and `z` is between 1 and 50000 |
| `LongRuns.RecordClampsExactly` | ace2/ace.c:318-326 | for every network, run and object: a clamp aborts on the averaged record exactly if the depth factor is 1 and the record comes from an input with 1 to 50000 zeros, all isolated |
| `Ace.ClampsHoldExactly` | ace2/ace.c:275-300 | stage 4 aborts exactly if some logic node of depth factor 1 has a fanin, other than a clock, that is such an input or a latch output whose source is one |
| `Ace.ShortRunsComplete` | ace2/ace.c:275-300 | in a run of fewer than 100000 cycles that passes its closing assertions there is no such node |
| `Ace.ShortRunsAreConsistent` | ace2/ace.c:295-299 | in such a run all averages are consistent exactly, tolerance and all |
| `Ace.RegisterActivities` | ace2/ace.c:233-243 | stage 3: activities of the latch outputs, and the check of the inputs |
| `Ace.SignalActivities` | ace2/ace.c:250-273 | stage 4 for inputs, clocks and latches, in place (what it reports: `Ace.FinishedIsReported`) |
| `Ace.SwitchSumReadsChains` | ace2/ace.c:275-300 | an activity depends on nothing but the static and transition probabilities of the fanins |
| `Ace.ActivityReadsInputs` | ace2/ace.c:275-300 | so the order in which nodes are processed does not matter, although each overwrites the transition probabilities of its fanins |
| `Ace.NodeActivityInRange` | ace2/ace.c:295-299 | from consistent probabilities no clamp aborts, and every node's activity is between 0 and 2 d times the chance of either value |
| `Ace.NodeActivities` | ace2/ace.c:275-300 | stage 4 for logic nodes: aborts exactly when a clamp does; 0 without fanins, otherwise the activity from the diagram and the records before the loop |
| `Ace.InputGoodExactly` | ace2/ace.c:174-178 | the five assertions on an input hold exactly if some stationary signal has its probabilities and its activity is in the unit interval |
| `Ace.MarkInputs` | ace2/ace.c:164-181 | the opening loops: statuses, and failure exactly when an input other than the clock is not in range |
| `Ace.AceCalcActivity` | ace2/ace.c:146-306 | for every number of vectors the whole computation completes exactly when the inputs are in range, the vectors are long enough, no input stream trips the simulation, and no logic node of depth factor 1 reads an input with 1 to 50000 zeros, all isolated, or a latch output that carries one; then the latches on cycles are the right ones, no other assertion can fail, and what is reported is told from the run: the clock has activity 2, inputs, latch outputs and latches have their toggles per cycle, and a logic node has `2 d` times the explicit path sum, from the averages of its fanins |
| `Ace.FinishedIsReported` | ace2/ace.c:250-300 | the reported numbers of every object, from its counters at the end of the run and the reported probabilities of its fanins |
| `Ace.ActivityIsToggleRate` | ace2/ace.c:261-267 | the activity of an input is the number of changes of its stream, plus one for a leading 1, per cycle; a latch and its output report that number of their source |
| `Examples.ChainIsTooEarly` | ace2/sim.c:263-289 | two latches in a row behind an input that starts with 1 |
| `Examples.ConstantIsMissed` | ace2/sim.c:207-210 | a network of one constant-1 node and one output |
| `Examples.LongRunAborts` | ace2/ace.c:318-326 | an input with the vector 1 0 1 1 1 ..., a latch, and a copy of each: in a run of 100000 cycles or more all earlier checks pass and both copies abort |
| `Examples.ShortFileIsOverrun` | ace2/sim.c:26-58 | a file with one complete line, and the 5000 cycles of the program |
| `Starter.AlwaysInv` | abc/src/starter.c:60-171 | in every interleaving: mutual exclusion, counter = announced minus taken off, cap, join, no command lost or started twice |
| `Starter.ConcurrencyCap` | abc/src/starter.c:136-151 | at most nCPUs - 1 commands execute at a time and the counter stays in 0 .. nCPUs - 1, although check and increment are separate critical sections |
| `StarterCap.CapIsReached` | abc/src/starter.c:136-151 | for any number of CPUs and commands some run comes to a state in which the minimum of nCPUs - 1, the commands and 1000 execute at once |
| `StarterCap.FreeCpuIsUsed` | abc/src/starter.c:136-151 | from every state of every run with a command to announce, a CPU free and no worker in a critical section, at most nine steps of main alone announce one more |
| `StarterCap.WorkerAlone` | abc/src/starter.c:60-86 | a worker alone takes itself off the counter and ends with its fourth step, or with its sixth if its command failed |
| `Starter.MutualExclusion` | abc/src/starter.c:65-76 | at most one thread is inside a critical section |
| `Starter.SafeJoin` | abc/src/starter.c:160-171 | once the mutex is destroyed all commands, up to 1000, have been started and have ended, and no thread can move |
| `Starter.OnlyWaitingRepeats` | abc/src/starter.c:136-168 | every step that changes anything reduces the work left, except main's rounds in its waiting loops |
| `Starter.WaitingMeansPending` | abc/src/starter.c:138-142 | while main waits, some worker has not yet taken itself off exactly if the counter is not 0 |
| `Starter.StaleCount` | abc/src/starter.c:138-142 | a run with two CPUs and two commands in which main is about to go round again although every worker has ended |
| `Starter.SomeoneDescends` | abc/src/starter.c:60-171 | in every state of every run that is not the end some thread can bring the end closer |
| `Starter.CanAlwaysFinish` | abc/src/starter.c:60-176 | whatever has happened, the program can still end: no deadlock and no trap |
| `StarterRuns.FairExists` | abc/src/starter.c:60-176 | there are such schedules, for every number of commands |
| `StarterRuns.FairSchedulesEnd` | abc/src/starter.c:60-176 | with two CPUs or more, every infinite schedule that comes back to main and lets every worker that has not ended move again reaches the end |
| `Starter.OneCpuStartsNothing` | abc/src/starter.c:141-142 | with one CPU no command is ever started |
| `Starter.EndsExactly` | abc/src/starter.c:136-176 | the program can end exactly with two CPUs or no commands |
| `NodeTable.SearchIsComplete` | blifexplorer/src/odininterface.cpp:100-128 | with an empty queue and distinct names the expanded nodes are exactly the reachable ones |
| `NodeTable.RepeatsCount` | blifexplorer/src/odininterface.cpp:86-96 | a queue has as many nodes as entries exactly if nothing is repeated |
| `NodeTable.OdinInterface.EnqueueChild` | blifexplorer/src/odininterface.cpp:117-126 | a child that is neither waiting nor in the table is enqueued; the search invariant is kept |
| `NodeTable.OdinInterface.GetNodeTable` | blifexplorer/src/odininterface.cpp:84-130 | terminates; the table holds only reachable nodes under their names, with distinct names exactly the reachable ones, each expanded once and repeated seeds once more |
| `Layers.JustifiedIsLeast` | blifexplorer/src/container.cpp:264-300 | what is processed lies in every set that holds the seeds and all that is eligible from it |
| `Layers.CompleteNext` | blifexplorer/src/container.cpp:287-299 | nothing but a child of a unit can become eligible by processing it, so looking at the children misses nothing |
| `Layers.PlacedIsRight` | blifexplorer/src/container.cpp:271-285 | a processed visible unit that waited for its parents ends right of exactly those that are not outputs, and no further right than needed |
| `Layers.OutputParentOnTheRight` | blifexplorer/src/container.cpp:301-314 | two units: the child of an output is processed after it and ends on its left |
| `Layers.Container.GetMaxParentLayer` | blifexplorer/src/container.cpp:201-210 | the largest layer among the parents, or -1 |
| `Layers.MaxLayer` | blifexplorer/src/container.cpp:201-210 | an upper bound of the parents' layers that is -1 or one of them |
| `Layers.Container.ParentsDone` | blifexplorer/src/container.cpp:476-493 | true for latches and memories, otherwise exactly when all parents are in the done table |
| `Layers.Container.PlaceOutputs` | blifexplorer/src/container.cpp:301-314 | all outputs, and only they, move to the last layer |
| `Layers.Container.ComputeLayers` | blifexplorer/src/container.cpp:243-316 | terminates, dequeues each unit at most once and in the order in which they become ready, seeds first, processes exactly the least set that holds the seeds and what is eligible from it, and leaves every processed visible unit that is no latch or memory right of its parents; every visible unit, latches and memories included, got its layer from those of its parents at its turn; outputs are last |
| `Layers.LaidOutNext` | blifexplorer/src/container.cpp:271-278 | placing a unit puts it one layer right of the rightmost parent as things are then, and keeps this for all units placed before |
| `Layers.EnqueueInTurn` | blifexplorer/src/container.cpp:287-299 | a child that is enqueued was not ready before any unit ahead of it |

## Left out

- ABC and CUDD: the depth-first order, the unique table (one copy of each vertex, so that pointers are equal exactly
  when values are), diagrams that test no variable twice on a path, and the wiring of latches are taken as given by the
  types `Network.Net` and `Bdd.Edge`. `Abc_NtkDfsSeq` is taken to list all objects.
- Floating-point rounding; the slack EPSILON in the range assertions of `bdd.c` is not needed over the reals.
- SimActivities.AceSimActivities: the threshold argument, which the code only checks to be positive, is not a parameter.
  What a read past the end of a vector returns is not modelled: the run counts as failed there.
- Ace.AceCalcActivity: printing and the timing of the stages are not modelled.
- Cycles.LatchesInCycles: `pass_num` is unbounded.
- Vectors.CountVectors: the memory behind the vectors is a sequence per input; the other activity formats of `io_ace.c`
  are not modelled, nor is the conversion of the counts to probabilities beyond `Vectors.ReaderIsConsistent`.
- Starter.AlwaysInv: the command file is the number of its command lines; `system()` is an exit status chosen by the
  scheduler. An unfair mutex can let main starve the workers for ever.
- Layers.Container.ComputeLayers: seeds must be distinct, as top inputs and constants are. Names are unique and wires
  follow the children lists, as in the drawing built from a netlist. The layer of a latch or memory depends on the
  order of the queue, and is given relative to it. `spreadLayers`, coordinates and everything else of the drawing are not
  modelled.
- NodeTable.OdinInterface.GetNodeTable: in a netlist with repeated names nothing is said about nodes that share
  a name with a processed one.
- Disabled code in `bdd.c` and `ace.c`, `check_pi_status`, argument parsing, BLIF and activity output.
- The interposer cutting code, `libvqm`, `librtlnumber`, `dev` scripts and the rest of the repository.
