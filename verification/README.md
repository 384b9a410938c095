# A verified model of the verification engines

The repository builds hardware model checking from nothing: a CDCL SAT solver, a gate DAG with
its CNF encoding and ternary simulation, BMC, k-induction, IC3, liveness-to-safety, localization
refinement, and DPLL(T) over bit-vectors and arrays. This project models those engines in
Dafny, with the state they update in place, and proves what each verdict means for every
system, run and valuation. Four smaller cores follow: the count-annotated decision diagram of
the constraint compilers, the bounded-window monitor, the coroutine mailbox and scheduler, and
the two-phase actor simulator.

One semantics carries the engines. `Circuit` gives signals a Boolean value under a valuation of
names, `Transition` gives a system its runs and `BadAt`/`Safe`, and `Sat` says what a set of
clauses means. The solver is proved once, as a class (`Cdcl.Solver`); everything above it uses
only its contract. `Frames` and `Queries` turn that contract into one about traces: the models
of the clauses, read through the variables of each cycle, are exactly the intended runs.

| part | modules |
|---|---|
| SAT | `Sat`, `Trail`, `WatchLists`, `Learning`, `Formula`, `Search`, `Cdcl` |
| gates and encoding | `Circuit`, `Ternary`, `Encoding` |
| systems, BMC, k-induction | `Transition`, `Frames`, `Bmc`, `KInduction` |
| IC3 | `Ic3Spec`, `Lifting`, `Queries`, `Ic3`, `OnePass`, `Convergence`, `Pdr`, `Generalization` |
| liveness, localization | `LassoSpec`, `Liveness`, `Cegar` |
| words and arrays | `Modular`, `BitVec`, `Terms`, `Coefficients`, `NormalForm`, `BitBlast`, `Substitution`, `Chains`, `Smt`, `Blame`, `ArraySpec`, `Arrays`, `Elimination`, `ArraySmt`, `Capture`, `WordAddresses`, `WordReads` |
| decision diagrams, windows | `BddSpec`, `Bdd`, `Windows` |
| actors | `Mailbox`, `ActorSim`, `WideBits` |
| small helpers | `Sets`, `Decimal` |

## Where the code falls short

Each of these has an input on which it happens and a condition for when it does not.

- A core can be stale. `solve` returns on the empty-clause flag before it clears
  `conflict_core` (cdcl.py:298-303). `Cdcl.StaleCore` is such a history of calls; `Cdcl.Solver.Solve`
  states exactly when the core is a subset of the assumptions.
- Memory addresses alias. A read lowers a write address at the width of the read address, which
  cuts a wider word, and it cuts the read address to what the write address is then
  (word.py:137-139); an `extract` keeps a width of its own, on either side (word.py:159-161). So
  a write at a 4-bit extract is seen by reads of other 8-bit addresses (`WordAddresses.NarrowWrite`),
  and a write at an 8-bit word by reads at a 4-bit extract (`WordAddresses.NarrowRead`). A datum
  that keeps a width of its own is not cut to the entries either (word.py:138), so a memory of bytes
  can give 0x100 back (`WordAddresses.WideDatum`). Every read over independent words is right if
  and only if every write address fits the read and every datum the entries:
  `WordAddresses.ReadsRightIff`, and `WordAddresses.NumberIff` for constant addresses.
- Generated names capture. A word of the problem called `__sel1` (smt.py:209) is confused with
  the first read: `Capture.Captured` runs the elimination on such a problem. The elimination is
  exact on all problems over a set of words if and only if the set has no such name:
  `Capture.NamesIff`. A witness it leads to is right in any case.
- Forcing a signal can lose later writes (actor_sim.h:248-251, 505-519): `ActorSim.ForcedWriteLost`,
  with the exact condition in `ActorSim.WriteEffect`. A flip-flop forces its reset value on its
  output when it is built (actor_sim.h:307-315), so one with reset value 1 and input 0 is still 1
  after the first tick: `ActorSim.FirstTickMissed`. `ActorSim.Sim.Tick` says exactly which output
  misses its input. Forcing notifies nobody: a buffer built before the flip-flop that it reads keeps
  its old value (`ActorSim.BufferMissed`), and `ActorSim.Sim.AddDff` says exactly when all is in order.
- `_generalize` promises a minimal inductive cube (ic3.py:190-192), but drops literals in one pass
  although relative induction is not monotone: `Generalization.NotMinimal` is a pass that leaves
  a cube with a droppable literal. `OnePass.EveryOrderIff` says exactly when no order of the literals
  can do so, and `Generalization.NoGainMinimal` gives a guard on the steps of the frame. The cube that
  `_lift` returns is minimal in the sense of `Lifting.Lift`.
- `theory_check` promises a minimal inconsistent set (smt.py:308) and returns the disequality with
  every equality that the substitution used, needed or not: `Blame.NotMinimal`. It is minimal if and
  only if the definitions used can be ranked and none is spare (`Blame.MinimalIff`). They cannot when
  one is on a cycle of variables or is a self-equality, as the elimination makes for a read at the
  address just written (smt.py:213): `Blame.RankableIff`.
- Substitution may never end (smt.py:321-333): `Blame.Endless`. `Blame.DepthIff` says exactly when
  some recursion depth is enough.
- Memories called `m@0` and `m_0` share the words of their reads (word.py:143), so that no model has
  different contents of the two: `WordReads.MangledWrong`. The reader is modelled for memories whose
  names stay apart.

That IC3 comes to a verdict at all, given enough frames, the code nowhere argues: `Pdr.Engine.Solve` has
the bound. Two promises rest on invariants the code never states: that IC3's obligations avoid reset, so
that it may learn from them unchecked (`Ic3Spec.ObligationAvoidsInit`), and that a resumed
consumer always finds a message (`Mailbox.NoEmptyFront`).

## Model

| member | source | states |
|---|---|---|
| `Cdcl.Solver.Solve` | ch3_fv_examples/01_proof_engines/cdcl.py:296-369 | Exact and terminating over any history of added clauses and earlier calls: True leaves a valuation satisfying every clause ever added and every assumption; False means no valuation does. The conflict core is always refuted together with the clauses, and it is a subset of the assumptions if and only if the empty-clause flag was down before the call or the core left over from earlier already was one; with the flag up the old core is returned untouched. Otherwise the core is empty, at a conflict at the root, or that of the first assumption that the ones before it falsify: itself and the assumptions decided on from which antecedents lead to it, and no others. |
| `Cdcl.StaleCore` | ch3_fv_examples/01_proof_engines/cdcl.py:296-302 | Calls that make the core wrong: after a failed solve under one assumption and an added empty clause, the next solve reports a core that is not among the assumptions asked. |
| `Cdcl.Solver.AddClause` | ch3_fv_examples/01_proof_engines/cdcl.py:106-135 | Keeps the invariant and adds exactly the clause, through tautologies, repetitions, units and the empty clause, from any decision level; the unsatisfiable flag rises exactly on a False return, and then no valuation satisfies what was added. |
| `Cdcl.Solver.Search` | ch3_fv_examples/01_proof_engines/cdcl.py:314-369 | The search loop under its invariant: a model of all clauses and assumptions, or a core of assumptions refuted by the clauses. It terminates although restarts and backjumps undo decisions. |
| `Cdcl.Solver.Advance` | ch3_fv_examples/01_proof_engines/cdcl.py:342-369 | No conflict pending: the verdict, if any, is right, and otherwise an unassigned variable was used up or an assumption consumed. |
| `Cdcl.Solver.Propagate` | ch3_fv_examples/01_proof_engines/cdcl.py:173-218 | Unit propagation to a fixpoint or to a falsified clause of the current level. Without conflict every clause is properly watched for the whole trail; with one, for everything below the current level. Clauses only get their literals reordered and the trail only grows. |
| `Cdcl.Solver.ScanList` | ch3_fv_examples/01_proof_engines/cdcl.py:179-217 | One watch list scanned over a copy: which clauses keep their watch on the falsified literal, which moved to another list, and that the clauses after a conflict stay listed. |
| `Cdcl.Solver.CancelUntil` | ch3_fv_examples/01_proof_engines/cdcl.py:160-170 | Backtracking leaves exactly the trail up to the level, nothing when already there, and lowers the queue head to the end of the trail. |
| `Cdcl.Solver.Analyze` | ch3_fv_examples/01_proof_engines/cdcl.py:241-283 | The learned clause is entailed by the clauses, false now, has exactly one literal of the current level, first, and a literal of the backjump level second; the marks are cleared. Its variables are those left when resolving down the trail with the antecedents first leaves one variable of the current level: the first unique implication point. |
| `Cdcl.Solver.Learn` | ch3_fv_examples/01_proof_engines/cdcl.py:316-328 | Learning and backjumping strictly enlarge the finite set of known clauses (as literal sets): the reason the search ends. |
| `Cdcl.Solver.Record` | ch3_fv_examples/01_proof_engines/cdcl.py:285-293 | After the backjump the learned clause is kept, a unit as a root fact, nothing known is lost, and the watch invariant holds again, which needs the asserting literal on the trail. |
| `Cdcl.Solver.AssumptionCore` | ch3_fv_examples/01_proof_engines/cdcl.py:371-396 | The traced core consists of assumptions and the clauses refute it, without the other assumptions; an assumption is in it exactly when it is the failed one or a decision from which antecedents lead to that. |
| `Cdcl.Solver.EmptyUnsat` | ch3_fv_examples/01_proof_engines/cdcl.py:124-130 | The unsatisfiable flag is up only when no valuation satisfies the clauses. |
| `Search.LearntIsNew` | ch3_fv_examples/01_proof_engines/cdcl.py:241-293 | Complete propagation below the conflict makes the learned clause, as a set of literals, differ from every stored clause and root fact. |
| `Search.DecisionsAssumed` | ch3_fv_examples/01_proof_engines/cdcl.py:343-355 | While some assumption already scanned is false, every decision on the trail is one of the scanned assumptions. |
| `Search.CompleteModel` | ch3_fv_examples/01_proof_engines/cdcl.py:361-365 | All variables assigned and the watch invariant over the whole trail: the assignment satisfies every clause ever added, although no final check is made. |
| `Search.CoreImplies` | ch3_fv_examples/01_proof_engines/cdcl.py:382-396 | Every traced literal holds in any model of the clauses and the core: induction along the trail. |
| `Learning.UipAsserting` | ch3_fv_examples/01_proof_engines/cdcl.py:262-270 | When the marks of the current level are used up the clause is entailed and asserting. |
| `Learning.SomeMarked` | ch3_fv_examples/01_proof_engines/cdcl.py:247-264 | A conflict that touches the current level leaves a marked literal there, so the downward scan of the trail always finds one. |
| `Trail.CutKeepsWatch` | ch3_fv_examples/01_proof_engines/cdcl.py:160-170 | Backtracking keeps the two-watched-literal invariant for all of the shorter trail. |
| `WatchLists.MovedWatch` | ch3_fv_examples/01_proof_engines/cdcl.py:196-203 | Moving a watch leaves every list listing exactly clauses that watch its literal, without repetition, and every clause in the lists of both its watches. |
| `Circuit.NOT` | ch3_fv_examples/01_proof_engines/circuit.py:50-55 | The simplifying negation means negation and reads no new names. |
| `Circuit.AND` | ch3_fv_examples/01_proof_engines/circuit.py:58-70 | Constants folded and one argument unwrapped, the result is the conjunction, of nothing too, under every valuation. |
| `Circuit.OR` | ch3_fv_examples/01_proof_engines/circuit.py:73-85 | Likewise for disjunction. |
| `Circuit.XOR` | ch3_fv_examples/01_proof_engines/circuit.py:88-93 | Constant cases and the gate alike mean exclusive or. |
| `Circuit.ITE` | ch3_fv_examples/01_proof_engines/circuit.py:108-111 | The constant-condition cases and the gate alike choose. |
| `Circuit.EvalSupport` | ch3_fv_examples/01_proof_engines/circuit.py:287-301 | A signal depends on the names it reads and on nothing else. |
| `Encoding.Tseitin` | ch3_fv_examples/01_proof_engines/circuit.py:141-179 | In every model of the clauses the returned literal is the value of the signal, every model of the clauses before extends to the new ones, and all earlier memo entries stay right, so calls can share one memo. |
| `Encoding.GateMeans` | ch3_fv_examples/01_proof_engines/circuit.py:154-170 | The clauses emitted for a gate hold exactly when its variable has the value of the gate. |
| `Encoding.GateGrows` | ch3_fv_examples/01_proof_engines/circuit.py:154-170 | Naming a gate with a fresh variable is a conservative extension: every model extends, and old variables keep their values. |
| `Encoding.TrueLit` | ch3_fv_examples/01_proof_engines/circuit.py:118-124 | The constant-true literal is made once, true in every model, and conservative. |
| `Ternary.TernaryEval` | ch3_fv_examples/01_proof_engines/circuit.py:233-284 | The explicit-stack evaluation ends and equals recursive Kleene evaluation, and leaves a memo that is right for later calls under the same environment. |
| `Ternary.Monotone` | ch3_fv_examples/01_proof_engines/circuit.py:233-284 | Knowing more inputs never changes a definite answer. |
| `Ternary.Definite` | ch3_fv_examples/01_proof_engines/circuit.py:233-284 | A definite answer under unknowns is the Boolean value under every completion. |
| `Ternary.ExactKleene` | ch3_fv_examples/01_proof_engines/circuit.py:233-284 | With every input known the ternary value is the Boolean one. |
| `Ternary.SupportOf` | ch3_fv_examples/01_proof_engines/circuit.py:287-301 | The worklist returns exactly the names that occur. |
| `BitVec.BvAdd` | ch3_fv_examples/01_proof_engines/circuit.py:363-373 | The ripple-carry adder, operands padded or cut to the width, is addition mod 2^w. |
| `BitVec.BvMul` | ch3_fv_examples/01_proof_engines/circuit.py:376-384 | The shift-and-add array is multiplication mod 2^w. |
| `BitVec.BvSub` | ch3_fv_examples/01_proof_engines/circuit.py:387-392 | a + (~b + 1) is subtraction mod 2^w, for operands of any widths. |
| `BitVec.BvInc` | ch3_fv_examples/01_proof_engines/circuit.py:347-352 | Increment mod 2^w. |
| `Frames.FreshFrame` | ch3_fv_examples/01_proof_engines/circuit.py:424-437 | One fresh variable for each state bit and input: the models become exactly the traces one cycle longer, the new cycle arbitrary. |
| `Frames.AssertInit` | ch3_fv_examples/01_proof_engines/circuit.py:457-460 | The models become exactly the traces whose cycle has the reset state. |
| `Frames.NextEnv` | ch3_fv_examples/01_proof_engines/circuit.py:440-454 | A literal of the next-state function for every state bit, and fresh variables for the inputs, without losing a trace. |
| `Frames.Tie` | ch3_fv_examples/01_proof_engines/bmc.py:20-26 | The models become exactly the traces in which the later cycle is the successor of the earlier. |
| `Frames.Check` | ch3_fv_examples/01_proof_engines/cdcl.py:296-369 | The answer of the solver read as one about traces: a trace, or there is none. |
| `Transition.TransitionSystem.AddStateBit` | ch3_fv_examples/01_proof_engines/circuit.py:410-413 | The declaration is added and nothing else changes. |
| `Bmc.Unroll` | ch3_fv_examples/01_proof_engines/bmc.py:29-36 | The models of the unrolled clauses are exactly the runs of k steps from reset. |
| `Bmc.Bmc` | ch3_fv_examples/01_proof_engines/bmc.py:57-81 | A counterexample is of the least depth at which bad is reachable and comes with the trace of such a run; without one, bad is unreachable at every depth within the bound. |
| `KInduction.KInduction` | ch3_fv_examples/01_proof_engines/kinduction.py:48-85 | PROVED: bad is unreachable at every depth, also for a bad that reads inputs, and k is the least depth at which the step holds. CEX: of least depth, with its trace. STALLED: no bad below the bound, and the step fails at every k, with a counterexample to the last. |
| `KInduction.Inductive` | ch3_fv_examples/01_proof_engines/kinduction.py:48-85 | No bad below depth k and no path of k good cycles into a bad one: no bad at any depth. |
| `KInduction.StepQuery` | ch3_fv_examples/01_proof_engines/kinduction.py:64-82 | The query is satisfiable exactly when a counterexample to induction exists, and its rows show one. |
| `Pdr.Engine.Solve` | ch3_fv_examples/01_proof_engines/ic3.py:256-300 | Terminates. SAFE: the clauses hold at reset, are inductive and exclude bad, so bad is unreachable; they are those of the frames after the first that its successor contains, or none when no frame has any. UNSAFE: bad is reachable, not at any depth below the frontier, whose index is reported, and the cube kept meets reset and reaches bad. UNKNOWN: no bad below the frame bound; a fresh engine has then pushed every clause as far as it goes without two frames converging, and the bound is at most Enough: above it the answer is always SAFE or UNSAFE. |
| `Convergence.StepFurther` | ch3_fv_examples/01_proof_engines/ic3.py:243-254 | Among more frames than states two neighbours have the same states; then the frontier is clean and a round without verdict pushes, from the first frame that has any left, all the shortest clauses, which nothing ousts again: why IC3 decides. |
| `Convergence.EqualOn` | ch3_fv_examples/01_proof_engines/ic3.py:243-254 | Once two neighbours have the same states, all later frames have them. |
| `Convergence.NeighboursFound` | ch3_fv_examples/01_proof_engines/ic3.py:243-254 | Two of the first frames, one more than there are states, have the same states. |
| `Convergence.ShortPushed` | ch3_fv_examples/01_proof_engines/ic3.py:243-252 | Pushing a clause ousts only clauses longer than any shortest one that the next frame lacked. |
| `Convergence.StateCount` | ch3_fv_examples/01_proof_engines/ic3.py:256-300 | The number of states in the bound is 2 to the number of state bits. |
| `Pdr.Engine.Block` | ch3_fv_examples/01_proof_engines/ic3.py:213-241 | The obligation queue is worked off and the cube blocked at the frontier, or a cube that meets reset reaches bad; the frame invariant holds throughout, and the loop ends. |
| `Pdr.Engine.Step` | ch3_fv_examples/01_proof_engines/ic3.py:217-240 | One obligation, of least level: blocked, and queued again for the next frame below the frontier, or put back behind a cube of predecessors that meets the frame below. Every queued one still has all its states able to reach bad and none reachable too early, and the measure falls (states left in the frames, then the level of the fresh obligation, then the summed distances to the frontier). |
| `Ic3Spec.PredecessorObligation` | ch3_fv_examples/01_proof_engines/ic3.py:225-239 | The predecessor pushed for an obligation is an obligation one level down. |
| `Ic3Spec.RequeuedObligation` | ch3_fv_examples/01_proof_engines/ic3.py:234-235 | A blocked obligation is one at the next level. |
| `Ic3Spec.ObligationAvoidsInit` | ch3_fv_examples/01_proof_engines/ic3.py:224-228 | No obligation above level 0 meets reset: what the engine never checks before it learns. |
| `Ic3Spec.BadObligation` | ch3_fv_examples/01_proof_engines/ic3.py:270-277 | A bad cube of the frontier is an obligation. |
| `Ic3Spec.AddKeeps` | ch3_fv_examples/01_proof_engines/ic3.py:203-211 | Learning a clause that holds at reset and is inductive relative to the frame below keeps all the frame invariants and only shrinks frames. |
| `Ic3Spec.RunInFrame` | ch3_fv_examples/01_proof_engines/ic3.py:72-78 | Frame F_i contains every state reachable in at most i steps. |
| `Ic3Spec.Converged` | ch3_fv_examples/01_proof_engines/ic3.py:243-254 | Equal neighbouring frames: their clauses are an inductive invariant that excludes bad. |
| `Ic3Spec.NothingLearned` | ch3_fv_examples/01_proof_engines/ic3.py:286-291 | A clean frontier with no clause anywhere: every state is good, and the empty invariant proves it. |
| `Pdr.LearnedMeasure` | ch3_fv_examples/01_proof_engines/ic3.py:226-235 | Learning excludes a state of some frame, or else the obligation was already blocked and moves up or out. |
| `Pdr.Engine.Generalize` | ch3_fv_examples/01_proof_engines/ic3.py:190-201 | The result is that of one pass over the literals, each once and in some order, dropping a literal when what is left is not empty, avoids reset and has a negation inductive relative to the frame below; the result avoids reset and its negation is so inductive. |
| `OnePass.PassWay` | ch3_fv_examples/01_proof_engines/ic3.py:190-201 | The way of a pass: it drops one literal at a time, and each literal left could not be dropped at some set on the way, between the result and the cube. |
| `OnePass.EveryOrderIff` | ch3_fv_examples/01_proof_engines/ic3.py:190-201 | Every order of the literals gives a minimal cube if and only if there is no trap: no way of dropping literals that ends in a cube with a droppable literal, each literal left having been undroppable somewhere on it. The condition speaks of cubes and not of runs. |
| `Generalization.NoGainMinimal` | ch3_fv_examples/01_proof_engines/ic3.py:190-201 | If no step of the frame keeps one literal of the cube and gains another, every order gives a minimal cube. |
| `Generalization.NotMinimal` | ch3_fv_examples/01_proof_engines/ic3.py:190-201 | Three bits, reset 000, 101 to 011, 010 to 110: in the order 1, 2, 3 the pass keeps 1 and 3, though 1 can be dropped from what is left. |
| `Pdr.Engine.AddBlocked` | ch3_fv_examples/01_proof_engines/ic3.py:203-211 | Frames 1 to the level take the clause and lose just what it strictly subsumes; the others stay. |
| `Pdr.Engine.PushFrame` | ch3_fv_examples/01_proof_engines/ic3.py:244-252 | Every clause of the frame that is inductive relative to it is in the next frame, up to subsumption; the next frame took only clauses of this one, no other frame changed, and no frame up to this one lost a state. It is the next frame as it becomes when the clauses are taken one after the other, in some order. |
| `Pdr.Engine.Propagate` | ch3_fv_examples/01_proof_engines/ic3.py:243-254 | The frame reported is the first whose nonempty predecessor is contained in it; every frame before is fully pushed and not so contained, and with none reported that is true of all frames. |
| `Lifting.Lift` | ch3_fv_examples/01_proof_engines/ic3.py:101-141 | Every state of the cube meets the targets under the recorded inputs, and the recorded state is in the cube. No literal can be left out, for without it a target is indefinite; when no state bit matters at all it is the whole minterm. |
| `Ic3.FindBad` | ch3_fv_examples/01_proof_engines/ic3.py:143-151 | A cube of bad states containing a bad one of the frame, lifted so that no literal can be dropped; or the frame has none. |
| `Ic3.Predecessor` | ch3_fv_examples/01_proof_engines/ic3.py:153-168 | A cube of states that all step into the given one, lifted as far as it goes from a state of the frame outside the given cube; or its negation is inductive relative to the frame. |
| `Ic3.IsInductive` | ch3_fv_examples/01_proof_engines/ic3.py:177-188 | The query is unsatisfiable exactly when the clause is inductive relative to the frame. |
| `Ic3.InitIntersects` | ch3_fv_examples/01_proof_engines/ic3.py:170-175 | Exactly when the reset state is in the cube. |
| `Ic3.InitIntersectsBad` | ch3_fv_examples/01_proof_engines/ic3.py:302-306 | Exactly when some input makes the reset state bad. |
| `Queries.Query` | ch3_fv_examples/01_proof_engines/ic3.py:45-58 | One free cycle: every valuation is a model, and the next-state literals asked for are right in every model, although only their cones are encoded. |
| `Queries.AssertFrame` | ch3_fv_examples/01_proof_engines/ic3.py:72-78 | The models become exactly the states of the frame. |
| `LassoSpec.Exact` | ch3_fv_examples/01_proof_engines/liveness.py:59-107 | Bad is unreachable in the watching system if and only if no infinite run, obeying the assumptions in every cycle, has some a never followed by b in that cycle or later. |
| `LassoSpec.BadStarves` | ch3_fv_examples/01_proof_engines/liveness.py:59-107 | A bad cycle gives such a run: the loop it closes is pumped. |
| `LassoSpec.StarvesBad` | ch3_fv_examples/01_proof_engines/liveness.py:59-107 | Such a run gives a bad cycle: a watched state comes back, and the oracle saves its first occurrence. |
| `Liveness.LivenessToSafety` | ch3_fv_examples/01_proof_engines/liveness.py:59-107 | The system built is the watching system, declares each name once and reads only declared names, and its safety is the liveness property under every assumption in every cycle; it has no assumptions or liveness properties of its own. |
| `Liveness.ApplyAssumptions` | ch3_fv_examples/01_proof_engines/liveness.py:38-56 | Without assumptions the system itself; with them, bad is reachable at a depth exactly when the design is bad there on a run that obeyed the assumptions in every cycle so far: each assumption in each cycle. |
| `Liveness.GuardExact` | ch3_fv_examples/01_proof_engines/liveness.py:38-56 | The latch construction is exact at every depth, in both directions. |
| `Cegar.Cegar` | ch3_fv_examples/01_proof_engines/cegar.py:113-158 | SAFE: the design is safe, by an invariant of the kept bits to which the proof engine converged. UNSAFE: the trace is a run of the design that ends bad, and no shorter one exists. UNKNOWN: the rounds ran out, each having kept one more bit; or the proof engine gave up, which it can only below its bound; or the abstraction is unsafe but only beyond the depth searched, exactly two more than the frames of the engine, so the design is not bad up to it. With enough rounds and frames only the last remains. The bits kept start as those that bad reads, and each round adds those on which a shortest counterexample of the abstraction first diverges from the design. At most one round more than there are state bits, whatever the bound. |
| `Cegar.Refine` | ch3_fv_examples/01_proof_engines/cegar.py:144-157 | A spurious round adds just the freed bits that are read and differ in the first cycle that diverges: the kept set strictly grows, and the fallback for an empty divergence is never needed. |
| `Cegar.SpuriousDiverges` | ch3_fv_examples/01_proof_engines/cegar.py:144-155 | A counterexample that does not replay differs from simulation, in some cycle, on a freed bit that the abstraction reads. |
| `Cegar.KeptAgree` | ch3_fv_examples/01_proof_engines/cegar.py:144-155 | If the replay agreed on every freed bit that is read it would agree on the kept bits and on everything bad reads. |
| `Cegar.LocalizedSafe` | ch3_fv_examples/01_proof_engines/cegar.py:39-51 | Safe on the abstraction, safe on the design. |
| `Cegar.LocalizedRun` | ch3_fv_examples/01_proof_engines/cegar.py:39-51 | Every run of the design is a run of the abstraction. |
| `Cegar.Localize` | ch3_fv_examples/01_proof_engines/cegar.py:39-51 | The kept bits keep their functions and reset values, the others become inputs; the result is well formed over the same names. |
| `Cegar.Simulate` | ch3_fv_examples/01_proof_engines/cegar.py:70-87 | The rows are the run of the design under the recorded inputs, up to its first bad cycle if there is one. |
| `Cegar.Frontier.Read` | ch3_fv_examples/01_proof_engines/cegar.py:106-110 | Exactly the freed state bits that bad or a kept next-state function reads. |
| `ArraySmt.Solve` | ch3_fv_examples/01_proof_engines/smt.py:345-403 | For every problem: a witness, with some arrays, satisfies the clauses. UNSAT means no valuation of words and arrays does, unless the problem has reads and uses one of the first names, as many as it makes reads. What each answer rests on, the skeleton answer and the recursion limit included, is that of the loop, run on the problem itself without reads and on a complete reduction of it with them. |
| `ArraySmt.Equisatisfiable` | ch3_fv_examples/01_proof_engines/smt.py:179-228 | The array-free problem has a model if and only if the original has one, when the problem uses none of the names generated for it. |
| `ArraySmt.Reduces` | ch3_fv_examples/01_proof_engines/smt.py:179-228 | A model, with every read named by its value, satisfies the rewritten clauses and all the axioms. |
| `ArraySmt.Reflects` | ch3_fv_examples/01_proof_engines/smt.py:179-228 | A model of the rewriting, with arrays read off the named reads, satisfies the original, whatever names it uses; the words need not change. |
| `ArraySmt.EliminateArrays` | ch3_fv_examples/01_proof_engines/smt.py:179-228 | For every problem: what the elimination leaves behind meets the lemmas above; every new atom is array-free, no equality is listed twice, either way round, and every name is of a read that the problem makes. |
| `Capture.Captured` | ch3_fv_examples/01_proof_engines/smt.py:179-228 | The elimination run on m[0] = s, ..., m[n-1] = s, none of which is to hold, where s is the n-th generated name: what it returns has no model, though the problem has. |
| `Capture.NamesIff` | ch3_fv_examples/01_proof_engines/smt.py:208-210 | For a set of words: the elimination is exact on every problem over them if and only if none of them is a name that can be generated. |
| `ArraySmt.NamesCounted` | ch3_fv_examples/01_proof_engines/smt.py:194-210 | No more names are generated than the problem makes reads. |
| `Elimination.Eliminator.Elim` | ch3_fv_examples/01_proof_engines/smt.py:196-223 | The term with each read replaced by its name in the table; every read is named once, its clauses are all there, and the tables only grow. |
| `Elimination.Eliminator.ElimSelect` | ch3_fv_examples/01_proof_engines/smt.py:202-222 | A read of nested writes gets a name, both read-over-write clauses at each write, and congruence with the earlier reads at the array variable. |
| `Elimination.Eliminator.Atom` | ch3_fv_examples/01_proof_engines/smt.py:186-192 | The index of the equality, written either way round; a new one only if there was none. |
| `ArraySpec.ExtendNamed` | ch3_fv_examples/01_proof_engines/smt.py:196-223 | Giving the names, in order, the values of their reads makes every name right. |
| `ArraySpec.ReadNamed` | ch3_fv_examples/01_proof_engines/smt.py:208-222 | With the clauses of every read, arrays read off the names answer every read with the value of its name, through any nesting of writes. |
| `ArraySpec.AxiomHolds` | ch3_fv_examples/01_proof_engines/smt.py:211-218 | Each emitted clause holds when every name has the value of its read. |
| `Smt.SolveAtoms` | ch3_fv_examples/01_proof_engines/smt.py:345-403 | UNSAT: no valuation satisfies the clauses, every lemma holds under all valuations, the clauses and lemmas have no propositional model, and each lemma blocks an assignment that the clauses and the lemmas before it allow: what the theory check blames in it, or all of it when only bit-blasting refutes it. A witness gives each word of the atoms a value of the width and satisfies the clauses; the assignment it stands for passed the theory check. The skeleton answer, without bit-blasting only, is an assignment that satisfies the clauses and passed the theory check. The recursion limit is hit on an assignment that satisfies the clauses. The loop ends: each lemma removes the current skeleton model. |
| `Smt.TheoryCheck` | ch3_fv_examples/01_proof_engines/smt.py:306-342 | Consistent exactly when every side of every disequality can be rewritten within the depth and no disequality is between what the equalities make the same polynomial. Too deep at the first disequality with a side that is, if none before is such. A conflict is the first such disequality with exactly the equalities that substituting into its two sides uses; these atoms cannot have their assigned truth values together under any valuation. |
| `Smt.Apply` | ch3_fv_examples/01_proof_engines/smt.py:321-333 | The term with the definitions substituted all the way down, which has the value of the term wherever the equalities used hold; it comes out exactly when the depth is enough. |
| `Coefficients.CanonicalSame` | ch3_fv_examples/01_proof_engines/smt.py:143-147 | Normal forms are equal if and only if the terms are the same polynomial mod 2^w. |
| `Coefficients.ProductTables` | ch3_fv_examples/01_proof_engines/smt.py:126-132 | Multiplying tables of coefficients gives the table of the product, whatever the order of the items. |
| `Smt.Substitutions` | ch3_fv_examples/01_proof_engines/smt.py:311-319 | The first true equality that defines a variable wins, left side before right side. |
| `Smt.AcyclicEnough` | ch3_fv_examples/01_proof_engines/smt.py:321-333 | When the defining equalities can be ranked, some recursion depth is enough for the whole check. |
| `Blame.DepthIff` | ch3_fv_examples/01_proof_engines/smt.py:321-333 | Some recursion depth is enough if and only if the definitions reached from the disequalities can be ranked through compound terms: cycles of variables alone do no harm. |
| `Blame.Endless` | ch3_fv_examples/01_proof_engines/smt.py:321-333 | x = x + 1 and x != 0: no depth is enough. |
| `Blame.MinimalIff` | ch3_fv_examples/01_proof_engines/smt.py:336-342 | Of every conflict reported: what is blamed, inconsistent as reported, is a minimal inconsistent set if and only if the definitions used can be ranked and substituting without any one of the equalities used leaves the sides of the disequality different functions mod 2^w. |
| `Blame.RankableIff` | ch3_fv_examples/01_proof_engines/smt.py:321-329 | The definitions that a conflict uses can be ranked if and only if none is on a cycle of variables, a self-equality included: the chase goes round such a cycle once and stops. |
| `Blame.CycleSpare` | ch3_fv_examples/01_proof_engines/smt.py:321-329 | An equality on a cycle of variables follows from the others on it; so a self-equality can always be left out. |
| `Blame.RefutedIff` | ch3_fv_examples/01_proof_engines/smt.py:336-342 | A disequality and defining equalities whose definitions can be substituted within some depth, cycles of variables included, are inconsistent if and only if substituting some of those definitions, which can be ranked, makes its sides the same function. Definitions that never end, as x = x + 1, are outside. |
| `Blame.RankedRefuted` | ch3_fv_examples/01_proof_engines/smt.py:336-342 | When the definitions themselves can be ranked: the disequality and the equalities are inconsistent if and only if substituting just those definitions makes its sides the same function. |
| `Blame.UsedDefined` | ch3_fv_examples/01_proof_engines/smt.py:321-333 | Every definition that a conflict uses can be substituted within the depth at which its sides could. |
| `Blame.NotMinimal` | ch3_fv_examples/01_proof_engines/smt.py:306-342 | The check run on x = y and x * 0 != 0: it blames both, though the disequality is inconsistent by itself. With x for y the equality is x = x, which cannot be ranked. |
| `Smt.BlockingLemma` | ch3_fv_examples/01_proof_engines/smt.py:384-398 | The lemma holds under every valuation and is false in the current assignment. |
| `NormalForm.NormalForm` | ch3_fv_examples/01_proof_engines/smt.py:108-140 | The table holds exactly the nonzero coefficients mod 2^w, reduced, of the term multiplied out, and has its value under every valuation. |
| `NormalForm.ProvablyEqual` | ch3_fv_examples/01_proof_engines/smt.py:143-147 | True if and only if the terms are the same polynomial mod 2^w, coefficient by coefficient; then they have equal values under every valuation. |
| `NormalForm.Times` | ch3_fv_examples/01_proof_engines/smt.py:126-132 | The product of two polynomials, equal monomials merged: its coefficients are the convolution mod 2^w, and its value the product of the values. |
| `BitBlast.Lower` | ch3_fv_examples/01_proof_engines/smt.py:234-250 | The bits of the circuit are the value of the term mod 2^w, whatever the words. |
| `BitBlast.BitblastAll` | ch3_fv_examples/01_proof_engines/smt.py:406-432 | A witness gives every word of the atoms a value of the width and every atom its assigned truth value; without one no valuation does. |
| `WordReads.Reader.Select` | ch3_fv_examples/01_proof_engines/word.py:132-148 | Whatever memory the base reads are of, the bits returned have the value of the chain: every write address lowered at the width of the read and compared on as many bits as it then has, every datum lowered at the width of the entries. |
| `WordReads.Reader.Exact` | ch3_fv_examples/01_proof_engines/word.py:141-147 | A valuation of all the leaves satisfies the asserted congruence clauses only if the reads are of some memory, and any values of the leaves of the design and any contents are those of such a valuation. |
| `WordAddresses.ChainExact` | ch3_fv_examples/01_proof_engines/word.py:132-148 | When every write address fits the read and every datum the entries, the chain is the memory, in every state and for all contents. Addresses: a word no wider than the read address, an address of its own width not narrower, a sum of the same width or unable to carry, an offset of the same width or of nothing, a constant below the range. Data: anything that is cut to the entries, and what keeps its width only if it is no wider. |
| `WordAddresses.ReadsRightIff` | ch3_fv_examples/01_proof_engines/word.py:132-139 | Over a whole chain of writes whose addresses, data and read address are independent: the read is right in every state and for all contents if and only if every write address fits it and every datum fits the entries, but for data that no read can see. |
| `WordAddresses.AddressesMustFit` | ch3_fv_examples/01_proof_engines/word.py:132-139 | Whatever the data: with independent addresses of which one does not fit, some read is wrong. |
| `WordAddresses.WideDatum` | ch3_fv_examples/01_proof_engines/word.py:135-139 | Sixteen bits taken out of a word, 0x100, stored in a memory of bytes, are read back as 0x100. |
| `WordAddresses.NumberIff` | ch3_fv_examples/01_proof_engines/word.py:152-153 | A write at a constant is right for a read at any address independent of the datum if and only if the constant fits the read and, unless it is beyond every read, the datum the entries; a read of no width included. |
| `WordAddresses.NarrowWrite` | ch3_fv_examples/01_proof_engines/word.py:159-161 | A write at the low four bits of a word, 0x3, is seen by a read of another word at 0x13. |
| `WordAddresses.NarrowRead` | ch3_fv_examples/01_proof_engines/word.py:135-139 | A write at a word, 0x13, is seen by a read at the low four bits of another, 0x3. |
| `WordAddresses.WordsIndependent` | ch3_fv_examples/01_proof_engines/word.py:109-116 | Distinct words are independent: the write addresses, the data and the read address can take any values together. |
| `WordReads.LowerAt` | ch3_fv_examples/01_proof_engines/word.py:118-121 | The address or datum of a write as a read lowers it: cut, padded or computed at the width given, or kept at its own. |
| `WordReads.MangledWrong` | ch3_fv_examples/01_proof_engines/word.py:143 | Of two memories whose names differ in @ and _ only the reads are one word: no model has the entries 0 of one and 1 of the other, whatever the addresses. |
| `WordReads.BvEq` | ch3_fv_examples/01_proof_engines/circuit.py:324-328 | Equality of numbers, the shorter word padded with zeros. |
| `WordReads.BvIte` | ch3_fv_examples/01_proof_engines/circuit.py:340-344 | The number chosen by the condition, at the larger width. |
| `Windows.WindowExact` | ch3_fv_examples/01_proof_engines/frontend.py:2237-2267 | In every cycle of every run the constraint fails exactly when the antecedent held hi cycles ago and the consequent failed at every age from lo to hi, overlapping attempts included. |
| `Windows.ChainHolds` | ch3_fv_examples/01_proof_engines/frontend.py:2249-2262 | Register k is up exactly when an attempt is k cycles old and undischarged. |
| `Windows.Desugar` | ch3_fv_examples/01_proof_engines/frontend.py:2237-2267 | Every window gets its own chain; its constraint joins the property or the assumptions, and nothing declared before changes; the only bits added are the registers, and inputs, bad and liveness stay. |
| `Bdd.Bijection` | appF_synthesize_constraints/02_constructive_samplers/tier1_bdd/build_bdd.py:70-80 | For every variable order and predicate: an assignment satisfies the predicate if and only if some rank below the count unranks to it, and larger ranks give later assignments in level order, so no two meet. |
| `Bdd.Compile` | appF_synthesize_constraints/01_constraint_compiler/csc.py:291-314 | The root count is the number of assignments that satisfy the predicate, and the nodes stand for its table, one for each table met at a level and no others. |
| `Bdd.Builder.Build` | appF_synthesize_constraints/02_constructive_samplers/tier1_bdd/build_bdd.py:48-60 | The node returned stands for the table at the level, and nodes are only added: one for each cofactor of the table, by level, that had none. |
| `Bdd.Unrank` | appF_synthesize_constraints/01_constraint_compiler/csc.py:416-426 | The loop over levels returns the assignment of the walk, each value under its variable. |
| `Bdd.RootMask` | appF_synthesize_constraints/02_constructive_samplers/tier1_bdd/build_bdd.py:62-66 | Row s of the table is the predicate at the assignment that s encodes through the order. |
| `Bdd.LevelsSolve` | appF_synthesize_constraints/02_constructive_samplers/tier1_bdd/build_bdd.py:62-66 | The solutions of the root table are exactly the satisfying assignments, read level by level. |
| `Cegar.AbstractCex` | ch3_fv_examples/01_proof_engines/cegar.py:54-67 | The shortest counterexample of the abstraction within the bound, over all its names, or there is none. |
| `BddSpec.CountExact` | appF_synthesize_constraints/01_constraint_compiler/csc.py:291-314 | The count of a node is the size of the set of solutions of its table. |
| `BddSpec.WalkOrder` | appF_synthesize_constraints/01_constraint_compiler/csc.py:416-426 | The walk is strictly increasing in the rank. |
| `BddSpec.WalkAll` | appF_synthesize_constraints/01_constraint_compiler/csc.py:416-426 | Every solution is the walk of some rank below the count. |
| `Mailbox.StepKeeps` | actor_pkg_cpp/include/coro_actor.h:173-277 | Every step of every producer, worker and starter keeps the invariant: each handle in exactly one place, a waiting consumer only at an empty queue, and messages in order. |
| `Mailbox.NoEmptyFront` | actor_pkg_cpp/include/coro_actor.h:268-276 | In no reachable state does a worker resume a consumer that has nothing captured and an empty queue. |
| `Mailbox.NeverTwice` | actor_pkg_cpp/include/coro_actor.h:173-209 | No coroutine is with two workers, or with one and also queued, waiting, or in the hands of a producer. |
| `Mailbox.InOrderOnce` | actor_pkg_cpp/include/coro_actor.h:223-277 | For every schedule: what the receives of an actor returned, then what is captured, then what is queued is exactly what the steps put to it, first in, first out, once each. |
| `Mailbox.ReadyInOrder` | actor_pkg_cpp/include/coro_actor.h:173-209 | Handles leave the ready queue in the order in which they entered it, one at each pop. |
| `Mailbox.NeverFinished` | actor_pkg_cpp/include/coro_actor.h:205-207 | No worker ever resumes a finished coroutine; the guard is never needed. |
| `Mailbox.ProducersGo` | actor_pkg_cpp/include/coro_actor.h:223-235 | In every reachable state a producer can put to any actor or schedule the handle it holds. |
| `Mailbox.WorkersGo` | actor_pkg_cpp/include/coro_actor.h:190-209 | In every reachable state a worker can go on, but a free one with nothing ready. |
| `Mailbox.NoLostWakeup` | actor_pkg_cpp/include/coro_actor.h:223-266 | A suspended consumer with a message is ready, in the hands of a producer, or held by a worker. |
| `Mailbox.Progress` | actor_pkg_cpp/include/coro_actor.h:173-277 | While a message waits for a started consumer that has not finished, some step other than a send or start is possible. |
| `Mailbox.Box.Put` | actor_pkg_cpp/include/coro_actor.h:223-235 | The message is queued last and the waiting handle, if any, taken out in the same step. |
| `Mailbox.Box.AwaitSuspend` | actor_pkg_cpp/include/coro_actor.h:257-266 | The queue is looked at again: a message is captured, or the handle waits. |
| `Mailbox.Box.AwaitResume` | actor_pkg_cpp/include/coro_actor.h:268-276 | The captured message, or the front of the queue. |
| `ActorSim.Sim.Propagate` | appI_actor_sim/actor_sim.h:469-491 | When it returns normally nothing is dirty and the outputs of every block are its function of the current inputs; signals no block drives are unchanged. Without combinational loops and with at most 198 blocks in a row it does return. |
| `ActorSim.Oscillator` | appI_actor_sim/actor_sim.h:469-491 | A block that inverts its own output has no settled state, so that propagation gives up when it is added. |
| `ActorSim.Sim.Tick` | appI_actor_sim/actor_sim.h:424-439 | After the cycle each Q is the settled value its D had before the edge, and every block is settled on the new values. The one exception, exactly: a Q that was forced and not written since keeps its value when that D has just its stale next value. |
| `ActorSim.Sim.Edges` | appI_actor_sim/actor_sim.h:433-435 | The edge phase reads only settled pre-edge values, whatever the order of the modules. |
| `ActorSim.Sim.CommitAll` | appI_actor_sim/actor_sim.h:472-478 | Every pending value becomes current, and every block whose inputs changed is queued, exactly once. |
| `ActorSim.Sim.FireAll` | appI_actor_sim/actor_sim.h:479-485 | Every queued block runs once; what it writes is driven by it and no other, so the blocks run before still follow their inputs. |
| `ActorSim.Sim.Reset` | appI_actor_sim/actor_sim.h:418-421 | Every flip-flop output has its reset value, but for a stale one whose stale value that is, and the blocks are settled. |
| `ActorSim.Sim.AddComb` | appI_actor_sim/actor_sim.h:406-415 | The block joins with its sensitivity list and is settled at once. |
| `ActorSim.Sim.Write` | appI_actor_sim/actor_sim.h:505-519 | A write of a signal that is not stale takes effect: the value it is about to have is the one written, retracted and repeated writes included. |
| `ActorSim.WriteEffect` | appI_actor_sim/actor_sim.h:505-519 | For any signal: a write takes effect if and only if one is pending, or it repeats the current value, or it is not the stale next value. |
| `ActorSim.ForcedWriteLost` | appI_actor_sim/actor_sim.h:248-251 | After a forced value, writing the stale value back is ignored. |
| `ActorSim.FirstTickMissed` | appI_actor_sim/actor_sim.h:307-325 | A simulator with one flip-flop of reset value 1 and input 0: after the first tick its output is still 1. |
| `ActorSim.Sim.AddDff` | appI_actor_sim/actor_sim.h:307-315 | The constructor forces the reset value on the output, and everything else stays as it was; the simulator is in order if and only if the blocks that read the output already still follow their inputs. |
| `ActorSim.BufferMissed` | appI_actor_sim/actor_sim.h:307-315 | A buffer built before the flip-flop that it reads, whose reset value is 1, stays 0. |
| `ActorSim.SettledUnique` | appI_actor_sim/actor_sim.h:469-491 | Without combinational loops the settled values are a function of the undriven ones: the order of evaluation cannot matter. |
| `ActorSim.ClockedUnique` | appI_actor_sim/actor_sim.h:424-439 | Without combinational loops the state after a tick is a function of the state before. |
| `WideBits.Plus` | appI_actor_sim/actor_sim.h:141-156 | The word-by-word sum with carries, top word masked, is the sum mod 2^W. |
| `WideBits.Minus` | appI_actor_sim/actor_sim.h:157-172 | The word-by-word difference with borrows, top word masked, is the difference mod 2^W. |
| `WideBits.ValueUnique` | appI_actor_sim/actor_sim.h:113-114 | Word arrays of one width are equal exactly when their numbers are. |

## Left out

- The interpolation engine (interp.py), the certificate and proof printers, the demonstrations and command lines.
- VSIDS activities and saved phases: the branching variable and its sign are arbitrary, so the results hold for every heuristic.
- Heap order among obligations of one level, and the order in which sets are visited: arbitrary.
- Clause objects are indices into one table; problem and learned clauses share it, and the `learnt` flag, which nothing reads, is gone.
- Signals are compared by structure and not by object identity, so equal gates share a memo entry that the code would make twice; the cached supports of IC3 are recomputed.
- The growth factor of the restart interval is three halves in integers, not a floating product.
- Names, tracing and printing everywhere; the decoding of multi-bit names in counterexample traces.
- The names that the constructions generate (`__save`, `__pending`, `__saved`, `__triggered`, `__assm_ok`, `__shadow_` and the window registers) must not be names of the design, and reads to come must not use words of the design.
- Cegar.Cegar: whether the search bound taken from IC3's frames always reaches the counterexample that IC3 found is not decided; the contract says what UNKNOWN means when it does not.
- NormalForm.ProvablyEqual: False does not mean that the values differ, since different polynomials can agree mod 2^w everywhere; the source promises no more.
- Pdr.Engine.Generalize: not minimal, as said above; what it returns is that of one pass in some order.
- Generalization.NoGainMinimal: one way only; the condition for every order in both directions is OnePass.EveryOrderIff.
- Smt.Apply: carries a recursion depth, since substitutions that are cyclic through compound terms recurse for ever in the source; Blame.DepthIff says exactly when some depth is enough.
- Blame.RefutedIff: for definitions that can be substituted within some depth, as those of every conflict can (Blame.UsedDefined); equalities that define a variable by a compound term over itself can be inconsistent, or not, for reasons that substitution does not see.
- WordAddresses.ReadsRightIff: constants as write addresses are left to ChainExact and NumberIff, since a constant above can hide a write below; an address or datum is a word, a sum of two, a word plus or minus a constant, a constant, or bits of its own width, and products, differences of words, logic, shifts and if-then-else are not modelled.
- The address width of a memory: a variable has an entry for every number, so that a read at an address of its own width, when wider than the memory's, reads an entry beyond it. The source makes such a read congruent with reads of the same number only, and does not wrap it round either.
- ActorSim.Sim.Propagate: that a chain of more than 198 blocks does exhaust the rounds is not stated; that a netlist without a settled state does follows from the contract, as in ActorSim.Oscillator.
- Runs of the simulator from a state in which a flip-flop built late has left a block behind; ActorSim.Sim.AddDff says exactly which states those are.
- The width argument of the bit-vector gates is the width they compute at; the source's width 0, which stands for the larger operand width, is a call with that width.
- Term kinds that the arithmetic engine refuses (bitwise, comparison, shift, ite, extract, concat) and bare equalities between arrays, which the source rejects; equalities of arithmetic terms over nested reads and writes are all modelled.
- One-call variants of what is modelled: bitblast_equiv, one_step_inductive.
- Of word.py only the reader is modelled: addresses and data are already bits, all leaves of the design exist from the start, and the asserted signals are kept as a list whose encoding is Encoding.Tseitin. Its two unrolling loops repeat the shape of BMC and k-induction.
- Of frontend.py only the window lowering, over signals in place of syntax trees; the parser, elaboration and cone reduction are not modelled.
- Of csc.py and build_bdd.py the tables and the walk; truth tables are bit sequences, and the 16-bit truncation of counts, the random index and the emitted SystemVerilog text are not modelled.
- Mailbox and scheduler shutdown, timestamps, publishing and thread-per-actor variants. Each locked section is one step, and threads interleave in any order; a consumer's body is any sequence of receives.
- Signals and modules of the simulator are table indices; signal values are integers. Bit access, logic operators and text forms of wide words are not modelled.
