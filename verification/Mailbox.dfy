/** Mailboxes, awaiters and the scheduler's ready queue: each critical section is one
    step, and the steps of producers, workers and consumers interleave freely. */
module Mailbox {

  type Id = nat      // an actor, and the handle of its coroutine
  type Msg = int

  datatype Option<T> = None | Some(value: T)

  // ---- the critical sections ------------------------------------------------------------

  class Box {
    var q: seq<Msg>
    var waiter: Option<Id>

    constructor ()
      ensures q == [] && waiter == None
    {
      q, waiter := [], None;
    }

    /** The locked part of put: the handle to schedule, if a consumer waits. */
    method Put(v: Msg) returns (toResume: Option<Id>)
      modifies this
      ensures (q, waiter, toResume) == Putting(old(q), old(waiter), v)
    {
      q := q + [v];
      toResume := None;
      if waiter.Some? {
        toResume := waiter;
        waiter := None;
      }
    }

    /** await_ready. */
    method AwaitReady() returns (captured: Option<Msg>)
      modifies this
      ensures (q, captured) == Taking(old(q)) && waiter == old(waiter)
    {
      captured := None;
      if q != [] {
        captured := Some(q[0]);
        q := q[1..];
      }
    }

    /** await_suspend: no message after all, so the handle waits. */
    method AwaitSuspend(h: Id) returns (suspended: bool, captured: Option<Msg>)
      modifies this
      ensures (q, captured) == Taking(old(q)) && suspended == captured.None?
      ensures waiter == if suspended then Some(h) else old(waiter)
    {
      suspended, captured := true, None;
      if q != [] {
        captured := Some(q[0]);
        q := q[1..];
        suspended := false;
      } else {
        waiter := Some(h);
      }
    }

    /** await_resume: the captured message, or the front of the queue, which must not
        be empty. */
    method AwaitResume(captured: Option<Msg>) returns (v: Msg)
      requires captured.None? ==> q != []
      modifies this
      ensures waiter == old(waiter)
      ensures captured.Some? ==> v == captured.value && q == old(q)
      ensures captured.None? ==> old(q) == [v] + q
    {
      if captured.Some? {
        return captured.value;
      }
      v := q[0];
      q := q[1..];
    }
  }

  class Scheduler {
    var ready: seq<Id>

    constructor ()
      ensures ready == []
    {
      ready := [];
    }

    method Schedule(h: Id)
      modifies this
      ensures ready == old(ready) + [h]
    {
      ready := ready + [h];
    }

    /** The locked part of worker_loop, once the wait is over. */
    method Pop() returns (h: Id)
      requires ready != []
      modifies this
      ensures old(ready) == [h] + ready
    {
      h := ready[0];
      ready := ready[1..];
    }
  }

  function Putting(q: seq<Msg>, waiter: Option<Id>, v: Msg): (seq<Msg>, Option<Id>, Option<Id>) {
    (q + [v], None, waiter)
  }

  function Taking(q: seq<Msg>): (seq<Msg>, Option<Msg>) {
    if q == [] then (q, None) else (q[1..], Some(q[0]))
  }

  // ---- the system -------------------------------------------------------------------------

  /** Where an actor's coroutine is: not created, created, in its body, suspended in a
      receive, or finished. */
  datatype Mode = Unborn | Created | Live | Suspended | Done

  datatype Actor = Actor(
    q: seq<Msg>,
    waiter: Option<Id>,
    mode: Mode,
    captured: Option<Msg>,
    sent: seq<Msg>,      // every message put, in the order of the puts
    got: seq<Msg>)       // every message the body received

  datatype Worker =
    | Free
    | Holding(h: Id)                 // popped, not resumed yet
    | InBody(h: Id)                  // running the actor's code
    | Checked(h: Id)                 // await_ready said no
    | Captured(h: Id)                // a message is captured, await_resume is next

  datatype State = State(
    actors: map<Id, Actor>,
    ready: seq<Id>,
    hands: map<nat, Option<Id>>,     // by producer: the handle taken by put, not scheduled yet
    workers: map<nat, Worker>)

  datatype Step =
    | Start(a: Id)
    | Put(p: nat, a: Id, v: Msg)
    | Schedule(p: nat)
    | Pop(w: nat)
    | Resume(w: nat)
    | AwaitReady(w: nat)
    | AwaitSuspend(w: nat)
    | AwaitResume(w: nat)
    | Finish(w: nat)

  function SetActor(s: State, a: Id, x: Actor): State {
    s.(actors := s.actors[a := x])
  }

  function SetWorker(s: State, w: nat, x: Worker): State {
    s.(workers := s.workers[w := x])
  }

  predicate Enabled(s: State, step: Step) {
    match step
    case Start(a) => a in s.actors && s.actors[a].mode.Unborn?
    case Put(p, a, v) => a in s.actors && p in s.hands && s.hands[p].None?
    case Schedule(p) => p in s.hands && s.hands[p].Some?
    case Pop(w) => w in s.workers && s.workers[w].Free? && s.ready != []
    case Resume(w) => w in s.workers && s.workers[w].Holding? && s.workers[w].h in s.actors
    case AwaitReady(w) => w in s.workers && s.workers[w].InBody? && s.workers[w].h in s.actors
    case AwaitSuspend(w) => w in s.workers && s.workers[w].Checked? && s.workers[w].h in s.actors
    case AwaitResume(w) =>
      && w in s.workers && s.workers[w].Captured? && s.workers[w].h in s.actors
      && s.actors[s.workers[w].h].captured.Some?
    case Finish(w) => w in s.workers && s.workers[w].InBody? && s.workers[w].h in s.actors
  }

  /** What resuming finds: a finished coroutine, a fresh one, or one in a receive, which
      takes the front of its queue. `Stuck` is the front of an empty queue. */
  function Resumed(s: State, w: nat): State
    requires Enabled(s, Resume(w)) && !Stuck(s, w)
  {
    var a := s.workers[w].h;
    var x := s.actors[a];
    match x.mode
    case Done => SetWorker(s, w, Free)
    case Suspended =>
      SetWorker(SetActor(s, a, x.(q := x.q[1..], mode := Live, got := x.got + [x.q[0]])), w, InBody(a))
    case _ => SetWorker(SetActor(s, a, x.(mode := Live)), w, InBody(a))
  }

  predicate Stuck(s: State, w: nat)
    requires Enabled(s, Resume(w))
  {
    s.actors[s.workers[w].h].mode.Suspended? && s.actors[s.workers[w].h].q == []
  }

  function Next(s: State, step: Step): State
    requires Enabled(s, step) && (step.Resume? ==> !Stuck(s, step.w))
  {
    match step
    case Start(a) => SetActor(s, a, s.actors[a].(mode := Created)).(ready := s.ready + [a])
    case Put(p, a, v) =>
      var x := s.actors[a];
      var (q, waiter, toResume) := Putting(x.q, x.waiter, v);
      SetActor(s, a, x.(q := q, waiter := waiter, sent := x.sent + [v])).(hands := s.hands[p := toResume])
    case Schedule(p) => s.(ready := s.ready + [s.hands[p].value], hands := s.hands[p := None])
    case Pop(w) => SetWorker(s, w, Holding(s.ready[0])).(ready := s.ready[1..])
    case Resume(w) => Resumed(s, w)
    case AwaitReady(w) =>
      var a := s.workers[w].h;
      var (q, captured) := Taking(s.actors[a].q);
      SetWorker(SetActor(s, a, s.actors[a].(q := q, captured := captured)), w,
                if captured.Some? then Captured(a) else Checked(a))
    case AwaitSuspend(w) =>
      var a := s.workers[w].h;
      var x := s.actors[a];
      var (q, captured) := Taking(x.q);
      if captured.Some? then SetWorker(SetActor(s, a, x.(q := q, captured := captured)), w, Captured(a))
      else SetWorker(SetActor(s, a, x.(waiter := Some(a), mode := Suspended)), w, Free)
    case AwaitResume(w) =>
      var a := s.workers[w].h;
      var x := s.actors[a];
      SetWorker(SetActor(s, a, x.(captured := None, got := x.got + [x.captured.value])), w, InBody(a))
    case Finish(w) =>
      var a := s.workers[w].h;
      SetWorker(SetActor(s, a, s.actors[a].(mode := Done)), w, Free)
  }

  // ---- the invariant ------------------------------------------------------------------------

  /** The one place where an actor's handle is. */
  datatype Place = Nowhere | Waiting | Hand(p: nat) | InReady | OnWorker(w: nat) | Over

  predicate WorkerHas(x: Worker, a: Id) {
    !x.Free? && x.h == a
  }

  /** `at` says of every handle where it is, and it is there and nowhere else. */
  ghost predicate Placed(s: State, at: map<Id, Place>) {
    && at.Keys == s.actors.Keys && Distinct(s.ready)
    && (forall a | a in s.ready :: a in at)
    && (forall p | p in s.hands && s.hands[p].Some? :: s.hands[p].value in at)
    && (forall w | w in s.workers && !s.workers[w].Free? :: s.workers[w].h in at)
    && forall a | a in s.actors :: OnlyAt(s, a, at[a]) && PlacedAt(s, a, at[a])
  }

  predicate Distinct(q: seq<Id>) {
    forall i, j | 0 <= i < j < |q| :: q[i] != q[j]
  }

  /** The handle is nowhere but there. */
  ghost predicate OnlyAt(s: State, a: Id, at: Place)
    requires a in s.actors
  {
    && (a in s.ready ==> at == InReady)
    && (forall p | p in s.hands && s.hands[p] == Some(a) :: at == Hand(p))
    && (forall w | w in s.workers && WorkerHas(s.workers[w], a) :: at == OnWorker(w))
    && (s.actors[a].waiter.Some? ==> s.actors[a].waiter.value == a && at == Waiting)
  }

  predicate PlacedAt(s: State, a: Id, at: Place)
    requires a in s.actors
  {
    match at
    case Nowhere => s.actors[a].mode.Unborn?
    case Waiting => s.actors[a].waiter == Some(a) && s.actors[a].mode.Suspended?
    case Hand(p) => p in s.hands && s.hands[p] == Some(a) && s.actors[a].mode.Suspended?
    case InReady => a in s.ready && (s.actors[a].mode.Created? || s.actors[a].mode.Suspended?)
    case OnWorker(w) =>
      && w in s.workers && WorkerHas(s.workers[w], a)
      && if s.workers[w].Holding? then s.actors[a].mode.Created?
          || s.actors[a].mode.Suspended? else s.actors[a].mode.Live?
    case Over => s.actors[a].mode.Done?
  }

  /** Messages are delivered once and in order; a waiter has nothing to receive, and a
      consumer on its way to being resumed has something. */
  predicate Fifo(s: State, at: map<Id, Place>)
    requires at.Keys == s.actors.Keys
  {
    forall a | a in s.actors :: Delivered(s, a, at[a])
  }

  predicate Delivered(s: State, a: Id, at: Place)
    requires a in s.actors
  {
    var x := s.actors[a];
    && x.sent == x.got + (if x.captured.Some? then [x.captured.value] else []) + x.q
    && (x.captured.Some? <==> at.OnWorker? && at.w in s.workers && s.workers[at.w] == Captured(a))
    && (x.waiter.Some? ==> x.q == [])
    && (x.mode.Suspended? && x.waiter.None? ==> x.q != [])
  }

  ghost predicate Inv(s: State, at: map<Id, Place>) {
    Placed(s, at) && Fifo(s, at)
  }

  /** Nothing started, nothing sent. */
  predicate Initial(s: State) {
    && s.ready == []
    && (forall a | a in s.actors :: s.actors[a] == Actor([], None, Unborn, None, [], []))
    && (forall p | p in s.hands :: s.hands[p].None?)
    && (forall w | w in s.workers :: s.workers[w].Free?)
  }

  lemma InitialInv(s: State) returns (at: map<Id, Place>)
    requires Initial(s)
    ensures Inv(s, at)
  {
    at := map a | a in s.actors :: Nowhere;
  }

  /** A woken consumer finds a message. */
  lemma NeverStuck(s: State, at: map<Id, Place>, w: nat)
    requires Inv(s, at) && Enabled(s, Resume(w))
    ensures !Stuck(s, w)
  {
    var a := s.workers[w].h;
    assert at[a] == OnWorker(w);
    assert Delivered(s, a, at[a]);
  }

  /** The handle's new place after a step. */
  ghost function Moved(s: State, at: map<Id, Place>, step: Step): map<Id, Place>
    requires Inv(s, at) && Enabled(s, step)
  {
    match step
    case Start(a) => at[a := InReady]
    case Put(p, a, v) => if s.actors[a].waiter.Some? then at[a := Hand(p)] else at
    case Schedule(p) => at[s.hands[p].value := InReady]
    case Pop(w) => at[s.ready[0] := OnWorker(w)]
    case AwaitSuspend(w) => if s.actors[s.workers[w].h].q == [] then at[s.workers[w].h := Waiting] else at
    case Finish(w) => at[s.workers[w].h := Over]
    case _ => at
  }

  /** A step that concerns actor `a` leaves every other actor where it was. */
  ghost predicate Others(s: State, s': State, at: map<Id, Place>, at': map<Id, Place>, a: Id) {
    && a in s.actors && s'.actors.Keys == s.actors.Keys && at'.Keys == at.Keys == s.actors.Keys
    && (forall b | b in s.actors && b != a :: s'.actors[b] == s.actors[b] && at'[b] == at[b])
    && Distinct(s'.ready) && (forall b | b != a :: b in s'.ready <==> b in s.ready)
    && s'.hands.Keys == s.hands.Keys
    && (forall p, b | p in s.hands && b != a :: s'.hands[p] == Some(b) <==> s.hands[p] == Some(b))
    && s'.workers.Keys == s.workers.Keys
    && (forall w, b | w in s.workers && b != a && (WorkerHas(s.workers[w], b) || WorkerHas(s'.workers[w], b)) ::
          s'.workers[w] == s.workers[w])
  }

  lemma OthersKeep(s: State, s': State, at: map<Id, Place>, at': map<Id, Place>, a: Id)
    requires Inv(s, at) && Others(s, s', at, at', a)
    requires OnlyAt(s', a, at'[a]) && PlacedAt(s', a, at'[a]) && Delivered(s', a, at'[a])
    ensures Inv(s', at')
  {
    hide OnlyAt, PlacedAt, Delivered, Distinct;
    forall b | b in s'.actors
      ensures OnlyAt(s', b, at'[b]) && PlacedAt(s', b, at'[b]) && Delivered(s', b, at'[b])
    {
      if b != a {
        OtherKeeps(s, s', at, at', a, b);
      }
    }
    forall p | p in s'.hands && s'.hands[p].Some? ensures s'.hands[p].value in at' {
      if s'.hands[p].value != a { assert s.hands[p] == Some(s'.hands[p].value); }
    }
    forall w | w in s'.workers && !s'.workers[w].Free? ensures s'.workers[w].h in at' {
      if s'.workers[w].h != a { assert WorkerHas(s'.workers[w], s'.workers[w].h); }
    }
  }

  lemma OtherKeeps(s: State, s': State, at: map<Id, Place>, at': map<Id, Place>, a: Id, b: Id)
    requires Inv(s, at) && Others(s, s', at, at', a) && b in s.actors && b != a
    ensures OnlyAt(s', b, at'[b]) && PlacedAt(s', b, at'[b]) && Delivered(s', b, at'[b])
  {
    assert OnlyAt(s, b, at[b]) && PlacedAt(s, b, at[b]) && Delivered(s, b, at[b]);
    forall w | w in s'.workers && WorkerHas(s'.workers[w], b) ensures at'[b] == OnWorker(w) {
      assert s'.workers[w] == s.workers[w];
    }
  }

  /** The actor a step concerns. */
  function Concerns(s: State, step: Step): Id
    requires Enabled(s, step)
  {
    match step
    case Start(a) => a
    case Put(p, a, v) => a
    case Schedule(p) => s.hands[p].value
    case Pop(w) => s.ready[0]
    case _ => s.workers[step.w].h
  }

  lemma ConcernsAt(s: State, at: map<Id, Place>, step: Step)
    requires Inv(s, at) && Enabled(s, step)
    ensures var a := Concerns(s, step);
      a in s.actors && a in at && OnlyAt(s, a, at[a]) && PlacedAt(s, a, at[a]) && Delivered(s, a, at[a])
    ensures at.Keys == s.actors.Keys && Distinct(s.ready)
  {
    match step
    case Pop(w) => assert s.ready[0] in s.ready;
    case _ =>
  }

  /** The step moves one actor's handle, to where `Moved` says, and disturbs no other. */
  ghost predicate Moves(s: State, at: map<Id, Place>, step: Step)
    requires Inv(s, at) && Enabled(s, step) && (step.Resume? ==> !Stuck(s, step.w))
  {
    var s', at', a := Next(s, step), Moved(s, at, step), Concerns(s, step);
    && Others(s, s', at, at', a)
    && OnlyAt(s', a, at'[a]) && PlacedAt(s', a, at'[a]) && Delivered(s', a, at'[a])
  }

  /** A step of worker `w` on actor `a`: nobody else notices. */
  lemma WorkerOthers(s: State, at: map<Id, Place>, at': map<Id, Place>, a: Id, w: nat, y: Actor, x: Worker)
    requires at.Keys == s.actors.Keys && Distinct(s.ready) && a in s.actors && w in s.workers
    requires WorkerHas(s.workers[w], a) && (x.Free? || x.h == a)
    requires at'.Keys == at.Keys && forall b | b in at && b != a :: at'[b] == at[b]
    ensures Others(s, SetWorker(SetActor(s, a, y), w, x), at, at', a)
  {
  }

  lemma StartStep(s: State, at: map<Id, Place>, a: Id)
    requires Inv(s, at) && Enabled(s, Start(a))
    ensures Moves(s, at, Start(a))
  {
    hide Placed, Fifo;
    ConcernsAt(s, at, Start(a));
  }

  lemma PutStep(s: State, at: map<Id, Place>, p: nat, a: Id, v: Msg)
    requires Inv(s, at) && Enabled(s, Put(p, a, v))
    ensures Moves(s, at, Put(p, a, v))
  {
    hide Placed, Fifo;
    ConcernsAt(s, at, Put(p, a, v));
  }

  lemma ScheduleStep(s: State, at: map<Id, Place>, p: nat)
    requires Inv(s, at) && Enabled(s, Schedule(p))
    ensures Moves(s, at, Schedule(p))
  {
    hide Placed, Fifo;
    ConcernsAt(s, at, Schedule(p));
  }

  lemma PopStep(s: State, at: map<Id, Place>, w: nat)
    requires Inv(s, at) && Enabled(s, Pop(w))
    ensures Moves(s, at, Pop(w))
  {
    hide Placed, Fifo;
    ConcernsAt(s, at, Pop(w));
  }

  lemma ResumeStep(s: State, at: map<Id, Place>, w: nat)
    requires Inv(s, at) && Enabled(s, Resume(w)) && !Stuck(s, w)
    ensures Moves(s, at, Resume(w))
  {
    hide Placed, Fifo;
    ConcernsAt(s, at, Resume(w));
    var s', a := Next(s, Resume(w)), Concerns(s, Resume(w));
    WorkerOthers(s, at, Moved(s, at, Resume(w)), a, w, s'.actors[a], s'.workers[w]);
    assert s' == SetWorker(SetActor(s, a, s'.actors[a]), w, s'.workers[w]);
    hide Others;
  }

  lemma AwaitReadyStep(s: State, at: map<Id, Place>, w: nat)
    requires Inv(s, at) && Enabled(s, AwaitReady(w))
    ensures Moves(s, at, AwaitReady(w))
  {
    hide Placed, Fifo;
    ConcernsAt(s, at, AwaitReady(w));
    var s', a := Next(s, AwaitReady(w)), Concerns(s, AwaitReady(w));
    WorkerOthers(s, at, Moved(s, at, AwaitReady(w)), a, w, s'.actors[a], s'.workers[w]);
    assert s' == SetWorker(SetActor(s, a, s'.actors[a]), w, s'.workers[w]);
    hide Others;
  }

  lemma AwaitSuspendStep(s: State, at: map<Id, Place>, w: nat)
    requires Inv(s, at) && Enabled(s, AwaitSuspend(w))
    ensures Moves(s, at, AwaitSuspend(w))
  {
    hide Placed, Fifo;
    ConcernsAt(s, at, AwaitSuspend(w));
    var s', a := Next(s, AwaitSuspend(w)), Concerns(s, AwaitSuspend(w));
    WorkerOthers(s, at, Moved(s, at, AwaitSuspend(w)), a, w, s'.actors[a], s'.workers[w]);
    assert s' == SetWorker(SetActor(s, a, s'.actors[a]), w, s'.workers[w]);
    hide Others;
  }

  lemma AwaitResumeStep(s: State, at: map<Id, Place>, w: nat)
    requires Inv(s, at) && Enabled(s, AwaitResume(w))
    ensures Moves(s, at, AwaitResume(w))
  {
    hide Placed, Fifo;
    ConcernsAt(s, at, AwaitResume(w));
    var s', a := Next(s, AwaitResume(w)), Concerns(s, AwaitResume(w));
    WorkerOthers(s, at, Moved(s, at, AwaitResume(w)), a, w, s'.actors[a], s'.workers[w]);
    assert s' == SetWorker(SetActor(s, a, s'.actors[a]), w, s'.workers[w]);
    hide Others;
  }

  lemma FinishStep(s: State, at: map<Id, Place>, w: nat)
    requires Inv(s, at) && Enabled(s, Finish(w))
    ensures Moves(s, at, Finish(w))
  {
    hide Placed, Fifo;
    ConcernsAt(s, at, Finish(w));
    var s', a := Next(s, Finish(w)), Concerns(s, Finish(w));
    WorkerOthers(s, at, Moved(s, at, Finish(w)), a, w, s'.actors[a], s'.workers[w]);
    assert s' == SetWorker(SetActor(s, a, s'.actors[a]), w, s'.workers[w]);
    hide Others;
  }

  lemma StepMoves(s: State, at: map<Id, Place>, step: Step)
    requires Inv(s, at) && Enabled(s, step) && (step.Resume? ==> !Stuck(s, step.w))
    ensures Moves(s, at, step)
  {
    hide Inv, Moves, Enabled;
    match step
    case Start(a) => StartStep(s, at, a);
    case Put(p, a, v) => PutStep(s, at, p, a, v);
    case Schedule(p) => ScheduleStep(s, at, p);
    case Pop(w) => PopStep(s, at, w);
    case Resume(w) => ResumeStep(s, at, w);
    case AwaitReady(w) => AwaitReadyStep(s, at, w);
    case AwaitSuspend(w) => AwaitSuspendStep(s, at, w);
    case AwaitResume(w) => AwaitResumeStep(s, at, w);
    case Finish(w) => FinishStep(s, at, w);
  }

  /** Every step of every thread keeps the invariant. */
  lemma StepKeeps(s: State, at: map<Id, Place>, step: Step)
    requires Inv(s, at) && Enabled(s, step) && (step.Resume? ==> !Stuck(s, step.w))
    ensures Inv(Next(s, step), Moved(s, at, step))
  {
    StepMoves(s, at, step);
    hide Placed, Fifo, Others, OnlyAt, PlacedAt, Delivered;
    OthersKeep(s, Next(s, step), at, Moved(s, at, step), Concerns(s, step));
  }

  // ---- all interleavings -------------------------------------------------------------------------

  /** A schedule of steps from an initial state, with the states it passes. */
  ghost predicate Behaviour(states: seq<State>, steps: seq<Step>) {
    && |states| == |steps| + 1 && Initial(states[0])
    && forall k | 0 <= k < |steps| :: Follows(states[k], steps[k], states[k + 1])
  }

  ghost predicate Follows(s: State, step: Step, s': State) {
    Enabled(s, step) && (step.Resume? ==> !Stuck(s, step.w)) && s' == Next(s, step)
  }

  lemma {:induction false} Reached(states: seq<State>, steps: seq<Step>, k: nat) returns (at: map<Id, Place>)
    requires Behaviour(states, steps) && k <= |steps|
    ensures Inv(states[k], at)
  {
    hide Inv, Enabled, Next;
    if k == 0 {
      at := InitialInv(states[0]);
    } else {
      var before := Reached(states, steps, k - 1);
      assert Follows(states[k - 1], steps[k - 1], states[k - 1 + 1]);
      StepKeeps(states[k - 1], before, steps[k - 1]);
      at := Moved(states[k - 1], before, steps[k - 1]);
    }
  }

  // ---- what a schedule says --------------------------------------------------------------------

  /** The values that the first `k` steps put to `a`, in order. */
  function PutTo(steps: seq<Step>, k: nat, a: Id): seq<Msg>
    requires k <= |steps|
  {
    if k == 0 then [] else PutTo(steps, k - 1, a) + PutBy(steps[k - 1], a)
  }

  function PutBy(step: Step, a: Id): seq<Msg> {
    match step
    case Put(_, b, v) => if b == a then [v] else []
    case _ => []
  }

  /** The values that receives of `a` returned in the first `k` steps, in order. */
  function ReceivedBy(states: seq<State>, steps: seq<Step>, k: nat, a: Id): seq<Msg>
    requires k <= |steps| <= |states|
  {
    if k == 0 then [] else ReceivedBy(states, steps, k - 1, a) + ReturnedBy(states[k - 1], steps[k - 1], a)
  }

  /** A receive returns the captured message, or, when its consumer is resumed in it, the front of
      the queue. */
  function ReturnedBy(s: State, step: Step, a: Id): seq<Msg> {
    match step
    case AwaitResume(w) =>
      if w in s.workers && WorkerHas(s.workers[w], a) && a in s.actors && s.actors[a].captured.Some? then
        [s.actors[a].captured.value]
      else []
    case Resume(w) =>
      if w in s.workers && WorkerHas(s.workers[w], a) && a in s.actors && s.actors[a].mode.Suspended? then
        s.actors[a].q[..if s.actors[a].q == [] then 0 else 1]
      else []
    case _ => []
  }

  /** The handles that the first `k` steps made ready, in order, and those that workers took. */
  function MadeReady(states: seq<State>, steps: seq<Step>, k: nat): seq<Id>
    requires k <= |steps| <= |states|
  {
    if k == 0 then [] else MadeReady(states, steps, k - 1) + ReadiedBy(states[k - 1], steps[k - 1])
  }

  function ReadiedBy(s: State, step: Step): seq<Id> {
    match step
    case Start(a) => [a]
    case Schedule(p) => if p in s.hands && s.hands[p].Some? then [s.hands[p].value] else []
    case _ => []
  }

  function Taken(states: seq<State>, steps: seq<Step>, k: nat): seq<Id>
    requires k <= |steps| < |states|
  {
    if k == 0 then [] else Taken(states, steps, k - 1) + TakenBy(steps[k - 1], states[k])
  }

  /** The handle that a worker has after it popped one. */
  function TakenBy(step: Step, s': State): seq<Id> {
    match step
    case Pop(w) => if w in s'.workers && !s'.workers[w].Free? then [s'.workers[w].h] else []
    case _ => []
  }

  /** How many of the first `k` steps pop a handle. */
  function Pops(steps: seq<Step>, k: nat): nat
    requires k <= |steps|
  {
    if k == 0 then 0 else Pops(steps, k - 1) + if steps[k - 1].Pop? then 1 else 0
  }

  lemma StepLogged(s: State, step: Step, s': State, a: Id)
    requires Follows(s, step, s') && a in s'.actors
    ensures a in s.actors && s'.actors[a].sent == s.actors[a].sent + PutBy(step, a)
    ensures s'.actors[a].got == s.actors[a].got + ReturnedBy(s, step, a)
  {
  }

  lemma {:induction false} Logged(states: seq<State>, steps: seq<Step>, k: nat, a: Id)
    requires Behaviour(states, steps) && k <= |steps| && a in states[k].actors
    ensures states[k].actors[a].sent == PutTo(steps, k, a)
    ensures states[k].actors[a].got == ReceivedBy(states, steps, k, a)
    decreases k
  {
    hide Follows, ReturnedBy, PutBy;
    if k > 0 {
      assert Follows(states[k - 1], steps[k - 1], states[k - 1 + 1]);
      StepLogged(states[k - 1], steps[k - 1], states[k], a);
      Logged(states, steps, k - 1, a);
    }
  }

  lemma StepReady(s: State, step: Step, s': State)
    requires Follows(s, step, s')
    ensures s.ready + ReadiedBy(s, step) == TakenBy(step, s') + s'.ready
    ensures |TakenBy(step, s')| == if step.Pop? then 1 else 0
  {
  }

  /** Handles leave the ready queue in the order in which they entered it, one at each pop. */
  lemma {:induction false} ReadyInOrder(states: seq<State>, steps: seq<Step>, k: nat)
    requires Behaviour(states, steps) && k <= |steps|
    ensures MadeReady(states, steps, k) == Taken(states, steps, k) + states[k].ready
    ensures |Taken(states, steps, k)| == Pops(steps, k)
    decreases k
  {
    hide Follows, ReadiedBy, TakenBy;
    if k > 0 {
      assert Follows(states[k - 1], steps[k - 1], states[k - 1 + 1]);
      StepReady(states[k - 1], steps[k - 1], states[k]);
      ReadyInOrder(states, steps, k - 1);
      Regroup(Taken(states, steps, k - 1), states[k - 1].ready, ReadiedBy(states[k - 1], steps[k - 1]),
              TakenBy(steps[k - 1], states[k]), states[k].ready);
    }
  }

  lemma Regroup(taken: seq<Id>, ready: seq<Id>, more: seq<Id>, took: seq<Id>, rest: seq<Id>)
    requires ready + more == took + rest
    ensures (taken + ready) + more == (taken + took) + rest
  {
    assert (taken + ready) + more == taken + (ready + more);
  }

  /** No worker ever resumes a consumer that finds its queue empty, so no behaviour stops
      there. */
  lemma NoEmptyFront(states: seq<State>, steps: seq<Step>, k: nat, w: nat)
    requires Behaviour(states, steps) && k <= |steps| && Enabled(states[k], Resume(w))
    ensures !Stuck(states[k], w)
  {
    var at := Reached(states, steps, k);
    NeverStuck(states[k], at, w);
  }

  /** Nor one that has finished. */
  lemma NeverFinished(states: seq<State>, steps: seq<Step>, k: nat, w: nat)
    requires Behaviour(states, steps) && k <= |steps| && Enabled(states[k], Resume(w))
    ensures !states[k].actors[states[k].workers[w].h].mode.Done?
  {
    var at := Reached(states, steps, k);
    var a := states[k].workers[w].h;
    assert OnlyAt(states[k], a, at[a]) && PlacedAt(states[k], a, at[a]);
  }

  /** A producer never waits: it can put to any actor, or schedule the handle that it holds; and an actor
      can be started. */
  lemma ProducersGo(states: seq<State>, steps: seq<Step>, k: nat, p: nat, a: Id, v: Msg)
    requires Behaviour(states, steps) && k <= |steps| && p in states[k].hands && a in states[k].actors
    ensures if states[k].hands[p].None? then Enabled(states[k], Put(p, a, v)) else Enabled(states[k], Schedule(p))
    ensures states[k].actors[a].mode.Unborn? ==> Enabled(states[k], Start(a))
  {
    hide Follows, Initial;
  }

  /** A worker waits for a ready handle only; in its body an actor can receive or finish. */
  lemma WorkersGo(states: seq<State>, steps: seq<Step>, k: nat, w: nat)
    requires Behaviour(states, steps) && k <= |steps| && w in states[k].workers
    ensures match states[k].workers[w]
      case Free => states[k].ready != [] ==> Enabled(states[k], Pop(w))
      case Holding(_) => Enabled(states[k], Resume(w)) && !Stuck(states[k], w)
      case InBody(_) => Enabled(states[k], AwaitReady(w)) && Enabled(states[k], Finish(w))
      case Checked(_) => Enabled(states[k], AwaitSuspend(w))
      case Captured(_) => Enabled(states[k], AwaitResume(w))
  {
    hide Inv, Stuck, Follows, Initial;
    var at := Reached(states, steps, k);
    if !states[k].workers[w].Free? { WorkerGoes(states[k], at, w); }
  }

  lemma WorkerGoes(s: State, at: map<Id, Place>, w: nat)
    requires Inv(s, at) && w in s.workers && !s.workers[w].Free?
    ensures s.workers[w].h in s.actors
    ensures s.workers[w].Captured? ==> s.actors[s.workers[w].h].captured.Some?
    ensures s.workers[w].Holding? ==> Enabled(s, Resume(w)) && !Stuck(s, w)
  {
    var a := s.workers[w].h;
    assert a in at && WorkerHas(s.workers[w], a);
    assert OnlyAt(s, a, at[a]) && Delivered(s, a, at[a]);
    hide PlacedAt, Placed, Fifo;
    if s.workers[w].Holding? { NeverStuck(s, at, w); }
  }

  /** Two workers never hold or run the same coroutine, and one that a worker has waits
      nowhere else. */
  lemma NeverTwice(states: seq<State>, steps: seq<Step>, k: nat, a: Id, w: nat, u: nat)
    requires Behaviour(states, steps) && k <= |steps| && w in states[k].workers && u in states[k].workers
    requires a in states[k].actors && WorkerHas(states[k].workers[w], a)
    ensures WorkerHas(states[k].workers[u], a) ==> u == w
    ensures a !in states[k].ready && states[k].actors[a].waiter.None?
    ensures forall p | p in states[k].hands :: states[k].hands[p] != Some(a)
  {
    var at := Reached(states, steps, k);
    assert OnlyAt(states[k], a, at[a]);
  }

  /** What the receives of an actor returned is what the schedule put to it, in order and once each, up
      to what is captured or queued; and a set waiter means the queue is empty. */
  lemma InOrderOnce(states: seq<State>, steps: seq<Step>, k: nat, a: Id)
    requires Behaviour(states, steps) && k <= |steps| && a in states[k].actors
    ensures var x := states[k].actors[a];
      && PutTo(steps, k, a) ==
         ReceivedBy(states, steps, k, a) + (if x.captured.Some? then [x.captured.value] else []) + x.q
      && (x.waiter.Some? ==> x.q == [])
  {
    hide Follows;
    var at := Reached(states, steps, k);
    assert Delivered(states[k], a, at[a]);
    Logged(states, steps, k, a);
  }

  /** No wake-up is lost: a suspended consumer with a message is on its way to a worker. */
  lemma NoLostWakeup(states: seq<State>, steps: seq<Step>, k: nat, a: Id)
    requires Behaviour(states, steps) && k <= |steps| && a in states[k].actors
    requires states[k].actors[a].mode.Suspended? && states[k].actors[a].q != []
    ensures a in states[k].ready
      || (exists p :: p in states[k].hands && states[k].hands[p] == Some(a))
      || exists w :: w in states[k].workers && states[k].workers[w] == Holding(a)
  {
    var at := Reached(states, steps, k);
    assert Delivered(states[k], a, at[a]) && PlacedAt(states[k], a, at[a]);
  }

  /** No deadlock: while a message waits for a started consumer, some thread other than
      a sender can take a step. */
  lemma Progress(states: seq<State>, steps: seq<Step>, k: nat, a: Id) returns (step: Step)
    requires Behaviour(states, steps) && k <= |steps| && a in states[k].actors && states[k].workers.Keys != {}
    requires states[k].actors[a].q != [] && !states[k].actors[a].mode.Unborn? && !states[k].actors[a].mode.Done?
    ensures Enabled(states[k], step) && !step.Put? && !step.Start?
  {
    var s := states[k];
    var at := Reached(states, steps, k);
    assert Delivered(s, a, at[a]) && PlacedAt(s, a, at[a]);
    match at[a]
    case Hand(p) => step := Schedule(p);
    case OnWorker(w) => step := WorkerStep(s, at, w);
    case InReady =>
      var w :| w in s.workers.Keys;
      if s.workers[w].Free? {
        step := Pop(w);
      } else {
        step := WorkerStep(s, at, w);
      }
  }

  /** A busy worker can always go on. */
  lemma WorkerStep(s: State, at: map<Id, Place>, w: nat) returns (step: Step)
    requires Inv(s, at) && w in s.workers && !s.workers[w].Free?
    ensures Enabled(s, step) && !step.Put? && !step.Start?
  {
    var a := s.workers[w].h;
    assert a in at && WorkerHas(s.workers[w], a);
    assert OnlyAt(s, a, at[a]) && Delivered(s, a, at[a]);
    match s.workers[w]
    case Holding(_) => step := Resume(w);
    case InBody(_) => step := AwaitReady(w);
    case Checked(_) => step := AwaitSuspend(w);
    case Captured(_) => step := AwaitResume(w);
  }
}
