/**
Admission control for graph reads and deletes (src/scs/graph/gating.py).

Every `with self._condition` block is one atomic step of a thread.  A waiting thread sleeps until it is
notified (a spurious wake-up is allowed too) and then looks at its condition again.
*/
module Gate {
  datatype Flags = Flags(readers: nat, reserved: bool, active: bool)

  /** Idle, in a read, blocked at the entry of a mutation, draining readers, or in a mutation. */
  datatype Phase = Idle | Reading | Entering | Draining | Mutating

  datatype Thread = Thread(phase: Phase, asleep: bool)

  const IDLE := Thread(Idle, false)

  /** What a critical section leaves: the flags, the thread, and whether it notified the sleepers. */
  datatype Section = Section(flags: Flags, thread: Thread, notify: bool)

  function EnterRead(f: Flags): Section {
    if f.reserved || f.active then Section(f, IDLE, false)
    else Section(f.(readers := f.readers + 1), Thread(Reading, false), false)
  }

  function LeaveRead(f: Flags): Section
    requires f.readers > 0
  {
    Section(f.(readers := f.readers - 1), IDLE, f.readers == 1)
  }

  /** Wait behind other mutations, then reserve, then wait for the reads in flight. */
  function EnterMutation(f: Flags): Section {
    if f.reserved || f.active then Section(f, Thread(Entering, true), false)
    else Drain(f.(reserved := true))
  }

  function Drain(f: Flags): Section {
    if f.readers > 0 then Section(f, Thread(Draining, true), false)
    else Section(f.(reserved := false, active := true), Thread(Mutating, false), false)
  }

  function LeaveMutation(f: Flags): Section {
    Section(f.(active := false), IDLE, true)
  }

  // ---------------------------------------------------------------- the class

  class GraphMutationGate {
    var readers: nat
    var mutationReserved: bool
    var mutationActive: bool

    function Look(): Flags
      reads this
    {
      Flags(readers, mutationReserved, mutationActive)
    }

    /** A mutation is reserved or under way, never both, and none is under way while anybody reads. */
    ghost predicate Valid()
      reads this
    {
      !(mutationReserved && mutationActive) && (mutationActive ==> readers == 0)
    }

    constructor ()
      ensures Valid() && Look() == Flags(0, false, false)
    {
      readers, mutationReserved, mutationActive := 0, false, false;
    }

    /** Err is the source's busy error: a read never waits, and is admitted exactly when no mutation asks or runs. */
    method BeginRead() returns (ok: bool)
      requires Valid()
      modifies this
      ensures Valid()
      ensures ok <==> !old(mutationReserved) && !old(mutationActive)
      ensures ok ==> readers == old(readers) + 1 && !mutationReserved && !mutationActive
      ensures !ok ==> Look() == old(Look())
      ensures Look() == EnterRead(old(Look())).flags && (ok <==> EnterRead(old(Look())).thread.phase == Reading)
    {
      if mutationReserved || mutationActive {
        return false;
      }
      readers := readers + 1;
      ok := true;
    }

    /** The last reader to leave wakes the mutation that waits for it; until then no mutation runs. */
    method EndRead() returns (notify: bool)
      requires Valid() && readers > 0
      modifies this
      ensures Valid() && !mutationActive
      ensures readers == old(readers) - 1 && mutationReserved == old(mutationReserved)
      ensures notify <==> readers == 0
      ensures Look() == LeaveRead(old(Look())).flags && notify == LeaveRead(old(Look())).notify
    {
      readers := readers - 1;
      notify := readers == 0;
    }

    /**
    From the start, or from a wake-up, of the first wait up to the next wait or the mutation itself: a mutation
    waits behind every other one, waits again for the reads in flight, and runs only when there are none.
    */
    method BeginMutation() returns (thread: Thread)
      requires Valid()
      modifies this
      ensures Valid() && readers == old(readers)
      ensures thread.phase == Entering <==> old(mutationReserved) || old(mutationActive)
      ensures thread.phase == Entering ==> thread.asleep && Look() == old(Look())
      ensures thread.phase != Entering ==> Admitted(thread)
      ensures Look() == EnterMutation(old(Look())).flags && thread == EnterMutation(old(Look())).thread
    {
      if mutationReserved || mutationActive {
        return Thread(Entering, true);
      }
      mutationReserved := true;
      thread := FinishDraining();
    }

    /** A mutation either sleeps, holding its reservation, while somebody reads, or runs without any reader. */
    ghost predicate Admitted(thread: Thread)
      reads this
    {
      && (readers > 0 ==> thread == Thread(Draining, true) && mutationReserved && !mutationActive)
      && (readers == 0 ==> thread == Thread(Mutating, false) && mutationActive && !mutationReserved)
    }

    method FinishDraining() returns (thread: Thread)
      requires Valid() && mutationReserved
      modifies this
      ensures Valid() && readers == old(readers) && Admitted(thread)
      ensures Look() == Drain(old(Look())).flags && thread == Drain(old(Look())).thread
    {
      if readers > 0 {
        return Thread(Draining, true);
      }
      mutationReserved := false;
      mutationActive := true;
      thread := Thread(Mutating, false);
    }

    /** Whoever comes next is admitted, and every sleeper is woken to find that out. */
    method EndMutation() returns (notify: bool)
      requires Valid() && mutationActive
      modifies this
      ensures Valid() && notify && readers == 0 && !mutationReserved && !mutationActive
      ensures Look() == LeaveMutation(old(Look())).flags && notify == LeaveMutation(old(Look())).notify
    {
      mutationActive := false;
      notify := true;
    }
  }

  // ---------------------------------------------------------------- interleavings

  datatype System = System(flags: Flags, threads: seq<Thread>)

  function Start(n: nat): System {
    System(Flags(0, false, false), seq(n, _ => IDLE))
  }

  /** The next critical section of a thread; `Mutate` and `Read` begin one, `Resume` continues or ends it. */
  datatype Event = Read(t: nat) | Mutate(t: nat) | Resume(t: nat) | Spurious(t: nat)

  predicate Enabled(s: System, e: Event) {
    e.t < |s.threads| &&
    var thread := s.threads[e.t];
    match e
    case Read(_) => thread.phase == Idle
    case Mutate(_) => thread.phase == Idle
    case Resume(_) => thread.phase != Idle && !thread.asleep && (thread.phase == Reading ==> s.flags.readers > 0)
    case Spurious(_) => thread.asleep
  }

  function Notify(threads: seq<Thread>): seq<Thread> {
    seq(|threads|, i requires 0 <= i < |threads| => threads[i].(asleep := false))
  }

  function SectionOf(s: System, e: Event): Section
    requires Enabled(s, e)
  {
    match e
    case Read(_) => EnterRead(s.flags)
    case Mutate(_) => EnterMutation(s.flags)
    case Spurious(t) => Section(s.flags, s.threads[t].(asleep := false), false)
    case Resume(t) =>
      match s.threads[t].phase
      case Reading => LeaveRead(s.flags)
      case Entering => EnterMutation(s.flags)
      case Draining => Drain(s.flags)
      case _ => LeaveMutation(s.flags)
  }

  function Step(s: System, e: Event): System
    requires Enabled(s, e)
  {
    var section := SectionOf(s, e);
    var threads := s.threads[e.t := section.thread];
    System(section.flags, if section.notify then Notify(threads) else threads)
  }

  function Count(threads: seq<Thread>, phase: Phase): nat {
    if threads == [] then 0
    else Count(threads[..|threads| - 1], phase) + if threads[|threads| - 1].phase == phase then 1 else 0
  }

  // ---------------------------------------------------------------- counting

  function One(thread: Thread, phase: Phase): nat {
    if thread.phase == phase then 1 else 0
  }

  lemma {:induction false} CountUpdate(threads: seq<Thread>, t: nat, thread: Thread, phase: Phase)
    requires t < |threads|
    ensures Count(threads[t := thread], phase) == Count(threads, phase) - One(threads[t], phase) + One(thread, phase)
    ensures Count(threads, phase) >= One(threads[t], phase)
    decreases |threads|
  {
    var n := |threads| - 1;
    if t == n {
      assert threads[t := thread][..n] == threads[..n];
    } else {
      CountUpdate(threads[..n], t, thread, phase);
      assert threads[t := thread][..n] == threads[..n][t := thread];
    }
  }

  lemma {:induction false} CountNotify(threads: seq<Thread>, phase: Phase)
    ensures Count(Notify(threads), phase) == Count(threads, phase)
  {
    if threads != [] {
      CountNotify(threads[..|threads| - 1], phase);
      assert Notify(threads)[..|threads| - 1] == Notify(threads[..|threads| - 1]);
    }
  }

  lemma CountTwo(threads: seq<Thread>, i: nat, j: nat, phase: Phase)
    requires i < j < |threads| && threads[i].phase == phase && threads[j].phase == phase
    ensures Count(threads, phase) >= 2
  {
    var without := threads[j := IDLE.(phase := if phase == Idle then Reading else Idle)];
    CountUpdate(threads, j, without[j], phase);
    CountUpdate(without, i, without[j], phase);
  }

  lemma {:induction false} SomeCounted(threads: seq<Thread>, phase: Phase)
    requires Count(threads, phase) > 0
    ensures exists i :: 0 <= i < |threads| && threads[i].phase == phase
  {
    var n := |threads| - 1;
    if threads[n].phase != phase {
      SomeCounted(threads[..n], phase);
      var i :| 0 <= i < n && threads[..n][i].phase == phase;
      assert threads[i].phase == phase;
    }
  }

  // ---------------------------------------------------------------- the invariant

  /** A sleeping thread still has a reason to sleep: no notification is ever lost. */
  predicate Justified(f: Flags, thread: Thread) {
    thread.asleep ==>
      || (thread.phase == Entering && (f.reserved || f.active))
      || (thread.phase == Draining && f.readers > 0)
  }

  ghost predicate Sleepers(s: System) {
    forall i :: 0 <= i < |s.threads| ==> Justified(s.flags, s.threads[i])
  }

  ghost predicate Counted(s: System) {
    && Count(s.threads, Reading) == s.flags.readers
    && Count(s.threads, Draining) == (if s.flags.reserved then 1 else 0)
    && Count(s.threads, Mutating) == (if s.flags.active then 1 else 0)
  }

  ghost predicate Sound(s: System) {
    && Counted(s)
    && Sleepers(s)
    && !(s.flags.reserved && s.flags.active)
    && (s.flags.active ==> s.flags.readers == 0)
  }

  /** What clients rely on: a mutation excludes every other mutation and every read. */
  ghost predicate Exclusive(s: System) {
    forall i, j :: 0 <= i < |s.threads| && 0 <= j < |s.threads| && i != j && s.threads[i].phase == Mutating ==>
      s.threads[j].phase != Mutating && s.threads[j].phase != Reading
  }

  lemma SoundIsExclusive(s: System)
    requires Sound(s)
    ensures Exclusive(s)
  {
    forall i, j | 0 <= i < |s.threads| && 0 <= j < |s.threads| && i != j && s.threads[i].phase == Mutating
      ensures s.threads[j].phase != Mutating && s.threads[j].phase != Reading
    {
      CountUpdate(s.threads, i, IDLE, Mutating);
      CountUpdate(s.threads, j, IDLE, Reading);
      if s.threads[j].phase == Mutating {
        CountTwo(s.threads, if i < j then i else j, if i < j then j else i, Mutating);
      }
    }
  }

  lemma StepCounts(s: System, e: Event, phase: Phase)
    requires Enabled(s, e)
    ensures Count(Step(s, e).threads, phase)
         == Count(s.threads, phase) - One(s.threads[e.t], phase) + One(SectionOf(s, e).thread, phase)
    ensures Count(s.threads, phase) >= One(s.threads[e.t], phase)
  {
    CountUpdate(s.threads, e.t, SectionOf(s, e).thread, phase);
    CountNotify(s.threads[e.t := SectionOf(s, e).thread], phase);
  }

  lemma StepKeepsCounted(s: System, e: Event)
    requires Sound(s) && Enabled(s, e)
    ensures Counted(Step(s, e))
  {
    StepCounts(s, e, Reading);
    StepCounts(s, e, Draining);
    StepCounts(s, e, Mutating);
  }

  lemma StepKeepsSleepers(s: System, e: Event)
    requires Sound(s) && Enabled(s, e)
    ensures Sleepers(Step(s, e))
  {
  }

  /** Every critical section of every thread keeps the protocol sound. */
  lemma StepKeepsSound(s: System, e: Event)
    requires Sound(s) && Enabled(s, e)
    ensures Sound(Step(s, e))
  {
    StepKeepsCounted(s, e);
    StepKeepsSleepers(s, e);
    StepCounts(s, e, Mutating);
    StepCounts(s, e, Draining);
    StepCounts(s, e, Reading);
  }

  ghost predicate Run(s: System, events: seq<Event>)
    decreases |events|
  {
    events != [] ==> Enabled(s, events[0]) && Run(Step(s, events[0]), events[1..])
  }

  function After(s: System, events: seq<Event>): System
    requires Run(s, events)
    decreases |events|
  {
    if events == [] then s else After(Step(s, events[0]), events[1..])
  }

  lemma {:induction false} RunKeepsSound(s: System, events: seq<Event>)
    requires Sound(s) && Run(s, events)
    ensures Sound(After(s, events))
    decreases |events|
  {
    if events != [] {
      StepKeepsSound(s, events[0]);
      RunKeepsSound(Step(s, events[0]), events[1..]);
    }
  }

  lemma {:induction false} AllIdle(n: nat, phase: Phase)
    requires phase != Idle
    ensures Count(Start(n).threads, phase) == 0
  {
    if n > 0 {
      AllIdle(n - 1, phase);
      assert Start(n).threads[..n - 1] == Start(n - 1).threads;
    }
  }

  /** In every interleaving of any number of threads mutations exclude each other and every read. */
  lemma EveryInterleavingIsExclusive(n: nat, events: seq<Event>)
    requires Run(Start(n), events)
    ensures Sound(After(Start(n), events)) && Exclusive(After(Start(n), events))
  {
    AllIdle(n, Reading);
    AllIdle(n, Draining);
    AllIdle(n, Mutating);
    RunKeepsSound(Start(n), events);
    SoundIsExclusive(After(Start(n), events));
  }

  // ---------------------------------------------------------------- reservation

  /** Whether the reservation is held throughout a run. */
  ghost predicate ReservedThroughout(s: System, events: seq<Event>)
    requires Run(s, events)
    decreases |events|
  {
    s.flags.reserved && (events != [] ==> ReservedThroughout(Step(s, events[0]), events[1..]))
  }

  /** No read is admitted after a reservation: the readers being drained were all there when it was made. */
  lemma {:induction false} ReservationShutsOutReaders(s: System, events: seq<Event>, i: nat)
    requires Sound(s) && Run(s, events) && ReservedThroughout(s, events) && i < |s.threads|
    ensures |After(s, events).threads| == |s.threads|
    ensures After(s, events).threads[i].phase == Reading ==> s.threads[i].phase == Reading
    ensures After(s, events).flags.readers <= s.flags.readers
    decreases |events|
  {
    if events != [] {
      StepKeepsSound(s, events[0]);
      ReservationShutsOutReaders(Step(s, events[0]), events[1..], i);
    }
  }

  /** A reservation ends only in the mutation of the very thread that made it. */
  lemma ReservationEndsInMutation(s: System, e: Event)
    requires Sound(s) && Enabled(s, e) && s.flags.reserved && !Step(s, e).flags.reserved
    ensures s.threads[e.t].phase == Draining && Step(s, e).threads[e.t].phase == Mutating
    ensures s.flags.readers == 0 && Step(s, e).flags.active
  {
  }

  /** Once the last reader has left, the reserving thread is awake and its next step is the mutation. */
  lemma DrainedMutationIsAdmitted(s: System) returns (t: nat)
    requires Sound(s) && s.flags.reserved && s.flags.readers == 0
    ensures t < |s.threads| && s.threads[t].phase == Draining
    ensures Enabled(s, Resume(t)) && Step(s, Resume(t)).threads[t].phase == Mutating
  {
    SomeCounted(s.threads, Draining);
    t :| t < |s.threads| && s.threads[t].phase == Draining;
    assert Justified(s.flags, s.threads[t]);
  }

  // ---------------------------------------------------------------- progress

  /** A thread in the middle of something can always step, or some other such thread can. */
  lemma SomeThreadCanStep(s: System, i: nat) returns (t: nat)
    requires Sound(s) && i < |s.threads| && s.threads[i].phase != Idle
    ensures t < |s.threads| && Enabled(s, Resume(t))
  {
    t := i;
    assert Justified(s.flags, s.threads[i]);
    if s.threads[t].asleep && s.threads[t].phase == Entering {
      SomeCounted(s.threads, if s.flags.reserved then Draining else Mutating);
      t :| t < |s.threads| && s.threads[t].phase == (if s.flags.reserved then Draining else Mutating);
      assert Justified(s.flags, s.threads[t]);
    }
    if s.threads[t].asleep {
      SomeCounted(s.threads, Reading);
      t :| t < |s.threads| && s.threads[t].phase == Reading;
      assert Justified(s.flags, s.threads[t]);
    }
    CountUpdate(s.threads, t, IDLE, Reading);
  }

  /** How many critical sections a thread may still need, among n threads that can wake each other. */
  function Remaining(thread: Thread, n: nat): nat {
    match thread.phase
    case Idle => 0
    case Reading => n + 1
    case Mutating => n + 1
    case Draining => if thread.asleep then n + 2 else n + 3
    case Entering => if thread.asleep then n + 4 else n + 5
  }

  function Work(threads: seq<Thread>, n: nat): nat {
    if threads == [] then 0 else Work(threads[..|threads| - 1], n) + Remaining(threads[|threads| - 1], n)
  }

  lemma {:induction false} WorkUpdate(threads: seq<Thread>, t: nat, thread: Thread, n: nat)
    requires t < |threads|
    ensures Work(threads[t := thread], n) == Work(threads, n) - Remaining(threads[t], n) + Remaining(thread, n)
    decreases |threads|
  {
    var last := |threads| - 1;
    if t == last {
      assert threads[t := thread][..last] == threads[..last];
    } else {
      WorkUpdate(threads[..last], t, thread, n);
      assert threads[t := thread][..last] == threads[..last][t := thread];
    }
  }

  lemma {:induction false} WorkNotify(threads: seq<Thread>, n: nat)
    ensures Work(Notify(threads), n) <= Work(threads, n) + |threads|
  {
    if threads != [] {
      WorkNotify(threads[..|threads| - 1], n);
      assert Notify(threads)[..|threads| - 1] == Notify(threads[..|threads| - 1]);
    }
  }

  /** Every resumed section brings the gate closer to rest, whoever it wakes. */
  lemma ResumeProgresses(s: System, t: nat)
    requires Sound(s) && Enabled(s, Resume(t))
    ensures Work(Step(s, Resume(t)).threads, |s.threads|) < Work(s.threads, |s.threads|)
  {
    var thread := SectionOf(s, Resume(t)).thread;
    WorkUpdate(s.threads, t, thread, |s.threads|);
    WorkNotify(s.threads[t := thread], |s.threads|);
  }

  ghost predicate AtRest(s: System) {
    forall i :: 0 <= i < |s.threads| ==> s.threads[i].phase == Idle
  }

  /**
  Without new requests and spurious wake-ups every run is finite, and it can only end with every thread idle:
  each admitted read and each waiting mutation gets through, in every order of steps.
  */
  lemma {:induction false} EveryRequestGetsThrough(s: System, events: seq<Event>)
    requires Sound(s) && Run(s, events) && forall k :: 0 <= k < |events| ==> events[k].Resume?
    ensures |events| <= Work(s.threads, |s.threads|)
    ensures |After(s, events).threads| == |s.threads|
    ensures AtRest(After(s, events)) <==> forall t :: !Enabled(After(s, events), Resume(t))
    decreases |events|
  {
    if events == [] {
      if i: nat :| i < |s.threads| && s.threads[i].phase != Idle {
        var t := SomeThreadCanStep(s, i);
      }
    } else {
      ResumeProgresses(s, events[0].t);
      StepKeepsSound(s, events[0]);
      EveryRequestGetsThrough(Step(s, events[0]), events[1..]);
    }
  }
}
