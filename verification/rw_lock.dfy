/** The cancellable, writer-preferring readers-writer lock (endpoint/lock.go). Every
    section under the mutex is one atomic step; the `changed` channel is a generation
    number, and a channel is closed once a newer generation exists. */
module RwLocks {

  // ---------------------------------------------------------------------------
  // The shared state and the sections that run under the mutex
  // ---------------------------------------------------------------------------

  datatype Shared = Shared(readers: int, writer: bool, writersWaiting: int, changed: nat)

  function Broadcast(l: Shared): Shared {
    l.(changed := l.changed + 1)
  }

  predicate MayRead(l: Shared) {
    !l.writer && l.writersWaiting == 0
  }

  predicate MayWrite(l: Shared) {
    !l.writer && !(l.readers > 0)
  }

  function Admitted(l: Shared): Shared {
    l.(readers := l.readers + 1)
  }

  function ReadReleased(l: Shared): Shared {
    var l1 := l.(readers := l.readers - 1);
    if l1.readers == 0 then Broadcast(l1) else l1
  }

  function Counted(l: Shared): Shared {
    l.(writersWaiting := l.writersWaiting + 1)
  }

  function Taken(l: Shared): Shared {
    l.(writersWaiting := l.writersWaiting - 1, writer := true)
  }

  function GivenUp(l: Shared): Shared {
    Broadcast(l.(writersWaiting := l.writersWaiting - 1))
  }

  function WriteReleased(l: Shared): Shared {
    Broadcast(l.(writer := false))
  }

  // ---------------------------------------------------------------------------
  // The protocol
  // ---------------------------------------------------------------------------

  type Thread = nat

  /** Where a thread is. A waiting thread remembers the channel it selects on. */
  datatype Pc =
    | Idle
    | ReadStart | ReadWait(ch: nat) | Reading
    | WriteStart | WriteWait(ch: nat) | WriteWoken | WriteCancelled | Writing

  datatype World = World(lock: Shared, pcs: map<Thread, Pc>)

  datatype Action =
    | CallRead | TryRead | WakeRead | CancelRead | ReleaseRead
    | CallWrite | EnterWrite | WakeWrite | RetryWrite | CancelWrite | LeaveWrite | ReleaseWrite

  function At(w: World, t: Thread, lock: Shared, pc: Pc): World {
    World(lock, w.pcs[t := pc])
  }

  /** One atomic step of thread `t`. A select whose channel is closed and whose context is
      done may take either branch; a context may be done at any time. */
  ghost predicate Step(w: World, t: Thread, a: Action, w': World) {
    t in w.pcs &&
    var pc, l := w.pcs[t], w.lock;
    match a
    case CallRead => pc.Idle? && w' == At(w, t, l, ReadStart)
    case TryRead =>
      pc.ReadStart? && w' == if MayRead(l) then At(w, t, Admitted(l), Reading) else At(w, t, l, ReadWait(l.changed))
    case WakeRead => pc.ReadWait? && pc.ch < l.changed && w' == At(w, t, l, ReadStart)
    case CancelRead => pc.ReadWait? && w' == At(w, t, l, Idle)
    case ReleaseRead => pc.Reading? && w' == At(w, t, ReadReleased(l), Idle)
    case CallWrite => pc.Idle? && w' == At(w, t, l, WriteStart)
    case EnterWrite =>
      pc.WriteStart? &&
      w' == if MayWrite(l) then At(w, t, Taken(Counted(l)), Writing) else At(w, t, Counted(l), WriteWait(l.changed))
    case WakeWrite => pc.WriteWait? && pc.ch < l.changed && w' == At(w, t, l, WriteWoken)
    case RetryWrite =>
      pc.WriteWoken? && w' == if MayWrite(l) then At(w, t, Taken(l), Writing) else At(w, t, l, WriteWait(l.changed))
    case CancelWrite => pc.WriteWait? && w' == At(w, t, l, WriteCancelled)
    case LeaveWrite => pc.WriteCancelled? && w' == At(w, t, GivenUp(l), Idle)
    case ReleaseWrite => pc.Writing? && w' == At(w, t, WriteReleased(l), Idle)
  }

  ghost predicate Init(w: World) {
    w.lock == Shared(0, false, 0, 0) && forall t :: t in w.pcs ==> w.pcs[t] == Idle
  }

  datatype Event = Event(thread: Thread, action: Action)

  /** A run: worlds joined by steps of any threads, in any order. */
  ghost predicate IsRun(ws: seq<World>, es: seq<Event>) {
    |ws| == |es| + 1 && forall i :: 0 <= i < |es| ==> Step(ws[i], es[i].thread, es[i].action, ws[i + 1])
  }

  // ---------------------------------------------------------------------------
  // Who holds and who waits
  // ---------------------------------------------------------------------------

  ghost function ReadHolders(w: World): set<Thread> {
    set t | t in w.pcs && w.pcs[t].Reading?
  }

  ghost function WriteHolders(w: World): set<Thread> {
    set t | t in w.pcs && w.pcs[t].Writing?
  }

  predicate Counts(pc: Pc) {
    pc.WriteWait? || pc.WriteWoken? || pc.WriteCancelled?
  }

  /** The threads between counting themselves in `lock` and taking it or giving up. */
  ghost function WaitingWriters(w: World): set<Thread> {
    set t | t in w.pcs && Counts(w.pcs[t])
  }

  /** The fields count exactly the threads they are meant to count, and a writer is alone. */
  ghost predicate Accurate(w: World) {
    w.lock.readers == |ReadHolders(w)| &&
    w.lock.writersWaiting == |WaitingWriters(w)| &&
    |WriteHolders(w)| == (if w.lock.writer then 1 else 0) &&
    (w.lock.writer ==> w.lock.readers == 0)
  }

  /** A thread that selects on the open channel has a false guard: no wakeup was lost. */
  ghost predicate NoLostWakeup(w: World) {
    forall t :: t in w.pcs ==>
      (w.pcs[t].ReadWait? ==> w.pcs[t].ch <= w.lock.changed && (w.pcs[t].ch == w.lock.changed ==> !MayRead(w.lock))) &&
      (w.pcs[t].WriteWait? ==> w.pcs[t].ch <= w.lock.changed && (w.pcs[t].ch == w.lock.changed ==> !MayWrite(w.lock)))
  }

  lemma Moved(w: World, t: Thread, w': World, pc: Pc)
    requires t in w.pcs && w'.pcs == w.pcs[t := pc]
    ensures |ReadHolders(w')| - |ReadHolders(w)| == (if pc.Reading? then 1 else 0) - (if w.pcs[t].Reading? then 1 else 0)
    ensures |WriteHolders(w')| - |WriteHolders(w)| == (if pc.Writing? then 1 else 0) - (if w.pcs[t].Writing? then 1 else 0)
    ensures |WaitingWriters(w')| - |WaitingWriters(w)| == (if Counts(pc) then 1 else 0) - (if Counts(w.pcs[t]) then 1 else 0)
  {
    SameBut(ReadHolders(w), ReadHolders(w'), t);
    SameBut(WriteHolders(w), WriteHolders(w'), t);
    SameBut(WaitingWriters(w), WaitingWriters(w'), t);
  }

  lemma SameBut(a: set<Thread>, b: set<Thread>, t: Thread)
    requires a - {t} == b - {t}
    ensures |b| - |a| == (if t in b then 1 else 0) - (if t in a then 1 else 0)
  {
    assert t in a ==> a == (a - {t}) + {t};
    assert t !in a ==> a == a - {t};
    assert t in b ==> b == (b - {t}) + {t};
    assert t !in b ==> b == b - {t};
  }

  lemma StepKeepsAccurate(w: World, t: Thread, a: Action, w': World)
    requires Accurate(w) && Step(w, t, a, w')
    ensures Accurate(w')
  {
    Moved(w, t, w', w'.pcs[t]);
    if a.ReleaseRead? {
      assert t in ReadHolders(w);
    }
    if a.ReleaseWrite? {
      assert t in WriteHolders(w);
    }
  }

  lemma StepKeepsWakeups(w: World, t: Thread, a: Action, w': World)
    requires Accurate(w) && NoLostWakeup(w) && Step(w, t, a, w')
    ensures NoLostWakeup(w')
  {
    if Counts(w.pcs[t]) {
      assert t in WaitingWriters(w);
    }
    if w.pcs[t].Reading? {
      assert t in ReadHolders(w);
    }
  }

  /** Every world of every run from the start, whatever the interleaving and the
      cancellations: a writer excludes everyone else, the fields are accurate, and no
      wakeup is lost. */
  lemma {:induction false} RunsAreSafe(ws: seq<World>, es: seq<Event>, i: nat)
    requires IsRun(ws, es) && Init(ws[0]) && i < |ws|
    ensures Accurate(ws[i]) && NoLostWakeup(ws[i])
  {
    if i == 0 {
      assert ReadHolders(ws[0]) == {} && WriteHolders(ws[0]) == {} && WaitingWriters(ws[0]) == {};
    } else {
      RunsAreSafe(ws, es, i - 1);
      assert Step(ws[i - 1], es[i - 1].thread, es[i - 1].action, ws[i]);
      StepKeepsAccurate(ws[i - 1], es[i - 1].thread, es[i - 1].action, ws[i]);
      StepKeepsWakeups(ws[i - 1], es[i - 1].thread, es[i - 1].action, ws[i]);
    }
  }

  lemma WriterExcludes(w: World, t: Thread, u: Thread)
    requires Accurate(w) && t in w.pcs && u in w.pcs && t != u && w.pcs[t].Writing?
    ensures !w.pcs[u].Writing? && !w.pcs[u].Reading?
  {
    assert |WriteHolders(w) - {t}| == 0 by {
      assert t in WriteHolders(w);
    }
    assert u !in WriteHolders(w) - {t} && u !in ReadHolders(w);
  }

  // ---------------------------------------------------------------------------
  // Writer preference
  // ---------------------------------------------------------------------------

  /** While a writer waits or writes, the set of readers inside only shrinks. */
  lemma {:induction false} NoAdmission(ws: seq<World>, es: seq<Event>, start: nat, end: nat)
    requires IsRun(ws, es) && start <= end < |ws|
    requires forall i :: start <= i < end ==> ws[i].lock.writersWaiting != 0 || ws[i].lock.writer
    ensures ReadHolders(ws[end]) <= ReadHolders(ws[start])
    decreases end
  {
    if start < end {
      NoAdmission(ws, es, start, end - 1);
      assert Step(ws[end - 1], es[end - 1].thread, es[end - 1].action, ws[end]);
    }
  }

  /** From the moment a writer is counted until it takes the lock or gives up, no reader is
      admitted, so a stream of readers cannot starve it. */
  lemma WaitingWriterHoldsReadersBack(ws: seq<World>, es: seq<Event>, writer: Thread, start: nat, end: nat)
    requires IsRun(ws, es) && Init(ws[0]) && start <= end < |ws|
    requires forall i :: start <= i < end ==> writer in WaitingWriters(ws[i])
    ensures ReadHolders(ws[end]) <= ReadHolders(ws[start])
  {
    forall i | start <= i < end ensures ws[i].lock.writersWaiting != 0 {
      RunsAreSafe(ws, es, i);
      assert writer in WaitingWriters(ws[i]);
    }
    NoAdmission(ws, es, start, end);
  }

  // ---------------------------------------------------------------------------
  // Progress
  // ---------------------------------------------------------------------------

  ghost predicate Free(w: World) {
    w.lock.readers == 0 && !w.lock.writer
  }

  /** The thread wants the lock and has not been cancelled. */
  ghost predicate Wants(w: World, t: Thread) {
    t in w.pcs &&
    (w.pcs[t].ReadStart? || w.pcs[t].ReadWait? || w.pcs[t].WriteWait? || w.pcs[t].WriteWoken?)
  }

  /** Steps that neither bring a new caller nor cancel one. */
  predicate OwnStep(a: Action) {
    a.TryRead? || a.WakeRead? || a.WakeWrite? || a.RetryWrite? || a.LeaveWrite?
  }

  ghost predicate OwnSteps(es: seq<Event>) {
    forall i :: 0 <= i < |es| ==> OwnStep(es[i].action)
  }

  /** A run of own steps from `w` after which somebody holds the lock. */
  ghost predicate GetsIn(w: World, ws: seq<World>, es: seq<Event>) {
    IsRun(ws, es) && ws[0] == w && OwnSteps(es) && !Free(ws[|ws| - 1])
  }

  lemma OneStep(w: World, t: Thread, a: Action, w': World) returns (ws: seq<World>, es: seq<Event>)
    requires Step(w, t, a, w') && OwnStep(a) && !Free(w')
    ensures GetsIn(w, ws, es)
  {
    ws, es := [w, w'], [Event(t, a)];
  }

  lemma StepFirst(w: World, t: Thread, a: Action, w': World, ws: seq<World>, es: seq<Event>)
    requires Step(w, t, a, w') && OwnStep(a) && GetsIn(w', ws, es)
    ensures GetsIn(w, [w] + ws, [Event(t, a)] + es)
  {
    var ws', es' := [w] + ws, [Event(t, a)] + es;
    forall i | 0 <= i < |es'| ensures Step(ws'[i], es'[i].thread, es'[i].action, ws'[i + 1]) && OwnStep(es'[i].action) {
      if i > 0 {
        assert Step(ws[i - 1], es[i - 1].thread, es[i - 1].action, ws[i]) && OwnStep(es[i - 1].action);
      }
    }
  }

  lemma WriterGetsIn(w: World, t: Thread) returns (ws: seq<World>, es: seq<Event>)
    requires Accurate(w) && NoLostWakeup(w) && Free(w) && t in w.pcs && (w.pcs[t].WriteWait? || w.pcs[t].WriteWoken?)
    ensures GetsIn(w, ws, es)
  {
    if w.pcs[t].WriteWoken? {
      ws, es := OneStep(w, t, RetryWrite, At(w, t, Taken(w.lock), Writing));
    } else {
      var woken := At(w, t, w.lock, WriteWoken);
      ws, es := OneStep(woken, t, RetryWrite, At(woken, t, Taken(w.lock), Writing));
      StepFirst(w, t, WakeWrite, woken, ws, es);
      ws, es := [w] + ws, [Event(t, WakeWrite)] + es;
    }
  }

  lemma ReaderGetsIn(w: World, t: Thread) returns (ws: seq<World>, es: seq<Event>)
    requires Accurate(w) && NoLostWakeup(w) && Free(w) && w.lock.writersWaiting == 0
    requires t in w.pcs && (w.pcs[t].ReadStart? || w.pcs[t].ReadWait?)
    ensures GetsIn(w, ws, es)
  {
    if w.pcs[t].ReadStart? {
      ws, es := OneStep(w, t, TryRead, At(w, t, Admitted(w.lock), Reading));
    } else {
      var woken := At(w, t, w.lock, ReadStart);
      ws, es := OneStep(woken, t, TryRead, At(woken, t, Admitted(w.lock), Reading));
      StepFirst(w, t, WakeRead, woken, ws, es);
      ws, es := [w] + ws, [Event(t, WakeRead)] + es;
    }
  }

  /** Whenever the lock is free and some thread wants it, steps of the threads already
      there lead to somebody holding it: nobody sleeps through the last wakeup. */
  lemma {:induction false} FreeLockIsTaken(w: World, t: Thread) returns (ws: seq<World>, es: seq<Event>)
    requires Accurate(w) && NoLostWakeup(w) && Free(w) && Wants(w, t)
    ensures GetsIn(w, ws, es)
    decreases |WaitingWriters(w)|
  {
    if u :| u in w.pcs && (w.pcs[u].WriteWait? || w.pcs[u].WriteWoken?) {
      ws, es := WriterGetsIn(w, u);
    } else if u :| u in w.pcs && w.pcs[u].WriteCancelled? {
      var left := At(w, u, GivenUp(w.lock), Idle);
      assert Step(w, u, LeaveWrite, left);
      StepKeepsAccurate(w, u, LeaveWrite, left);
      StepKeepsWakeups(w, u, LeaveWrite, left);
      ws, es := FreeLockIsTaken(left, t);
      StepFirst(w, u, LeaveWrite, left, ws, es);
      ws, es := [w] + ws, [Event(u, LeaveWrite)] + es;
    } else {
      assert WaitingWriters(w) == {};
      ws, es := ReaderGetsIn(w, t);
    }
  }

  // ---------------------------------------------------------------------------
  // The code
  // ---------------------------------------------------------------------------

  /** Whoever selects on a channel finds it closed. */
  ghost predicate AllWoken(w: World) {
    forall t :: t in w.pcs && (w.pcs[t].ReadWait? || w.pcs[t].WriteWait?) ==> w.pcs[t].ch < w.lock.changed
  }

  ghost predicate Safe(w: World) {
    Accurate(w) && NoLostWakeup(w)
  }

  lemma StepKeepsSafe(w: World, t: Thread, a: Action, w': World)
    requires Safe(w) && Step(w, t, a, w')
    ensures Safe(w')
  {
    StepKeepsAccurate(w, t, a, w');
    StepKeepsWakeups(w, t, a, w');
  }

  /** The fields read as who holds and who waits. */
  lemma FieldsMean(w: World)
    requires Accurate(w)
    ensures MayRead(w.lock) <==> WriteHolders(w) == {} && WaitingWriters(w) == {}
    ensures MayWrite(w.lock) <==> WriteHolders(w) == {} && ReadHolders(w) == {}
    ensures w.lock.readers == 0 <==> ReadHolders(w) == {}
    ensures w.lock.writer <==> WriteHolders(w) != {}
  {
  }

  /** The lock, with one method per section under the mutex. `pcs` says where every thread is;
      `t` is the calling thread. */
  class RwLock {
    var readers: int
    var writer: bool
    var writersWaiting: int
    var changed: nat
    ghost var pcs: map<Thread, Pc>

    ghost function State(): World
      reads this
    {
      World(Shared(readers, writer, writersWaiting, changed), pcs)
    }

    constructor (ghost threads: set<Thread>)
      ensures Init(State()) && Safe(State()) && pcs.Keys == threads
    {
      readers, writer, writersWaiting, changed := 0, false, 0, 0;
      pcs := map t | t in threads :: Idle;
      new;
      assert ReadHolders(State()) == {} && WriteHolders(State()) == {} && WaitingWriters(State()) == {};
    }

    /** What a thread does outside the mutex: it calls, wakes up or is cancelled. */
    ghost method Move(t: Thread, a: Action, pc: Pc)
      requires Safe(State()) && Step(State(), t, a, At(State(), t, State().lock, pc))
      modifies this`pcs
      ensures Safe(State()) && Step(old(State()), t, a, State()) && pcs == old(pcs)[t := pc]
    {
      StepKeepsSafe(State(), t, a, At(State(), t, State().lock, pc));
      pcs := pcs[t := pc];
    }

    /** The loop body of `rlock`: admitted exactly when no thread writes or waits to write,
        otherwise left with the channel to wait on. */
    method TryRead(ghost t: Thread) returns (admitted: bool, ch: nat)
      requires Safe(State()) && t in pcs && pcs[t].ReadStart?
      modifies this
      ensures Safe(State()) && Step(old(State()), t, Action.TryRead, State())
      ensures admitted <==> old(WriteHolders(State()) == {} && WaitingWriters(State()) == {})
      ensures pcs == old(pcs)[t := if admitted then Reading else ReadWait(ch)]
    {
      FieldsMean(State());
      ch := changed;
      admitted := !writer && writersWaiting == 0;
      if admitted {
        readers := readers + 1;
      }
      pcs := pcs[t := if admitted then Reading else ReadWait(ch)];
      StepKeepsSafe(old(State()), t, Action.TryRead, State());
    }

    /** `runlock` by a reader: the panic is not reached, and the last reader out wakes everybody. */
    method ReleaseRead(ghost t: Thread) returns (ok: bool)
      requires Safe(State()) && t in pcs && pcs[t].Reading?
      modifies this
      ensures ok && Safe(State()) && Step(old(State()), t, Action.ReleaseRead, State())
      ensures pcs == old(pcs)[t := Idle]
      ensures ReadHolders(State()) == old(ReadHolders(State())) - {t}
      ensures ReadHolders(State()) == {} ==> AllWoken(State())
    {
      assert t in ReadHolders(State());
      readers := readers - 1;
      if readers < 0 {
        return false;
      }
      if readers == 0 {
        changed := changed + 1;
      }
      ok := true;
      pcs := pcs[t := Idle];
      StepKeepsSafe(old(State()), t, Action.ReleaseRead, State());
      FieldsMean(State());
    }

    /** The first section of `lock`: taken exactly when nobody holds the lock; otherwise the
        thread counts as waiting from here on, which holds new readers back. */
    method EnterWrite(ghost t: Thread) returns (taken: bool, ch: nat)
      requires Safe(State()) && t in pcs && pcs[t].WriteStart?
      modifies this
      ensures Safe(State()) && Step(old(State()), t, Action.EnterWrite, State())
      ensures taken <==> old(WriteHolders(State()) == {} && ReadHolders(State()) == {})
      ensures pcs == old(pcs)[t := if taken then Writing else WriteWait(ch)]
      ensures !taken ==> WaitingWriters(State()) == old(WaitingWriters(State())) + {t} && !MayRead(State().lock)
    {
      FieldsMean(State());
      writersWaiting := writersWaiting + 1;
      taken, ch := TakeIfFree();
      pcs := pcs[t := if taken then Writing else WriteWait(ch)];
      StepKeepsSafe(old(State()), t, Action.EnterWrite, State());
      if !taken {
        NowWaiting(old(State()), t, State(), ch);
      }
    }

    /** The loop test of `lock`, after waking up. */
    method RetryWrite(ghost t: Thread) returns (taken: bool, ch: nat)
      requires Safe(State()) && t in pcs && pcs[t].WriteWoken?
      modifies this
      ensures Safe(State()) && Step(old(State()), t, Action.RetryWrite, State())
      ensures taken <==> old(WriteHolders(State()) == {} && ReadHolders(State()) == {})
      ensures pcs == old(pcs)[t := if taken then Writing else WriteWait(ch)]
      ensures taken ==> WriteHolders(State()) == {t} && ReadHolders(State()) == {}
    {
      FieldsMean(State());
      taken, ch := TakeIfFree();
      pcs := pcs[t := if taken then Writing else WriteWait(ch)];
      StepKeepsSafe(old(State()), t, Action.RetryWrite, State());
    }

    /** The test and the assignments that both of them end in. */
    method TakeIfFree() returns (taken: bool, ch: nat)
      modifies this`writer, this`writersWaiting
      ensures taken == !(old(writer) || readers > 0) && ch == changed
      ensures writer == (old(writer) || taken) && writersWaiting == old(writersWaiting) - if taken then 1 else 0
    {
      ch := changed;
      taken := !(writer || readers > 0);
      if taken {
        writersWaiting := writersWaiting - 1;
        writer := true;
      }
    }

    /** The cancelled branch of `lock`: the thread no longer holds readers back, and everybody
        is woken to find out. */
    method CancelWrite(ghost t: Thread)
      requires Safe(State()) && t in pcs && pcs[t].WriteCancelled?
      modifies this
      ensures Safe(State()) && Step(old(State()), t, LeaveWrite, State())
      ensures pcs == old(pcs)[t := Idle]
      ensures WaitingWriters(State()) == old(WaitingWriters(State())) - {t} && AllWoken(State())
    {
      writersWaiting := writersWaiting - 1;
      changed := changed + 1;
      pcs := pcs[t := Idle];
      StepKeepsSafe(old(State()), t, LeaveWrite, State());
    }

    /** `unlock` by the writer: the panic is not reached, nobody holds the lock, and everybody is
        woken. */
    method ReleaseWrite(ghost t: Thread) returns (ok: bool)
      requires Safe(State()) && t in pcs && pcs[t].Writing?
      modifies this
      ensures ok && Safe(State()) && Step(old(State()), t, Action.ReleaseWrite, State())
      ensures pcs == old(pcs)[t := Idle]
      ensures WriteHolders(State()) == {} && ReadHolders(State()) == {} && AllWoken(State())
    {
      assert t in WriteHolders(State());
      FieldsMean(State());
      ok := writer;
      if ok {
        writer := false;
        changed := changed + 1;
      }
      pcs := pcs[t := Idle];
      StepKeepsSafe(old(State()), t, Action.ReleaseWrite, State());
      FieldsMean(State());
    }
  }

  // ---------------------------------------------------------------------------
  // The code under a scheduler
  // ---------------------------------------------------------------------------

  /** Threads using one lock: `at` is where each of them is, which for a waiting thread includes
      the channel it got. */
  class Threads {
    const lock: RwLock
    var at: map<Thread, Pc>

    ghost predicate Valid()
      reads this, lock
    {
      at == lock.pcs && Safe(lock.State())
    }

    constructor (threads: set<Thread>)
      ensures Valid() && Init(lock.State()) && at.Keys == threads && fresh(lock)
    {
      lock := new RwLock(threads);
      at := map t | t in threads :: Idle;
    }

    /** Runs one section of one thread, if the thread is there: exactly one step of the protocol,
        or nothing when the protocol has no such step. */
    method Do(t: Thread, a: Action) returns (done: bool)
      requires Valid()
      modifies this, lock
      ensures Valid() && at.Keys == old(at.Keys)
      ensures Did(old(lock.State()), t, a, lock.State(), done)
    {
      if t !in at {
        return false;
      }
      var pc := at[t];
      if LocksToRead(a) {
        done := DoRead(t, a);
        return;
      }
      if LocksToTake(a) {
        done := DoTake(t, a);
        return;
      }
      if LocksToEnd(a) {
        done := DoEnd(t, a);
        return;
      }
      done := true;
      if a == CallRead && pc == Idle {
        pc := ReadStart;
      } else if a == CallWrite && pc == Idle {
        pc := WriteStart;
      } else if a == WakeRead && pc.ReadWait? && pc.ch < lock.changed {
        pc := ReadStart;
      } else if a == WakeWrite && pc.WriteWait? && pc.ch < lock.changed {
        pc := WriteWoken;
      } else if a == CancelRead && pc.ReadWait? {
        pc := Idle;
      } else if a == Action.CancelWrite && pc.WriteWait? {
        pc := WriteCancelled;
      } else {
        return false;
      }
      lock.Move(t, a, pc);
      at := at[t := pc];
    }

    /** The sections of a reader. */
    method DoRead(t: Thread, a: Action) returns (done: bool)
      requires Valid() && t in at && LocksToRead(a)
      modifies this, lock
      ensures Valid() && at.Keys == old(at.Keys)
      ensures Did(old(lock.State()), t, a, lock.State(), done)
    {
      var pc := at[t];
      done := true;
      var ok, ch := true, 0;
      if a == Action.TryRead && pc == ReadStart {
        ok, ch := lock.TryRead(t);
        at := at[t := if ok then Reading else ReadWait(ch)];
      } else if a == Action.ReleaseRead && pc == Reading {
        ok := lock.ReleaseRead(t);
        at := at[t := Idle];
      } else {
        NotReading(lock.State(), t, a);
        done := false;
      }
    }

    /** The sections of a writer that may take the lock. */
    method DoTake(t: Thread, a: Action) returns (done: bool)
      requires Valid() && t in at && LocksToTake(a)
      modifies this, lock
      ensures Valid() && at.Keys == old(at.Keys)
      ensures Did(old(lock.State()), t, a, lock.State(), done)
    {
      var pc := at[t];
      done := true;
      var ok, ch := true, 0;
      if a == Action.EnterWrite && pc == WriteStart {
        ok, ch := lock.EnterWrite(t);
      } else if a == Action.RetryWrite && pc == WriteWoken {
        ok, ch := lock.RetryWrite(t);
      } else {
        return false;
      }
      at := at[t := if ok then Writing else WriteWait(ch)];
    }

    /** The sections that end a writer's call. */
    method DoEnd(t: Thread, a: Action) returns (done: bool)
      requires Valid() && t in at && LocksToEnd(a)
      modifies this, lock
      ensures Valid() && at.Keys == old(at.Keys)
      ensures Did(old(lock.State()), t, a, lock.State(), done)
    {
      var pc := at[t];
      done := true;
      var ok := true;
      if a == LeaveWrite && pc == WriteCancelled {
        lock.CancelWrite(t);
      } else if a == Action.ReleaseWrite && pc == Writing {
        ok := lock.ReleaseWrite(t);
      } else {
        return false;
      }
      at := at[t := Idle];
    }

    /** Any schedule of any threads, with any cancellations: what the code does is a run of the
        protocol, so everything proved of runs holds of the code. */
    method Run(schedule: seq<Event>) returns (ghost ws: seq<World>, ghost es: seq<Event>)
      requires Valid()
      modifies this, lock
      ensures Valid() && IsRun(ws, es) && ws[0] == old(lock.State()) && ws[|ws| - 1] == lock.State()
      ensures forall e :: e in es ==> e in schedule
      ensures forall i :: 0 <= i < |ws| ==> Safe(ws[i])
    {
      ws, es := [lock.State()], [];
      for k := 0 to |schedule|
        invariant Valid() && IsRun(ws, es) && ws[0] == old(lock.State()) && ws[|ws| - 1] == lock.State()
        invariant forall e :: e in es ==> e in schedule
        invariant forall i :: 0 <= i < |ws| ==> Safe(ws[i])
      {
        var done := Do(schedule[k].thread, schedule[k].action);
        if done {
          RunExtends(ws, es, schedule[k], lock.State());
          ws, es := ws + [lock.State()], es + [schedule[k]];
        }
      }
    }
  }

  /** The step was made, or there is none to make. */
  ghost predicate Did(w: World, t: Thread, a: Action, w': World, done: bool) {
    if done then Step(w, t, a, w') else w' == w && forall v :: !Step(w, t, a, v)
  }

  lemma NowWaiting(w: World, t: Thread, w': World, ch: nat)
    requires t in w.pcs && w.pcs[t].WriteStart? && w'.pcs == w.pcs[t := WriteWait(ch)] && Accurate(w')
    ensures WaitingWriters(w') == WaitingWriters(w) + {t} && !MayRead(w'.lock)
  {
    FieldsMean(w');
    assert t in WaitingWriters(w');
  }

  lemma NotReading(w: World, t: Thread, a: Action)
    requires t in w.pcs && LocksToRead(a) && !(a.TryRead? && w.pcs[t].ReadStart?) && !(a.ReleaseRead? && w.pcs[t].Reading?)
    ensures forall v :: !Step(w, t, a, v)
  {
  }

  /** The actions that are sections under the mutex. */
  predicate LocksToRead(a: Action) {
    a.TryRead? || a.ReleaseRead?
  }

  predicate LocksToTake(a: Action) {
    a.EnterWrite? || a.RetryWrite?
  }

  predicate LocksToEnd(a: Action) {
    a.LeaveWrite? || a.ReleaseWrite?
  }

  lemma RunExtends(ws: seq<World>, es: seq<Event>, e: Event, w: World)
    requires IsRun(ws, es) && Step(ws[|ws| - 1], e.thread, e.action, w)
    ensures IsRun(ws + [w], es + [e])
  {
    var ws', es' := ws + [w], es + [e];
    forall i | 0 <= i < |es'| ensures Step(ws'[i], es'[i].thread, es'[i].action, ws'[i + 1]) {
      if i < |es| {
        assert Step(ws[i], es[i].thread, es[i].action, ws[i + 1]);
      }
    }
  }
}
