/**
 `sched_yield` and `pthread_create` (src/pthread.c) with `cpu_switch_to` and `ret_from_fork`
 (src/switch.S) as an interleaved machine: any number of cores, any number of tasks, one step of
 one core at a time. The lock is taken before the run queues are read, is held while one task's
 registers are stored and another's loaded field by field, and is released by the task that resumes.
 */
module Smp {
  import opened SchedSpec

  /** Saved registers in the order of `struct cpu_context`: x19-x28, fp, lr, sp, q8-q15. */
  const REGS: nat := 21
  const LR: nat := 11

  /** The two addresses a saved `lr` can hold: `ret_from_fork`, and the line after `cpu_switch_to`. */
  const FORK: nat := 1
  const YIELD_RET: nat := 2

  type Regs = seq<int>

  datatype Via = Return | Fork | CreateEnd

  datatype Event = Acquired(core: nat, creates: bool) | Released(core: nat, task: nat, via: Via)

  /** Where a core is. `Spin` and `CreateSpin` wait for the lock; `Lost` is a jump to neither address. */
  datatype Pc =
    | Run
    | Spin
    | Enq
    | Pick
    | Save(prev: nat, next: nat, k: nat)
    | Load(next: nat, k: nat)
    | Unlock(via: Via)
    | CreateSpin(task: nat, prio: nat)
    | CreateEnq(task: nat, prio: nat)
    | Lost

  /**
   `base` is the scheduler before the yield in progress, `truth` what each task's registers were
   when it called `cpu_switch_to` (or its initial ones), `log` the history of the lock. No step
   depends on these three.
   */
  datatype Machine = Machine(
    sched: Sched<nat>, lock: bool, pc: seq<Pc>, regs: seq<Regs>, ctx: map<nat, Regs>,
    base: Sched<nat>, truth: map<nat, Regs>, log: seq<Event>)

  datatype Action =
    | Work(regs: Regs)
    | CallYield
    | Acquire
    | Requeues
    | Picks
    | SaveField
    | LoadField
    | Release
    | StartCreate(task: nat, prio: nat, context: Regs)
    | CreateEnqueues

  // ---------------------------------------------------------------- steps

  ghost predicate Sizes(m: Machine) {
    && |m.pc| == |m.regs| == |m.sched.current| == |m.base.current|
    && |m.sched.queues| == LEVELS
    && (forall c :: 0 <= c < |m.regs| ==> |m.regs[c]| == REGS)
    && m.ctx.Keys == m.truth.Keys
    && (forall t :: t in m.ctx ==> |m.ctx[t]| == |m.truth[t]| == REGS)
  }

  ghost predicate Enabled(m: Machine, c: nat, a: Action)
    requires Sizes(m)
  {
    c < |m.pc| &&
    match a
    case Work(r) => m.pc[c].Run? && |r| == REGS
    case CallYield => m.pc[c].Run?
    case Acquire => !m.lock && (m.pc[c].Spin? || m.pc[c].CreateSpin?)
    case Requeues => m.pc[c].Enq? && m.sched.current[c] in m.sched.prio && m.sched.prio[m.sched.current[c]] < LEVELS
    case Picks => m.pc[c].Pick?
    case SaveField => m.pc[c].Save? && m.pc[c].prev in m.ctx
    case LoadField => m.pc[c].Load? && m.pc[c].next in m.ctx
    case Release => m.pc[c].Unlock?
    case StartCreate(t, prio, r) => m.pc[c].Run? && t !in m.ctx && prio < LEVELS && |r| == REGS && r[LR] == FORK
    case CreateEnqueues => m.pc[c].CreateEnq? && m.pc[c].prio < LEVELS
  }

  ghost function At(m: Machine, c: nat, p: Pc): Machine
    requires c < |m.pc|
  {
    m.(pc := m.pc[c := p])
  }

  /** The picked task is current; unless it is the yielder itself, the switch begins. */
  ghost function PickStep(m: Machine, c: nat): Machine
    requires Sizes(m) && c < |m.pc|
  {
    var prev := m.sched.current[c];
    var s := PickNext(m.sched, c);
    var next := s.current[c];
    if next == prev then At(m, c, Unlock(Return)).(sched := s)
    else
      var r := m.regs[c][LR := YIELD_RET];
      At(m, c, Save(prev, next, 0)).(sched := s, regs := m.regs[c := r], truth := m.truth[prev := r])
  }

  ghost function SaveStep(m: Machine, c: nat): Machine
    requires Enabled1(m, c) && m.pc[c].Save? && m.pc[c].prev in m.ctx
  {
    var Save(prev, next, k) := m.pc[c];
    if k < REGS then At(m, c, Save(prev, next, k + 1)).(ctx := m.ctx[prev := m.ctx[prev][k := m.regs[c][k]]])
    else At(m, c, Load(next, 0))
  }

  ghost function LoadStep(m: Machine, c: nat): Machine
    requires Enabled1(m, c) && m.pc[c].Load? && m.pc[c].next in m.ctx
  {
    var Load(next, k) := m.pc[c];
    if k < REGS then At(m, c, Load(next, k + 1)).(regs := m.regs[c := m.regs[c][k := m.ctx[next][k]]])
    else At(m, c, if m.regs[c][LR] == FORK then Unlock(Fork) else if m.regs[c][LR] == YIELD_RET then Unlock(Return) else Lost)
  }

  ghost predicate Enabled1(m: Machine, c: nat) {
    Sizes(m) && c < |m.pc|
  }

  ghost function Step(m: Machine, c: nat, a: Action): Machine
    requires Sizes(m) && Enabled(m, c, a)
  {
    match a
    case Work(r) => m.(regs := m.regs[c := r])
    case CallYield => At(m, c, Spin)
    case Acquire =>
      At(m, c, if m.pc[c].Spin? then Enq else CreateEnq(m.pc[c].task, m.pc[c].prio))
        .(lock := true, log := m.log + [Acquired(c, m.pc[c].CreateSpin?)])
    case Requeues => At(m, c, Pick).(sched := Requeue(m.sched, c), base := m.sched)
    case Picks => PickStep(m, c)
    case SaveField => SaveStep(m, c)
    case LoadField => LoadStep(m, c)
    case Release =>
      At(m, c, Run).(lock := false, log := m.log + [Released(c, m.sched.current[c], m.pc[c].via)])
    case StartCreate(t, prio, r) =>
      At(m, c, if prio == IDLE then Run else CreateSpin(t, prio)).(ctx := m.ctx[t := r], truth := m.truth[t := r])
    case CreateEnqueues =>
      At(m, c, Unlock(CreateEnd)).(sched := Create(m.sched, m.pc[c].task, m.pc[c].prio))
  }

  // ---------------------------------------------------------------- invariant

  /** A core at `p` is between taking the lock and releasing it. */
  ghost predicate Holds(p: Pc) {
    !(p.Run? || p.Spin? || p.CreateSpin?)
  }

  ghost predicate ForkAt(log: seq<Event>, i: nat, t: nat) {
    i < |log| && log[i].Released? && log[i].via == Fork && log[i].task == t
  }

  /** Acquire and release alternate, each release by the acquiring core and the way its call ends. */
  ghost predicate LogOk(log: seq<Event>) {
    && (forall i: nat :: i < |log| && i % 2 == 0 ==> log[i].Acquired?)
    && (forall i: nat :: i < |log| && i % 2 == 1 ==>
          && log[i].Released? && log[i - 1].Acquired? && log[i].core == log[i - 1].core
          && (log[i].via == CreateEnd <==> log[i - 1].creates))
    && forall t: nat, i: nat, j: nat :: ForkAt(log, i, t) && ForkAt(log, j, t) ==> i == j
  }

  ghost predicate NeverForked(log: seq<Event>, t: nat) {
    forall i: nat :: !ForkAt(log, i, t)
  }

  ghost predicate HolderOk(m: Machine, c: nat)
    requires c < |m.pc|
  {
    Holds(m.pc[c]) ==>
      && m.lock && m.log != [] && m.log[|m.log| - 1].Acquired? && m.log[|m.log| - 1].core == c
      && (m.log[|m.log| - 1].creates <==> m.pc[c].CreateEnq? || m.pc[c] == Unlock(CreateEnd))
  }

  /** The lock is held exactly by the core of the last log entry, which is somewhere inside. */
  ghost predicate LockOk(m: Machine) {
    && LogOk(m.log)
    && (m.lock <==> |m.log| % 2 == 1)
    && (forall c :: 0 <= c < |m.pc| ==> HolderOk(m, c))
    && (m.lock ==> exists c :: 0 <= c < |m.pc| && Holds(m.pc[c]))
  }

  ghost predicate SchedOk(m: Machine)
    requires Sizes(m)
  {
    && (forall c :: 0 <= c < |m.pc| && m.pc[c].Pick? ==> Inv(m.base) && m.sched == Requeue(m.base, c))
    && ((forall c :: 0 <= c < |m.pc| ==> !m.pc[c].Pick?) ==> Inv(m.sched))
    && (forall t :: t in m.sched.prio ==> t in m.ctx)
  }

  /** Core `c` has the registers of task `t`. */
  ghost predicate Executes(m: Machine, c: nat, t: nat)
    requires Sizes(m) && c < |m.pc|
  {
    match m.pc[c]
    case Save(prev, _, _) => t == prev
    case Load(_, _) => false
    case _ => t == m.sched.current[c]
  }

  ghost predicate CoreOk(m: Machine, c: nat)
    requires Sizes(m) && c < |m.pc|
  {
    match m.pc[c]
    case Save(prev, next, k) =>
      && next == m.sched.current[c] && prev in m.ctx && prev !in m.sched.current && k <= REGS
      && m.truth[prev] == m.regs[c] && m.ctx[prev][..k] == m.regs[c][..k] && m.regs[c][LR] == YIELD_RET
    case Load(next, k) =>
      && next == m.sched.current[c] && next in m.ctx && k <= REGS && m.regs[c][..k] == m.truth[next][..k]
    case Unlock(Fork) => NeverForked(m.log, m.sched.current[c])
    case CreateSpin(t, prio) => t in m.ctx && t !in m.sched.prio && 0 < prio < LEVELS
    case CreateEnq(t, prio) => t in m.ctx && t !in m.sched.prio && 0 < prio < LEVELS
    case Lost => false
    case _ => true
  }

  ghost predicate OffCore(m: Machine, t: nat)
    requires Sizes(m)
  {
    forall c :: 0 <= c < |m.pc| ==> !Executes(m, c, t)
  }

  /** A task whose registers are on no core has them all in its context. */
  ghost predicate SavedOk(m: Machine, t: nat)
    requires Sizes(m) && t in m.ctx
  {
    OffCore(m, t) ==>
      && m.ctx[t] == m.truth[t]
      && (m.truth[t][LR] == YIELD_RET || m.truth[t][LR] == FORK)
      && (m.truth[t][LR] == FORK ==> NeverForked(m.log, t))
  }

  ghost predicate Creates(p: Pc, t: nat) {
    (p.CreateSpin? || p.CreateEnq?) && p.task == t
  }

  ghost predicate MachineInv(m: Machine) {
    && Sizes(m) && LockOk(m) && SchedOk(m)
    && (forall c :: 0 <= c < |m.pc| ==> CoreOk(m, c))
    && (forall t :: t in m.ctx ==> SavedOk(m, t))
    && (forall i: nat, t: nat :: ForkAt(m.log, i, t) ==> t in m.ctx)
    && CreatesApart(m)
  }

  /** No two cores create the same task. */
  ghost predicate CreatesApart(m: Machine) {
    forall c, d, t :: 0 <= c < |m.pc| && 0 <= d < |m.pc| && Creates(m.pc[c], t) && Creates(m.pc[d], t) ==> c == d
  }

  /** The lock is free, every core runs a task, and the other contexts are those of new tasks. */
  ghost predicate Initial(m: Machine) {
    && Sizes(m) && !m.lock && m.log == [] && Inv(m.sched)
    && (forall c :: 0 <= c < |m.pc| ==> m.pc[c] == Run)
    && (forall t :: t in m.sched.prio ==> t in m.ctx)
    && forall t :: t in m.ctx && t !in m.sched.current ==> m.ctx[t] == m.truth[t] && m.truth[t][LR] == FORK
  }

  lemma InitialInv(m: Machine)
    requires Initial(m)
    ensures MachineInv(m)
  {
    forall t | t in m.ctx
      ensures SavedOk(m, t)
    {
      if t in m.sched.current {
        var c :| 0 <= c < |m.sched.current| && m.sched.current[c] == t;
        assert Executes(m, c, t);
      }
    }
  }

  // ---------------------------------------------------------------- each step keeps the invariant

  lemma LogGrows(log: seq<Event>, e: Event)
    requires LogOk(log)
    requires |log| % 2 == 0 ==> e.Acquired?
    requires |log| % 2 == 1 ==> e.Released? && log[|log| - 1].core == e.core && (e.via == CreateEnd <==> log[|log| - 1].creates)
    requires e.Released? && e.via == Fork ==> NeverForked(log, e.task)
    ensures LogOk(log + [e])
    ensures forall i: nat, t: nat :: ForkAt(log + [e], i, t) ==> ForkAt(log, i, t) || (e.Released? && t == e.task)
    ensures forall t :: NeverForked(log, t) && !(e.Released? && e.via == Fork && e.task == t) ==> NeverForked(log + [e], t)
  {
    forall i: nat, t: nat
      ensures ForkAt(log + [e], i, t) <==> ForkAt(log, i, t) || (i == |log| && e.Released? && e.via == Fork && e.task == t)
    {
    }
  }

  /** `u` differs from `m` in what core `c` may write while the others wait. */
  ghost predicate MovesOnly(m: Machine, u: Machine, c: nat) {
    && Sizes(m) && Sizes(u) && |u.pc| == |m.pc| && c < |m.pc|
    && forall d :: 0 <= d < |m.pc| && d != c ==> u.pc[d] == m.pc[d] && u.regs[d] == m.regs[d] && u.sched.current[d] == m.sched.current[d]
  }

  /** Inside the critical section of a yield. */
  ghost predicate Inside(p: Pc) {
    Holds(p) && !p.CreateEnq? && p != Unlock(CreateEnd)
  }

  ghost predicate OthersWait(m: Machine, c: nat) {
    forall d :: 0 <= d < |m.pc| && d != c ==> !Holds(m.pc[d])
  }

  lemma HolderAlone(m: Machine, c: nat)
    requires LockOk(m) && c < |m.pc| && (Holds(m.pc[c]) || !m.lock)
    ensures OthersWait(m, c)
  {
    forall d | 0 <= d < |m.pc| && d != c
      ensures !Holds(m.pc[d])
    {
      assert HolderOk(m, d) && HolderOk(m, c);
    }
  }

  /** A step that leaves the lock alone and stays inside, or outside, the critical section. */
  lemma SameHolder(m: Machine, u: Machine, c: nat)
    requires LockOk(m) && MovesOnly(m, u, c) && u.lock == m.lock && u.log == m.log
    requires Holds(u.pc[c]) == Holds(m.pc[c])
    requires Holds(m.pc[c]) ==> ((u.pc[c].CreateEnq? || u.pc[c] == Unlock(CreateEnd)) <==> (m.pc[c].CreateEnq? || m.pc[c] == Unlock(CreateEnd)))
    ensures LockOk(u)
  {
    forall d | 0 <= d < |u.pc|
      ensures HolderOk(u, d)
    {
      assert HolderOk(m, d);
    }
    if u.lock {
      var d :| 0 <= d < |m.pc| && Holds(m.pc[d]);
      assert Holds(u.pc[d]);
    }
  }

  lemma OthersOk(m: Machine, u: Machine, c: nat)
    requires MachineInv(m) && MovesOnly(m, u, c)
    requires OthersWait(m, c) || (u.sched == m.sched && u.log == m.log && forall t :: t in m.ctx ==> t in u.ctx && u.ctx[t] == m.ctx[t] && u.truth[t] == m.truth[t])
    requires forall t :: t in m.ctx ==> t in u.ctx
    requires forall t :: t in u.sched.prio ==> t in m.sched.prio || Creates(m.pc[c], t)
    ensures forall d :: 0 <= d < |m.pc| && d != c ==> CoreOk(u, d)
  {
    hide LockOk, SchedOk, SavedOk;
    forall d | 0 <= d < |m.pc| && d != c
      ensures CoreOk(u, d)
    {
      assert CoreOk(m, d);
      assert m.pc[d].CreateSpin? || m.pc[d].CreateEnq? ==> Creates(m.pc[d], m.pc[d].task);
    }
  }

  /** A task that is off-core after the step was so before it. */
  lemma OffBefore(m: Machine, u: Machine, c: nat, t: nat)
    requires MovesOnly(m, u, c) && OffCore(u, t) && !Executes(m, c, t)
    ensures OffCore(m, t)
  {
    forall d | 0 <= d < |m.pc|
      ensures !Executes(m, d, t)
    {
      assert !Executes(u, d, t);
    }
  }

  /** Records that a step does not touch stay right. */
  lemma SavedSame(m: Machine, u: Machine, c: nat, t: nat)
    requires MovesOnly(m, u, c) && t in m.ctx && t in u.ctx && SavedOk(m, t)
    requires OffCore(u, t) ==> !Executes(m, c, t) && u.ctx[t] == m.ctx[t] && u.truth[t] == m.truth[t]
    requires OffCore(u, t) && NeverForked(m.log, t) ==> NeverForked(u.log, t)
    ensures SavedOk(u, t)
  {
    if OffCore(u, t) { OffBefore(m, u, c, t); }
  }

  /** The same for all tasks, when no context changes and the core keeps the registers it has. */
  lemma AllSaved(m: Machine, u: Machine, c: nat)
    requires MachineInv(m) && MovesOnly(m, u, c) && u.ctx == m.ctx && u.truth == m.truth
    requires forall t :: t in m.ctx && Executes(m, c, t) ==> Executes(u, c, t)
    requires forall t :: t in m.ctx && NeverForked(m.log, t) && !Executes(u, c, t) ==> NeverForked(u.log, t)
    ensures forall t :: t in u.ctx ==> SavedOk(u, t)
  {
    hide Inv, NeverForked, LogOk, LockOk, SchedOk, SavedOk, CoreOk, Executes;
    forall t | t in u.ctx
      ensures SavedOk(u, t)
    {
      assert OffCore(u, t) ==> !Executes(u, c, t);
      SavedSame(m, u, c, t);
    }
  }

  lemma CreatesKept(m: Machine, u: Machine, c: nat)
    requires CreatesApart(m) && MovesOnly(m, u, c) && forall t :: Creates(u.pc[c], t) ==> Creates(m.pc[c], t)
    ensures CreatesApart(u)
  {
    forall d, e, t | 0 <= d < |u.pc| && 0 <= e < |u.pc| && Creates(u.pc[d], t) && Creates(u.pc[e], t)
      ensures d == e
    {
      assert Creates(m.pc[d], t) && Creates(m.pc[e], t);
    }
  }

  /** Steps outside the critical section. */
  lemma OutsideInv(m: Machine, c: nat, a: Action)
    requires MachineInv(m) && Enabled(m, c, a) && (a.Work? || a.CallYield?)
    ensures MachineInv(Step(m, c, a))
  {
    hide Inv, CreatesApart, NeverForked, LogOk, HolderOk, SavedOk;
    var u := Step(m, c, a);
    SameHolder(m, u, c);
    OthersOk(m, u, c);
    CreatesKept(m, u, c);
    AllSaved(m, u, c);
  }

  lemma AcquireInv(m: Machine, c: nat)
    requires MachineInv(m) && Enabled(m, c, Acquire)
    ensures MachineInv(Step(m, c, Acquire))
  {
    hide Inv, CreatesApart, NeverForked, LogOk, SavedOk, ForkAt;
    var u := Step(m, c, Acquire);
    HolderAlone(m, c);
    LogGrows(m.log, Acquired(c, m.pc[c].CreateSpin?));
    assert Holds(u.pc[c]) && CoreOk(m, c);
    OthersOk(m, u, c);
    CreatesKept(m, u, c);
    AllSaved(m, u, c);
  }

  lemma CurrentKnown(m: Machine, c: nat)
    requires MachineInv(m) && c < |m.pc| && forall d :: 0 <= d < |m.pc| ==> !m.pc[d].Pick?
    ensures m.sched.current[c] in m.ctx
  {
  }

  lemma ReleaseInv(m: Machine, c: nat)
    requires MachineInv(m) && Enabled(m, c, Release)
    ensures MachineInv(Step(m, c, Release))
  {
    hide Inv, CreatesApart, LogOk, NeverForked, SavedOk, ForkAt;
    var u := Step(m, c, Release);
    HolderAlone(m, c);
    assert HolderOk(m, c) && CoreOk(m, c);
    CurrentKnown(m, c);
    LogGrows(m.log, Released(c, m.sched.current[c], m.pc[c].via));
    OthersOk(m, u, c);
    CreatesKept(m, u, c);
    AllSaved(m, u, c);
  }

  lemma RequeuesInv(m: Machine, c: nat)
    requires MachineInv(m) && Enabled(m, c, Requeues)
    ensures MachineInv(Step(m, c, Requeues))
  {
    hide Inv, CreatesApart, LogOk, NeverForked, SavedOk, ForkAt;
    var u := Step(m, c, Requeues);
    HolderAlone(m, c);
    SameHolder(m, u, c);
    OthersOk(m, u, c);
    CreatesKept(m, u, c);
    AllSaved(m, u, c);
  }

  /** What a pick does to the current tasks: those of other cores stay, the yielder is current or nowhere. */
  lemma PickFacts(m: Machine, c: nat)
    requires Sizes(m) && SchedOk(m) && c < |m.pc| && m.pc[c].Pick?
    ensures var s := PickNext(m.sched, c);
            var prev := m.sched.current[c];
            && Inv(s) && s.prio == m.sched.prio && |s.current| == |m.sched.current| && |s.queues| == LEVELS
            && prev in m.ctx && s.current[c] in m.ctx
            && (forall d :: 0 <= d < |s.current| && d != c ==> s.current[d] == m.sched.current[d])
            && (s.current[c] != prev ==> prev !in s.current)
  {
    var prev := m.sched.current[c];
    assert prev in m.base.current;
    YieldInv(m.base, c);
    YieldFrom(m.base, c, prev);
    assert PickNext(m.sched, c) == Yield(m.base, c);
  }

  lemma PicksCore(m: Machine, c: nat)
    requires MachineInv(m) && Enabled(m, c, Picks)
    ensures var u := Step(m, c, Picks);
            && MovesOnly(m, u, c) && CoreOk(u, c) && u.ctx == m.ctx && Inv(u.sched) && u.sched.prio == m.sched.prio
            && Inside(m.pc[c]) && Inside(u.pc[c]) && !u.pc[c].Pick?
            && u == m.(pc := u.pc, sched := u.sched, regs := u.regs, truth := u.truth)
  {
    hide Inv, LogOk, LockOk, SchedOk, SavedOk, CreatesApart, PickNext, Requeue;
    PickFacts(m, c);
  }

  lemma PicksInv(m: Machine, c: nat)
    requires MachineInv(m) && Enabled(m, c, Picks)
    ensures MachineInv(Step(m, c, Picks))
  {
    hide Step, PickStep, Enabled, Inv, CreatesApart, CoreOk, LogOk, NeverForked, SavedOk, ForkAt, PickNext, Requeue;
    var u := Step(m, c, Picks);
    PicksCore(m, c);
    HolderAlone(m, c);
    SameHolder(m, u, c);
    OthersOk(m, u, c);
    CreatesKept(m, u, c);
    PicksSaved(m, c);
  }

  lemma PicksSaved(m: Machine, c: nat)
    requires MachineInv(m) && Enabled(m, c, Picks) && Sizes(Step(m, c, Picks))
    ensures var u := Step(m, c, Picks); forall t :: t in u.ctx ==> SavedOk(u, t)
  {
    hide Inv, LogOk, LockOk, NeverForked, ForkAt, PickNext, Requeue, SavedOk;
    var u := Step(m, c, Picks);
    PickFacts(m, c);
    var prev := m.sched.current[c];
    forall t | t in u.ctx
      ensures SavedOk(u, t)
    {
      assert Executes(u, c, prev);
      assert Executes(m, c, t) <==> t == prev;
      assert OffCore(u, t) ==> t != prev;
      SavedSame(m, u, c, t);
    }
  }

  lemma SaveFieldCore(m: Machine, c: nat)
    requires MachineInv(m) && Enabled(m, c, SaveField)
    ensures var u := Step(m, c, SaveField);
            && MovesOnly(m, u, c) && CoreOk(u, c) && u.ctx.Keys == m.ctx.Keys
            && Inside(u.pc[c]) && Inside(m.pc[c]) && !u.pc[c].Pick? && !m.pc[c].Pick?
            && u == m.(pc := u.pc, ctx := u.ctx)
  {
    hide Inv, LogOk, LockOk, SchedOk, SavedOk, CreatesApart;
    var u := Step(m, c, SaveField);
    assert CoreOk(m, c);
    CurrentInside(m, c);
    var Save(prev, next, k) := m.pc[c];
    if k < REGS {
      var v := m.ctx[prev][k := m.regs[c][k]];
      assert v[..k + 1] == v[..k] + [m.regs[c][k]] && m.regs[c][..k + 1] == m.regs[c][..k] + [m.regs[c][k]];
      assert v[..k] == m.ctx[prev][..k];
    }
  }

  lemma SaveFieldInv(m: Machine, c: nat)
    requires MachineInv(m) && Enabled(m, c, SaveField)
    ensures MachineInv(Step(m, c, SaveField))
  {
    hide Step, SaveStep, Enabled, Inv, CreatesApart, CoreOk, LogOk, NeverForked, ForkAt, SavedOk;
    var u := Step(m, c, SaveField);
    SaveFieldCore(m, c);
    CurrentInside(m, c);
    HolderAlone(m, c);
    SameHolder(m, u, c);
    OthersOk(m, u, c);
    CreatesKept(m, u, c);
    SaveFieldSaved(m, c);
  }

  /** While a switch is in progress the scheduler is between calls, and its current tasks are known. */
  lemma CurrentInside(m: Machine, c: nat)
    requires MachineInv(m) && c < |m.pc| && Holds(m.pc[c]) && !m.pc[c].Pick?
    ensures Inv(m.sched) && m.sched.current[c] in m.ctx
    ensures forall d :: 0 <= d < |m.pc| && d != c ==> m.sched.current[d] != m.sched.current[c]
  {
    HolderAlone(m, c);
  }

  lemma SaveFieldSaved(m: Machine, c: nat)
    requires MachineInv(m) && Enabled(m, c, SaveField) && Sizes(Step(m, c, SaveField))
    ensures var u := Step(m, c, SaveField); forall t :: t in u.ctx ==> SavedOk(u, t)
  {
    hide Inv, LogOk, LockOk, NeverForked, ForkAt, SavedOk;
    var u := Step(m, c, SaveField);
    assert CoreOk(m, c);
    var Save(prev, next, k) := m.pc[c];
    forall t | t in u.ctx
      ensures SavedOk(u, t)
    {
      if t != prev {
        SavedSame(m, u, c, t);
      } else if k < REGS {
        StillOn(u, c, t);
      } else {
        WholeSaved(m, u, prev);
      }
    }
  }

  lemma StillOn(u: Machine, c: nat, t: nat)
    requires Sizes(u) && c < |u.pc| && t in u.ctx && Executes(u, c, t)
    ensures SavedOk(u, t)
  {
  }

  lemma WholeSaved(m: Machine, u: Machine, t: nat)
    requires Sizes(m) && Sizes(u) && t in u.ctx && u.ctx[t][..REGS] == u.truth[t][..REGS] && u.truth[t][LR] == YIELD_RET
    ensures SavedOk(u, t)
  {
    assert u.ctx[t] == u.ctx[t][..REGS] && u.truth[t] == u.truth[t][..REGS];
  }

  /** The task a core is loading is on no core, so its context is complete. */
  lemma LoadedComplete(m: Machine, c: nat)
    requires MachineInv(m) && c < |m.pc| && m.pc[c].Load?
    ensures var t := m.pc[c].next;
            && t in m.ctx && m.ctx[t] == m.truth[t]
            && (m.truth[t][LR] == YIELD_RET || m.truth[t][LR] == FORK)
            && (m.truth[t][LR] == FORK ==> NeverForked(m.log, t))
  {
    hide Inv, LogOk, NeverForked, ForkAt;
    var t := m.pc[c].next;
    assert CoreOk(m, c);
    CurrentInside(m, c);
    HolderAlone(m, c);
    forall d | 0 <= d < |m.pc|
      ensures !Executes(m, d, t)
    {
    }
    assert SavedOk(m, t);
  }

  lemma LoadFieldCore(m: Machine, c: nat)
    requires MachineInv(m) && Enabled(m, c, LoadField)
    ensures var u := Step(m, c, LoadField);
            && MovesOnly(m, u, c) && CoreOk(u, c) && Inside(u.pc[c]) && m.pc[c].Load? && !u.pc[c].Pick?
            && u == m.(pc := u.pc, regs := u.regs)
  {
    hide Inv, LogOk, NeverForked, ForkAt, LockOk, SchedOk, SavedOk, CreatesApart;
    assert CoreOk(m, c);
    LoadedComplete(m, c);
    LoadPrefix(m, c);
  }

  lemma LoadFieldInv(m: Machine, c: nat)
    requires MachineInv(m) && Enabled(m, c, LoadField)
    ensures MachineInv(Step(m, c, LoadField))
  {
    hide Step, LoadStep, Enabled, Inv, CreatesApart, LogOk, NeverForked, ForkAt, SavedOk, CoreOk;
    var u := Step(m, c, LoadField);
    LoadFieldCore(m, c);
    HolderAlone(m, c);
    SameHolder(m, u, c);
    OthersOk(m, u, c);
    CreatesKept(m, u, c);
    LoadsNothing(m, c);
    AllSaved(m, u, c);
  }

  lemma LoadsNothing(m: Machine, c: nat)
    requires Sizes(m) && c < |m.pc| && m.pc[c].Load?
    ensures forall t :: t in m.ctx ==> !Executes(m, c, t)
  {
  }

  lemma LoadPrefix(m: Machine, c: nat)
    requires Sizes(m) && c < |m.pc| && m.pc[c].Load? && m.pc[c].next in m.ctx && CoreOk(m, c)
    requires m.ctx[m.pc[c].next] == m.truth[m.pc[c].next]
    ensures var k := m.pc[c].k;
            var want := m.truth[m.pc[c].next];
            if k < REGS then m.regs[c][k := m.ctx[m.pc[c].next][k]][..k + 1] == want[..k + 1] else m.regs[c] == want
  {
    var Load(t, k) := m.pc[c];
    var want := m.truth[t];
    if k < REGS {
      var r := m.regs[c][k := m.ctx[t][k]];
      assert r[..k + 1] == r[..k] + [want[k]] && want[..k + 1] == want[..k] + [want[k]];
    } else {
      assert m.regs[c] == m.regs[c][..k] && want == want[..k];
    }
  }

  lemma StartCreateInv(m: Machine, c: nat, t: nat, prio: nat, r: Regs)
    requires MachineInv(m) && Enabled(m, c, StartCreate(t, prio, r))
    ensures MachineInv(Step(m, c, StartCreate(t, prio, r)))
  {
    hide Inv, LogOk, NeverForked, SavedOk, HolderOk;
    var u := Step(m, c, StartCreate(t, prio, r));
    SameHolder(m, u, c);
    OthersOk(m, u, c);
    forall d | 0 <= d < |m.pc|
      ensures !Creates(m.pc[d], t)
    {
      KnownCreate(m, d, t);
    }
    StartCreateSaved(m, c, t, prio, r);
  }

  lemma StartCreateSaved(m: Machine, c: nat, t: nat, prio: nat, r: Regs)
    requires MachineInv(m) && Enabled(m, c, StartCreate(t, prio, r)) && Sizes(Step(m, c, StartCreate(t, prio, r)))
    ensures var u := Step(m, c, StartCreate(t, prio, r)); forall x :: x in u.ctx ==> SavedOk(u, x)
  {
    hide Inv, LogOk, LockOk, SchedOk, CoreOk, NeverForked, SavedOk, CreatesApart;
    var u := Step(m, c, StartCreate(t, prio, r));
    NotForked(m.log, t);
    forall x | x in u.ctx
      ensures SavedOk(u, x)
    {
      if x == t {
        NewSaved(u, t);
      } else {
        assert Executes(m, c, x) ==> Executes(u, c, x);
        SavedSame(m, u, c, x);
      }
    }
  }

  lemma KnownCreate(m: Machine, d: nat, t: nat)
    requires Sizes(m) && d < |m.pc| && CoreOk(m, d) && t !in m.ctx
    ensures !Creates(m.pc[d], t)
  {
  }

  lemma NotForked(log: seq<Event>, t: nat)
    requires forall i: nat :: !ForkAt(log, i, t)
    ensures NeverForked(log, t)
  {
  }

  lemma NewSaved(u: Machine, t: nat)
    requires Sizes(u) && t in u.ctx && u.ctx[t] == u.truth[t] && u.truth[t][LR] == FORK && NeverForked(u.log, t)
    ensures SavedOk(u, t)
  {
  }

  /** The holder `c` has put its new task in and goes to the unlock. */
  ghost predicate HasCreated(m: Machine, u: Machine, c: nat) {
    && MovesOnly(m, u, c) && m.pc[c].CreateEnq? && CoreOk(u, c) && Inv(u.sched)
    && Creates(m.pc[c], m.pc[c].task) && m.pc[c].task in m.ctx
    && Holds(m.pc[c]) && u.pc[c] == Unlock(CreateEnd) && u == m.(pc := u.pc, sched := u.sched)
    && u.sched.prio == m.sched.prio[m.pc[c].task := m.pc[c].prio] && u.sched.current == m.sched.current
  }

  lemma CreateEnqueuesCore(m: Machine, c: nat)
    requires MachineInv(m) && Enabled(m, c, CreateEnqueues)
    ensures HasCreated(m, Step(m, c, CreateEnqueues), c)
  {
    hide LogOk, NeverForked, ForkAt, LockOk, SchedOk, SavedOk, CreatesApart, Inv;
    assert CoreOk(m, c);
    CurrentInside(m, c);
    CreateInv(m.sched, m.pc[c].task, m.pc[c].prio);
  }

  lemma CreateEnqueuesInv(m: Machine, c: nat)
    requires MachineInv(m) && Enabled(m, c, CreateEnqueues)
    ensures MachineInv(Step(m, c, CreateEnqueues))
  {
    hide Step, Create, Inv, CreatesApart, LogOk, NeverForked, ForkAt, SavedOk, CoreOk;
    var u := Step(m, c, CreateEnqueues);
    CreateEnqueuesCore(m, c);
    HolderAlone(m, c);
    SameHolder(m, u, c);
    OthersOk(m, u, c);
    CreatesKept(m, u, c);
    AllSaved(m, u, c);
  }

  /** Every step of every core keeps the invariant. */
  lemma StepInv(m: Machine, c: nat, a: Action)
    requires MachineInv(m) && Enabled(m, c, a)
    ensures MachineInv(Step(m, c, a))
  {
    hide MachineInv, Step, Enabled;
    match a
    case Work(_) => OutsideInv(m, c, a);
    case CallYield => OutsideInv(m, c, a);
    case Acquire => AcquireInv(m, c);
    case Requeues => RequeuesInv(m, c);
    case Picks => PicksInv(m, c);
    case SaveField => SaveFieldInv(m, c);
    case LoadField => LoadFieldInv(m, c);
    case Release => ReleaseInv(m, c);
    case StartCreate(t, prio, r) => StartCreateInv(m, c, t, prio, r);
    case CreateEnqueues => CreateEnqueuesInv(m, c);
  }

  // ---------------------------------------------------------------- progress

  /** `n` cores: core 0 runs the boot task, the others their IDLE startup tasks. */
  ghost function Booted(n: nat): Machine {
    var blank := seq(REGS, i => 0);
    var tasks := seq<nat>(n, i => i);
    var contexts := map t | t in tasks :: blank;
    var s := Sched(seq(LEVELS, i => []), map t | t in tasks :: if t == 0 then 2 else IDLE, tasks);
    Machine(s, false, seq(n, i => Run), seq(n, i => blank), contexts, s, contexts, [])
  }

  lemma BootedInitial(n: nat)
    ensures Initial(Booted(n)) && |Booted(n).pc| == n
  {
    var s := Booted(n).sched;
  }

  /** A core that does not wait for a held lock can go on. */
  lemma CanGoOn(m: Machine, c: nat)
    requires MachineInv(m) && c < |m.pc| && !(m.lock && (m.pc[c].Spin? || m.pc[c].CreateSpin?))
    ensures exists a :: Enabled(m, c, a)
  {
    hide LogOk, NeverForked, ForkAt, SavedOk, CreatesApart, Inv;
    assert CoreOk(m, c);
    match m.pc[c]
    case Run => assert Enabled(m, c, CallYield);
    case Spin => assert Enabled(m, c, Acquire);
    case CreateSpin(_, _) => assert Enabled(m, c, Acquire);
    case Enq => EnqCanGoOn(m, c); assert Enabled(m, c, Requeues);
    case Pick => assert Enabled(m, c, Picks);
    case Save(_, _, _) => assert Enabled(m, c, SaveField);
    case Load(_, _) => assert Enabled(m, c, LoadField);
    case Unlock(_) => assert Enabled(m, c, Release);
    case CreateEnq(_, _) => assert Enabled(m, c, CreateEnqueues);
  }

  lemma EnqCanGoOn(m: Machine, c: nat)
    requires MachineInv(m) && c < |m.pc| && m.pc[c].Enq?
    ensures m.sched.current[c] in m.sched.prio && m.sched.prio[m.sched.current[c]] < LEVELS
  {
    CurrentInside(m, c);
    assert m.sched.current[c] in m.sched.current;
  }

  /** The most steps the holder of the lock has before its release. */
  ghost function StepsLeft(p: Pc): nat {
    match p
    case Enq => 2 * REGS + 5
    case Pick => 2 * REGS + 4
    case Save(_, _, k) => if k <= REGS then 2 * REGS + 3 - k else 0
    case Load(_, k) => if k <= REGS then REGS + 2 - k else 0
    case CreateEnq(_, _) => 2
    case Unlock(_) => 1
    case _ => 0
  }

  /** After a step from `p` core `c` is nearer to the release, or has released the lock. */
  ghost predicate Nearer(p: Pc, u: Machine, c: nat) {
    && c < |u.pc| && StepsLeft(u.pc[c]) < StepsLeft(p) <= 47
    && (StepsLeft(p) == 1 ==> !u.lock)
  }

  /** Each step of the holder takes it nearer to the release. */
  lemma HolderAdvances(m: Machine, c: nat, a: Action)
    requires MachineInv(m) && Enabled(m, c, a) && Holds(m.pc[c])
    ensures Nearer(m.pc[c], Step(m, c, a), c)
  {
    hide LogOk, NeverForked, ForkAt, SavedOk, CreatesApart, Inv, SchedOk;
    assert CoreOk(m, c);
  }

  /** No reachable machine is stuck: every core can go on, or waits for a holder that can. */
  lemma NotStuck(m: Machine, c: nat)
    requires MachineInv(m) && c < |m.pc|
    ensures exists d: nat, a :: d < |m.pc| && (d == c || (m.lock && Holds(m.pc[d]))) && Enabled(m, d, a)
  {
    hide LogOk, NeverForked, ForkAt, SavedOk, CreatesApart, Inv, SchedOk, CoreOk, Enabled;
    if m.lock && (m.pc[c].Spin? || m.pc[c].CreateSpin?) {
      var d :| 0 <= d < |m.pc| && Holds(m.pc[d]);
      CanGoOn(m, d);
      var a :| Enabled(m, d, a);
    } else {
      CanGoOn(m, c);
      var a :| Enabled(m, c, a);
    }
  }

  // ---------------------------------------------------------------- whole runs

  /** A run: an initial machine, then one step of one core at a time, in any interleaving. */
  ghost predicate IsRun(b: seq<Machine>) {
    && b != [] && Initial(b[0])
    && forall i: nat :: i + 1 < |b| ==> StepAt(b, i)
  }

  ghost predicate StepAt(b: seq<Machine>, i: nat)
    requires i + 1 < |b|
  {
    Follows(b[i], b[i + 1])
  }

  ghost predicate Follows(m: Machine, u: Machine) {
    Sizes(m) && exists c: nat, a :: Enabled(m, c, a) && u == Step(m, c, a)
  }

  lemma {:induction false} RunInv(b: seq<Machine>, i: nat)
    requires IsRun(b) && i < |b|
    ensures MachineInv(b[i])
  {
    hide MachineInv, Step, Enabled, Initial;
    if i == 0 {
      InitialInv(b[0]);
    } else {
      RunInv(b, i - 1);
      assert StepAt(b, i - 1);
      var c: nat, a :| Enabled(b[i - 1], c, a) && b[i] == Step(b[i - 1], c, a);
      StepInv(b[i - 1], c, a);
    }
  }

  /** In every state of every run, no task's registers are on two cores, and no task is current on two. */
  lemma NoTaskTwice(b: seq<Machine>, i: nat, c: nat, d: nat)
    requires IsRun(b) && i < |b| && c < d < |b[i].pc|
    ensures Sizes(b[i]) && b[i].sched.current[c] != b[i].sched.current[d]
    ensures forall t :: !(Executes(b[i], c, t) && Executes(b[i], d, t))
  {
    RunInv(b, i);
    var m := b[i];
    assert CoreOk(m, c) && CoreOk(m, d);
    CurrentsApart(m, c, d);
    if Holds(m.pc[c]) { HolderAlone(m, c); }
  }

  lemma CurrentsApart(m: Machine, c: nat, d: nat)
    requires MachineInv(m) && c < |m.pc| && d < |m.pc| && c != d
    ensures m.sched.current[c] != m.sched.current[d]
  {
    if e :| 0 <= e < |m.pc| && m.pc[e].Pick? {
      assert m.base.current == m.sched.current;
    }
  }

  /** Whenever a core loads from a context, no core is still storing into it, and it is complete. */
  lemma NoEarlyLoad(b: seq<Machine>, i: nat, c: nat, d: nat)
    requires IsRun(b) && i < |b| && c < |b[i].pc| && d < |b[i].pc| && b[i].pc[c].Load?
    ensures var m := b[i];
            var t := m.pc[c].next;
            && t in m.ctx && t in m.truth && m.ctx[t] == m.truth[t]
            && !(m.pc[d].Save? && m.pc[d].prev == t)
  {
    RunInv(b, i);
    LoadedComplete(b[i], c);
    HolderAlone(b[i], c);
  }

  /** A core in a yield never jumps anywhere but to the end of `sched_yield` or to `ret_from_fork`. */
  lemma NeverLost(b: seq<Machine>, i: nat, c: nat)
    requires IsRun(b) && i < |b| && c < |b[i].pc|
    ensures b[i].pc[c] != Lost
  {
    RunInv(b, i);
    assert CoreOk(b[i], c);
  }

  /** Task `t` calls `cpu_switch_to` in state `i`: its registers are about to be stored. */
  ghost predicate SwitchesOut(m: Machine, c: nat, t: nat) {
    c < |m.pc| && m.pc[c].Save? && m.pc[c].prev == t && m.pc[c].k == 0
  }

  /** All registers of task `t` are loaded. */
  ghost predicate SwitchedIn(m: Machine, c: nat, t: nat) {
    c < |m.pc| && m.pc[c] == Load(t, REGS)
  }

  /** One step changes the registers recorded for `t` only when `t` switches out. */
  lemma TruthStep(m: Machine, c: nat, a: Action, t: nat)
    requires Sizes(m) && Enabled(m, c, a) && t in m.truth
    ensures var u := Step(m, c, a);
            t in u.truth && (u.truth[t] == m.truth[t] || SwitchesOut(u, c, t))
  {
    hide PickNext, Requeue, Create;
    assert t in m.ctx;
  }

  lemma {:induction false} TruthKept(b: seq<Machine>, i: nat, j: nat, t: nat)
    requires IsRun(b) && i <= j < |b| && t in b[i].truth
    requires forall k: nat, c: nat :: i < k <= j ==> !SwitchesOut(b[k], c, t)
    ensures t in b[j].truth && b[j].truth[t] == b[i].truth[t]
    decreases j
  {
    if i < j {
      TruthKept(b, i, j - 1, t);
      hide Step, Enabled;
      assert StepAt(b, j - 1);
      var c: nat, a :| Enabled(b[j - 1], c, a) && b[j] == Step(b[j - 1], c, a);
      TruthStep(b[j - 1], c, a, t);
    }
  }

  /**
   A task that switches out in state `i` and is loaded in state `j`, without having switched out
   again in between, is loaded with exactly the registers it switched out with, on whatever core.
   */
  lemma ResumesWhereItStopped(b: seq<Machine>, i: nat, j: nat, t: nat, c: nat, d: nat)
    requires IsRun(b) && i <= j < |b| && SwitchesOut(b[i], c, t) && SwitchedIn(b[j], d, t)
    requires forall k: nat, e: nat :: i < k <= j ==> !SwitchesOut(b[k], e, t)
    ensures c < |b[i].regs| && d < |b[j].regs| && b[j].regs[d] == b[i].regs[c]
  {
    RunInv(b, i);
    RunInv(b, j);
    assert CoreOk(b[i], c) && CoreOk(b[j], d);
    TruthKept(b, i, j, t);
    LoadedWhole(b[j], d, t);
  }

  lemma LoadedWhole(m: Machine, d: nat, t: nat)
    requires MachineInv(m) && SwitchedIn(m, d, t)
    ensures t in m.truth && m.regs[d] == m.truth[t]
  {
    assert CoreOk(m, d);
    assert m.regs[d] == m.regs[d][..REGS] && m.truth[t] == m.truth[t][..REGS];
  }

  /** A task created with context `r` starts with exactly that context, on whatever core. */
  lemma StartsWhereCreated(b: seq<Machine>, i: nat, j: nat, c: nat, t: nat, prio: nat, r: Regs, d: nat)
    requires IsRun(b) && i < j < |b| && Sizes(b[i]) && Enabled(b[i], c, StartCreate(t, prio, r))
    requires b[i + 1] == Step(b[i], c, StartCreate(t, prio, r)) && SwitchedIn(b[j], d, t)
    requires forall k: nat, e: nat :: i + 1 < k <= j ==> !SwitchesOut(b[k], e, t)
    ensures d < |b[j].regs| && b[j].regs[d] == r
  {
    RunInv(b, j);
    TruthKept(b, i + 1, j, t);
    LoadedWhole(b[j], d, t);
  }

  /**
   The lock: acquisitions and releases alternate; each acquisition is released once, by the core
   that made it, at the end of `pthread_create` if that took it and else after the switch, either
   where `sched_yield` goes on or in `ret_from_fork`; and no task passes through `ret_from_fork` twice.
   */
  lemma LockDiscipline(b: seq<Machine>, i: nat)
    requires IsRun(b) && i < |b|
    ensures Sizes(b[i]) && var log := b[i].log;
            && LogOk(log) && (b[i].lock <==> |log| % 2 == 1)
            && (b[i].lock ==> exists c :: 0 <= c < |b[i].pc| && Holds(b[i].pc[c]) && c == log[|log| - 1].core)
            && (!b[i].lock ==> Inv(b[i].sched) && forall c :: 0 <= c < |b[i].pc| ==> !Holds(b[i].pc[c]))
  {
    RunInv(b, i);
    LockState(b[i]);
  }

  lemma LockState(m: Machine)
    requires MachineInv(m)
    ensures m.lock ==> exists c :: 0 <= c < |m.pc| && Holds(m.pc[c]) && c == m.log[|m.log| - 1].core
    ensures !m.lock ==> Inv(m.sched) && forall c :: 0 <= c < |m.pc| ==> !Holds(m.pc[c])
  {
    hide Inv, LogOk, NeverForked, ForkAt, CoreOk, SavedOk;
    if m.lock {
      var c :| 0 <= c < |m.pc| && Holds(m.pc[c]);
      assert HolderOk(m, c);
    }
    forall c | 0 <= c < |m.pc|
      ensures !m.lock ==> !Holds(m.pc[c])
    {
      assert HolderOk(m, c);
    }
  }

  /** Each entry of the log stays: what was released was released once and for all. */
  lemma LogPrefix(m: Machine, u: Machine)
    requires Follows(m, u)
    ensures m.log <= u.log && |u.log| <= |m.log| + 1
  {
    var c: nat, a :| Enabled(m, c, a) && u == Step(m, c, a);
  }

  // ---------------------------------------------------------------- the interleaved machine is atomic

  /** The scheduler as it is between calls: a yield takes effect when it picks. */
  ghost function Between(m: Machine): Sched<nat> {
    if exists c :: 0 <= c < |m.pc| && m.pc[c].Pick? then m.base else m.sched
  }

  lemma BetweenIs(m: Machine, c: nat)
    requires LockOk(m) && c < |m.pc| && Holds(m.pc[c])
    ensures Between(m) == if m.pc[c].Pick? then m.base else m.sched
  {
    HolderAlone(m, c);
  }

  lemma BetweenInv(m: Machine)
    requires MachineInv(m)
    ensures Inv(Between(m))
  {
  }

  lemma BetweenSame(m: Machine, u: Machine, c: nat)
    requires |u.pc| == |m.pc| && c < |m.pc| && u.pc == m.pc[c := u.pc[c]] && !m.pc[c].Pick? && !u.pc[c].Pick?
    requires u.sched == m.sched && u.base == m.base
    ensures Between(u) == Between(m)
  {
    forall d | 0 <= d < |m.pc|
      ensures m.pc[d].Pick? <==> u.pc[d].Pick?
    {
    }
  }

  /** The operation on the scheduler that a step completes. */
  ghost function Completes(m: Machine, c: nat, a: Action): seq<Op<nat>>
    requires c < |m.pc|
  {
    if a.Picks? then [YieldOp(c)]
    else if a.CreateEnqueues? && m.pc[c].CreateEnq? then [CreateOp(m.pc[c].task, m.pc[c].prio)]
    else []
  }

  /** A step is one whole yield (its pick), one whole creation (its enqueue), or changes nothing between calls. */
  lemma Refines(m: Machine, c: nat, a: Action)
    requires MachineInv(m) && Enabled(m, c, a)
    ensures c < |m.pc| && Inv(Between(m))
    ensures Runs(Between(m), Completes(m, c, a), Between(Step(m, c, a)))
  {
    BetweenInv(m);
    assert c < |m.pc|;
    match a
    case Picks => PicksRefines(m, c);
    case CreateEnqueues => CreateRefines(m, c);
    case Requeues => RequeuesRefines(m, c);
    case _ => QuietRefines(m, c, a);
  }

  lemma QuietRefines(m: Machine, c: nat, a: Action)
    requires MachineInv(m) && Enabled(m, c, a) && !a.Picks? && !a.CreateEnqueues? && !a.Requeues?
    ensures Between(Step(m, c, a)) == Between(m)
  {
    hide Inv, LockOk, SchedOk, CoreOk, SavedOk, CreatesApart;
    BetweenSame(m, Step(m, c, a), c);
  }

  lemma RequeuesRefines(m: Machine, c: nat)
    requires MachineInv(m) && Enabled(m, c, Requeues)
    ensures Between(Step(m, c, Requeues)) == Between(m)
  {
    hide Inv, Requeue, LogOk;
    BetweenIs(m, c);
    assert Step(m, c, Requeues).pc[c].Pick?;
  }

  lemma PicksRefines(m: Machine, c: nat)
    requires MachineInv(m) && Enabled(m, c, Picks)
    ensures Inv(Between(m)) && Legal(Between(m), YieldOp(c))
    ensures Runs(Between(m), [YieldOp(c)], Between(Step(m, c, Picks)))
  {
    hide Inv, LogOk, Requeue, PickNext;
    BetweenInv(m);
    BetweenIs(m, c);
    PicksCore(m, c);
    PicksInv(m, c);
    BetweenIs(Step(m, c, Picks), c);
    assert Apply(Between(m), YieldOp(c)) == Yield(m.base, c) == PickNext(m.sched, c);
    OneRun(Between(m), YieldOp(c));
  }

  lemma OneRun(s: Sched<nat>, op: Op<nat>)
    requires Inv(s) && Legal(s, op)
    ensures Runs(s, [op], Apply(s, op))
  {
    assert [op][1..] == [];
    assert Runs(Apply(s, op), [op][1..], Apply(s, op));
  }

  lemma CreateRefines(m: Machine, c: nat)
    requires MachineInv(m) && Enabled(m, c, CreateEnqueues)
    ensures Inv(Between(m))
    ensures Runs(Between(m), [CreateOp(m.pc[c].task, m.pc[c].prio)], Between(Step(m, c, CreateEnqueues)))
  {
    hide Inv, LogOk, Create;
    BetweenInv(m);
    BetweenIs(m, c);
    assert CoreOk(m, c);
    CreateEnqueuesInv(m, c);
    BetweenIs(Step(m, c, CreateEnqueues), c);
    OneRun(Between(m), CreateOp(m.pc[c].task, m.pc[c].prio));
  }

  /** Some core has queued its task and is about to pick. */
  ghost predicate AtPick(m: Machine) {
    exists c :: 0 <= c < |m.pc| && m.pc[c].Pick?
  }

  /** A yield completes between states `k` and `k + 1`. */
  ghost predicate PickedAt(b: seq<Machine>, k: nat)
    requires k + 1 < |b|
  {
    AtPick(b[k]) && !AtPick(b[k + 1])
  }

  lemma PickIsSeen(m: Machine, c: nat, a: Action)
    requires MachineInv(m) && Enabled(m, c, a)
    ensures a.Picks? <==> AtPick(m) && !AtPick(Step(m, c, a))
  {
    hide Inv, PickNext, Requeue, Create, SchedOk, SavedOk, CreatesApart;
    var u := Step(m, c, a);
    assert CoreOk(m, c);
    if Holds(m.pc[c]) { HolderAlone(m, c); }
    if d :| 0 <= d < |m.pc| && m.pc[d].Pick? && d != c {
      assert u.pc[d].Pick?;
    }
  }

  /** The yields that complete, on any core, from state `s` to state `i`. */
  ghost function Picked(b: seq<Machine>, s: nat, i: nat): nat
    requires s <= i < |b|
  {
    if i == s then 0 else Picked(b, s, i - 1) + if PickedAt(b, i - 1) then 1 else 0
  }

  /** From state `s` to state `i` no task above priority `p` is created. */
  ghost predicate CreatesLow(b: seq<Machine>, s: nat, i: nat, p: nat)
    requires s <= i < |b|
  {
    forall k, c :: s <= k < i && 0 <= c < |b[k].pc| && b[k].pc[c].CreateEnq? ==> b[k].pc[c].prio <= p
  }

  /**
   Every run, however interleaved, leads from any state to any later one as some sequence of whole
   yields and creations does, with a yield for each pick in between.
   */
  lemma {:induction false} RunsAtomically(b: seq<Machine>, s: nat, i: nat, p: nat) returns (ops: seq<Op<nat>>)
    requires IsRun(b) && s <= i < |b|
    ensures Inv(Between(b[s])) && Inv(Between(b[i])) && Runs(Between(b[s]), ops, Between(b[i]))
    ensures Yields(ops) == Picked(b, s, i) && (CreatesLow(b, s, i, p) ==> CreatesUpto(ops, p))
    decreases i
  {
    hide MachineInv, Step, Enabled, Inv, Runs, Between, AtPick;
    RunInv(b, i);
    BetweenInv(b[i]);
    if i == s {
      ops := [];
      RunsNot(Between(b[s]));
    } else {
      ops := RunsAtomically(b, s, i - 1, p);
      assert StepAt(b, i - 1);
      var c: nat, a :| Enabled(b[i - 1], c, a) && b[i] == Step(b[i - 1], c, a);
      RunInv(b, i - 1);
      Refines(b[i - 1], c, a);
      PickIsSeen(b[i - 1], c, a);
      var done := Completes(b[i - 1], c, a);
      RunsAppend(Between(b[s]), ops, Between(b[i - 1]), done, Between(b[i]));
      YieldsAppend(ops, done);
      assert Yields(done) == if a.Picks? then 1 else 0 by { OneYield(done); }
      ops := ops + done;
    }
  }

  lemma OneYield(ops: seq<Op<nat>>)
    ensures |ops| <= 1 ==> Yields(ops) == if ops != [] && ops[0].YieldOp? then 1 else 0
  {
  }

  lemma RunsNot(s: Sched<nat>)
    requires Inv(s)
    ensures Runs(s, [], s)
  {
  }

  /** However the cores interleave: at position `i` of queue `p` a task waits while at most `i` yields complete ... */
  lemma WaitsInterleaved(b: seq<Machine>, s: nat, j: nat, t: nat, p: nat, i: nat)
    requires IsRun(b) && s <= j < |b| && p < LEVELS && NoneAbove(Between(b[s]), p) && CreatesLow(b, s, j, p)
    requires WaitsAt(Between(b[s]), t, p, i) && Picked(b, s, j) <= i
    ensures WaitsAt(Between(b[j]), t, p, i - Picked(b, s, j)) && t !in Between(b[j]).current
  {
    hide MachineInv, Inv, Runs, Between, NoneAbove, CreatesLow;
    var ops := RunsAtomically(b, s, j, p);
    StillWaits(Between(b[s]), ops, Between(b[j]), t, p, i);
  }

  /** ... and is current on the core whose pick is the next one. */
  lemma RunsInterleaved(b: seq<Machine>, s: nat, j: nat, t: nat, p: nat, i: nat)
    requires IsRun(b) && s <= j && j + 1 < |b| && p < LEVELS && NoneAbove(Between(b[s]), p) && CreatesLow(b, s, j, p)
    requires WaitsAt(Between(b[s]), t, p, i) && Picked(b, s, j) == i && PickedAt(b, j)
    ensures t !in Between(b[j]).current && t in Between(b[j + 1]).current
  {
    hide MachineInv, Step, Enabled, Inv, Runs, Between, NoneAbove, CreatesLow, AtPick;
    var ops := RunsAtomically(b, s, j, p);
    StillWaits(Between(b[s]), ops, Between(b[j]), t, p, i);
    assert StepAt(b, j);
    var c: nat, a :| Enabled(b[j], c, a) && b[j + 1] == Step(b[j], c, a);
    RunInv(b, j);
    PickIsSeen(b[j], c, a);
    PicksRefines(b[j], c);
    RunsOne(Between(b[j]), c, Between(b[j + 1]));
    YieldMovesUp(Between(b[j]), c, t, p, 0);
    YieldShape(Between(b[j]), c);
    assert Yield(Between(b[j]), c).current[c] == t;
  }

  lemma RunsOne(s: Sched<nat>, c: nat, u: Sched<nat>)
    requires Inv(s) && Legal(s, YieldOp(c)) && Runs(s, [YieldOp(c)], u)
    ensures c < |s.current| && u == Yield(s, c) && |u.current| == |s.current|
  {
    hide Inv, Yield;
    var ops: seq<Op<nat>> := [YieldOp(c)];
    assert ops[1..] == [];
    assert Runs(Apply(s, ops[0]), ops[1..], u);
  }
}
