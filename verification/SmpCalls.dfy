/** What the interleaved machine of Smp does for its callers: each call takes effect, and registers survive. */
module SmpCalls {
  import opened SchedSpec
  import opened Smp

  // ---------------------------------------------------------------- every call takes effect

  /** A step moves one core only. */
  lemma OneMoves(m: Machine, d: nat, a: Action)
    requires Sizes(m) && Enabled(m, d, a)
    ensures var u := Step(m, d, a);
            && d < |m.pc| == |u.pc| && |u.regs| == |m.regs|
            && forall c :: 0 <= c < |m.pc| && c != d ==> u.pc[c] == m.pc[c] && u.regs[c] == m.regs[c]
  {
    hide Create, Requeue, PickNext;
  }

  /** Between states `k` and `k + 1` the call `op` takes effect on the scheduler. */
  ghost predicate TakesEffect(b: seq<Machine>, k: nat, op: Op<nat>)
    requires k + 1 < |b|
  {
    Inv(Between(b[k])) && Legal(Between(b[k]), op) && Between(b[k + 1]) == Apply(Between(b[k]), op)
  }

  lemma OneOp(s: Sched<nat>, op: Op<nat>, u: Sched<nat>)
    requires Inv(s) && Legal(s, op) && Runs(s, [op], u)
    ensures u == Apply(s, op)
  {
    assert [op][1..] == [];
    assert Runs(Apply(s, op), [op][1..], u);
  }

  /** Core `c` has called `op`, which has not taken effect yet. */
  ghost predicate Asks(p: Pc, c: nat, op: Op<nat>) {
    match op
    case YieldOp(d) => d == c && (p.Spin? || p.Enq? || p.Pick?)
    case CreateOp(t, prio) => p == CreateSpin(t, prio) || p == CreateEnq(t, prio)
  }

  /** The step of the asking core itself. */
  lemma AskedStep(m: Machine, c: nat, a: Action, op: Op<nat>)
    requires MachineInv(m) && Enabled(m, c, a) && Asks(m.pc[c], c, op)
    ensures var u := Step(m, c, a);
            c < |u.pc| && (Asks(u.pc[c], c, op) || (Inv(Between(m)) && Legal(Between(m), op) && Between(u) == Apply(Between(m), op)))
  {
    hide MachineInv, Inv, Between, Apply, Create, Requeue, PickNext;
    OneMovesHere(m, c, a);
    if a.Picks? {
      PicksRefines(m, c);
      OneOp(Between(m), op, Between(Step(m, c, a)));
    } else if a.CreateEnqueues? {
      CreateRefines(m, c);
      FirstLegal(Between(m), op, Between(Step(m, c, a)));
      OneOp(Between(m), op, Between(Step(m, c, a)));
    }
  }

  lemma OneMovesHere(m: Machine, d: nat, a: Action)
    requires MachineInv(m) && Enabled(m, d, a)
    ensures Sizes(m) && d < |Step(m, d, a).pc|
  {
    OneMoves(m, d, a);
  }

  lemma FirstLegal(s: Sched<nat>, op: Op<nat>, u: Sched<nat>)
    requires Inv(s) && Runs(s, [op], u)
    ensures Legal(s, op)
  {
    assert [op][0] == op;
  }

  lemma StepAsked(b: seq<Machine>, k: nat, c: nat, op: Op<nat>)
    requires IsRun(b) && k + 1 < |b| && c < |b[k].pc| && Asks(b[k].pc[c], c, op)
    ensures c < |b[k + 1].pc| && (Asks(b[k + 1].pc[c], c, op) || TakesEffect(b, k, op))
  {
    RunInv(b, k);
    assert StepAt(b, k);
    hide MachineInv, Inv, Between, Apply, Legal, Step, Enabled, Asks;
    var d: nat, a :| Enabled(b[k], d, a) && b[k + 1] == Step(b[k], d, a);
    if d == c {
      AskedStep(b[k], c, a, op);
    } else {
      OneMoves(b[k], d, a);
    }
  }

  /** A core still asks, or its call has taken effect. */
  lemma {:induction false} AskedRun(b: seq<Machine>, i: nat, j: nat, c: nat, op: Op<nat>) returns (k: nat)
    requires IsRun(b) && i <= j < |b| && c < |b[i].pc| && Asks(b[i].pc[c], c, op)
    ensures (c < |b[j].pc| && Asks(b[j].pc[c], c, op)) || (i <= k < j && TakesEffect(b, k, op))
    decreases j - i
  {
    hide IsRun, TakesEffect, Asks;
    k := i;
    if i < j {
      StepAsked(b, i, c, op);
      if Asks(b[i + 1].pc[c], c, op) { k := AskedRun(b, i + 1, j, c, op); }
    }
  }

  /** A core that called `sched_yield` in state `i` and is back at its work in state `j` has yielded in between. */
  lemma YieldTakesEffect(b: seq<Machine>, i: nat, j: nat, c: nat) returns (k: nat)
    requires IsRun(b) && i < j < |b| && Sizes(b[i]) && Enabled(b[i], c, CallYield) && b[i + 1] == Step(b[i], c, CallYield)
    requires c < |b[j].pc| && b[j].pc[c] == Run
    ensures i < k < j && TakesEffect(b, k, YieldOp(c))
  {
    k := AskedRun(b, i + 1, j, c, YieldOp(c));
  }

  /** A core that called `pthread_create` for a task above IDLE and is back at its work has queued the task in between. */
  lemma CreateTakesEffect(b: seq<Machine>, i: nat, j: nat, c: nat, t: nat, prio: nat, r: Regs) returns (k: nat)
    requires IsRun(b) && i < j < |b| && Sizes(b[i]) && prio > 0
    requires Enabled(b[i], c, StartCreate(t, prio, r)) && b[i + 1] == Step(b[i], c, StartCreate(t, prio, r))
    requires c < |b[j].pc| && b[j].pc[c] == Run
    ensures i < k < j && TakesEffect(b, k, CreateOp(t, prio))
  {
    k := AskedRun(b, i + 1, j, c, CreateOp(t, prio));
  }

  // ---------------------------------------------------------------- registers survive a yield

  /** Where a task is between its call of `sched_yield` and its return. */
  ghost predicate Yielding(p: Pc) {
    p.Spin? || p.Enq? || p.Pick? || p.Save? || p == Unlock(Return)
  }

  /** The registers `r`, but for the link register, which the call of `cpu_switch_to` overwrites. */
  ghost predicate ButLink(r: Regs, s: Regs) {
    |r| == |s| == REGS && (s == r || s == r[LR := YIELD_RET])
  }

  /** Task `t` is in a call of `sched_yield` that it made with registers `r`. */
  ghost predicate InYield(m: Machine, t: nat, r: Regs)
    requires Sizes(m)
  {
    && |r| == REGS && t in m.ctx
    && (OffCore(m, t) ==> m.truth[t] == r[LR := YIELD_RET])
    && forall e :: 0 <= e < |m.pc| && Executes(m, e, t) ==> Yielding(m.pc[e]) && ButLink(r, m.regs[e])
  }

  /** Task `t` is back at its work on core `c`. */
  ghost predicate BackAt(m: Machine, c: nat, t: nat) {
    c < |m.pc| && c < |m.sched.current| && m.pc[c] == Run && m.sched.current[c] == t
  }

  lemma RequeueCurrent(s: Sched<nat>, c: nat)
    requires c < |s.current| && s.current[c] in s.prio && s.prio[s.current[c]] < |s.queues|
    ensures Requeue(s, c).current == s.current && |Requeue(s, c).queues| == |s.queues|
  {
  }

  lemma PickCurrent(s: Sched<nat>, c: nat)
    requires c < |s.current| && |s.queues| == LEVELS
    ensures var u := PickNext(s, c);
            |u.current| == |s.current| && |u.queues| == LEVELS && forall e :: 0 <= e < |s.current| && e != c ==> u.current[e] == s.current[e]
  {
    hide Highest;
  }

  lemma CreateCurrent(s: Sched<nat>, t: nat, prio: nat)
    requires |s.queues| == LEVELS && prio < LEVELS
    ensures Create(s, t, prio).current == s.current && |Create(s, t, prio).queues| == LEVELS
  {
  }

  /** A step gives no other core a new task. */
  lemma OneSwitches(m: Machine, d: nat, a: Action)
    requires Sizes(m) && Enabled(m, d, a)
    ensures var u := Step(m, d, a).sched.current;
            |u| == |m.sched.current| && forall c :: 0 <= c < |u| && c != d ==> u[c] == m.sched.current[c]
  {
    hide Create, Requeue, PickNext;
    match a
    case Requeues => RequeueCurrent(m.sched, d);
    case Picks => PickCurrent(m.sched, d);
    case CreateEnqueues => CreateCurrent(m.sched, m.pc[d].task, m.pc[d].prio);
    case _ =>
  }

  /** The other cores stay where they are, with their tasks and registers. */
  lemma OthersStay(m: Machine, c: nat, a: Action)
    requires MachineInv(m) && Enabled(m, c, a)
    ensures MachineInv(Step(m, c, a)) && MovesOnly(m, Step(m, c, a), c)
  {
    StepInv(m, c, a);
    hide Inv, LockOk, SchedOk, CoreOk, SavedOk, CreatesApart, Step, Enabled;
    OneMoves(m, c, a);
    OneSwitches(m, c, a);
  }

  /** On the other cores the same tasks execute. */
  lemma OthersExecute(m: Machine, u: Machine, c: nat, e: nat, t: nat)
    requires MovesOnly(m, u, c) && e < |m.pc| && e != c
    ensures Executes(u, e, t) <==> Executes(m, e, t)
  {
  }

  /** Enough for a step of core `c`: that it keeps the yield on core `c`, and what is recorded for a task on no core. */
  lemma KeepsYield(m: Machine, u: Machine, c: nat, t: nat, r: Regs)
    requires MovesOnly(m, u, c) && InYield(m, t, r) && t in u.ctx
    requires Executes(u, c, t) ==> Yielding(u.pc[c]) && ButLink(r, u.regs[c])
    requires OffCore(u, t) ==> u.truth[t] == r[LR := YIELD_RET]
    ensures InYield(u, t, r)
  {
    forall e | 0 <= e < |u.pc| && Executes(u, e, t)
      ensures Yielding(u.pc[e]) && ButLink(r, u.regs[e])
    {
      if e != c { OthersExecute(m, u, c, e, t); }
    }
  }

  /** If core `c` executes `t` neither before nor after, nothing happens to its yield. */
  lemma OffStays(m: Machine, u: Machine, c: nat, t: nat)
    requires MovesOnly(m, u, c) && OffCore(u, t) && !Executes(m, c, t)
    ensures OffCore(m, t)
  {
    forall e | 0 <= e < |m.pc|
      ensures !Executes(m, e, t)
    {
      if e != c { OthersExecute(m, u, c, e, t); }
    }
  }

  lemma NotHere(m: Machine, c: nat, t: nat)
    requires Sizes(m) && OffCore(m, t) && c < |m.pc|
    ensures !Executes(m, c, t)
  {
  }

  /** Only a pick changes who is current. */
  lemma SameCurrent(m: Machine, c: nat, a: Action)
    requires Sizes(m) && Enabled(m, c, a) && !a.Picks?
    ensures c < |m.pc| == |m.sched.current| && Step(m, c, a).sched.current == m.sched.current
  {
    hide Create, Requeue, PickNext;
    match a
    case Requeues => RequeueCurrent(m.sched, c);
    case CreateEnqueues => CreateCurrent(m.sched, m.pc[c].task, m.pc[c].prio);
    case _ =>
  }

  /** What a step of core `c` leaves of the yield of `t`, if `t` executes there. */
  ghost predicate Leaves(m: Machine, u: Machine, c: nat, t: nat, r: Regs)
    requires Sizes(m) && Sizes(u)
  {
    && c < |m.pc| && c < |u.pc| && t in m.ctx && t in u.ctx && |r| == REGS
    && (Executes(u, c, t) ==> Yielding(u.pc[c]) && ButLink(r, u.regs[c]))
    && (!Executes(m, c, t) ==> u.truth[t] == m.truth[t])
    && (Executes(m, c, t) && !Executes(u, c, t) ==> u.truth[t] == r[LR := YIELD_RET])
  }

  lemma LeavesYield(m: Machine, u: Machine, c: nat, t: nat, r: Regs)
    requires MovesOnly(m, u, c) && InYield(m, t, r) && Leaves(m, u, c, t, r)
    ensures InYield(u, t, r)
  {
    if OffCore(u, t) {
      NotHere(u, c, t);
      if !Executes(m, c, t) { OffStays(m, u, c, t); }
    }
    KeepsYield(m, u, c, t, r);
  }

  lemma Here(m: Machine, c: nat, t: nat, r: Regs)
    requires Sizes(m) && c < |m.pc| && InYield(m, t, r)
    ensures |r| == REGS && t in m.ctx && (Executes(m, c, t) ==> Yielding(m.pc[c]) && ButLink(r, m.regs[c]))
  {
  }

  /** The yielder that picks itself returns; one that picks another begins to store its registers. */
  lemma PickLeaves(m: Machine, c: nat, t: nat, r: Regs)
    requires Sizes(m) && Enabled(m, c, Picks) && Sizes(Step(m, c, Picks)) && t in m.ctx && |r| == REGS
    requires Executes(m, c, t) ==> ButLink(r, m.regs[c])
    ensures Leaves(m, Step(m, c, Picks), c, t, r)
  {
    hide PickNext;
  }

  /** Storing: at the end the registers on record are those of the call. */
  lemma SaveLeaves(m: Machine, c: nat, t: nat, r: Regs)
    requires Sizes(m) && Enabled(m, c, SaveField) && Sizes(Step(m, c, SaveField)) && CoreOk(m, c) && t in m.ctx && |r| == REGS
    requires Executes(m, c, t) ==> ButLink(r, m.regs[c])
    ensures Leaves(m, Step(m, c, SaveField), c, t, r)
  {
    if Executes(m, c, t) {
      assert m.truth[t] == m.regs[c] && r[LR := YIELD_RET] == m.regs[c];
    }
  }

  /** Loading: the registers of the call come back, and the jump goes to the end of `sched_yield`. */
  lemma LoadLeaves(m: Machine, c: nat, t: nat, r: Regs)
    requires Sizes(m) && Enabled(m, c, LoadField) && Sizes(Step(m, c, LoadField)) && CoreOk(m, c) && t in m.ctx && |r| == REGS
    requires m.pc[c].next == t ==> m.truth[t] == r[LR := YIELD_RET]
    requires m.pc[c].k == REGS && m.pc[c].next == t ==> m.regs[c] == m.truth[t]
    ensures Leaves(m, Step(m, c, LoadField), c, t, r)
  {
  }

  /** Steps that store or load no registers leave core `c` with the task it had. */
  lemma QuietLeaves(m: Machine, c: nat, a: Action, t: nat, r: Regs)
    requires Sizes(m) && Enabled(m, c, a) && Sizes(Step(m, c, a)) && t in m.ctx && |r| == REGS
    requires !a.Picks? && !a.SaveField? && !a.LoadField? && !a.Release?
    requires Executes(m, c, t) ==> Yielding(m.pc[c]) && ButLink(r, m.regs[c])
    ensures Leaves(m, Step(m, c, a), c, t, r)
  {
    SameCurrent(m, c, a);
    hide Create, Requeue, PickNext, ButLink;
  }

  lemma QuietYield(m: Machine, c: nat, a: Action, t: nat, r: Regs)
    requires MachineInv(m) && Enabled(m, c, a) && InYield(m, t, r)
    requires !a.Picks? && !a.SaveField? && !a.LoadField? && !a.Release?
    ensures Sizes(Step(m, c, a)) && InYield(Step(m, c, a), t, r)
  {
    hide MachineInv, Step, Enabled, InYield, Leaves;
    OthersStay(m, c, a);
    Here(m, c, t, r);
    QuietLeaves(m, c, a, t, r);
    LeavesYield(m, Step(m, c, a), c, t, r);
  }

  lemma PickYield(m: Machine, c: nat, t: nat, r: Regs)
    requires MachineInv(m) && Enabled(m, c, Picks) && InYield(m, t, r)
    ensures Sizes(Step(m, c, Picks)) && InYield(Step(m, c, Picks), t, r)
  {
    hide MachineInv, Step, Enabled, InYield, Leaves;
    OthersStay(m, c, Picks);
    Here(m, c, t, r);
    PickLeaves(m, c, t, r);
    LeavesYield(m, Step(m, c, Picks), c, t, r);
  }

  lemma SaveYield(m: Machine, c: nat, t: nat, r: Regs)
    requires MachineInv(m) && Enabled(m, c, SaveField) && InYield(m, t, r)
    ensures Sizes(Step(m, c, SaveField)) && InYield(Step(m, c, SaveField), t, r)
  {
    OneOk(m, c);
    hide MachineInv, Step, Enabled, InYield, Leaves, CoreOk;
    OthersStay(m, c, SaveField);
    Here(m, c, t, r);
    SaveLeaves(m, c, t, r);
    LeavesYield(m, Step(m, c, SaveField), c, t, r);
  }

  lemma OneOk(m: Machine, c: nat)
    requires MachineInv(m)
    ensures Sizes(m) && (c < |m.pc| ==> CoreOk(m, c))
  {
  }

  lemma LoadYield(m: Machine, c: nat, t: nat, r: Regs)
    requires MachineInv(m) && Enabled(m, c, LoadField) && InYield(m, t, r)
    ensures Sizes(Step(m, c, LoadField)) && InYield(Step(m, c, LoadField), t, r)
  {
    OneOk(m, c);
    LoadNeeds(m, c, t, r);
    hide MachineInv, Step, InYield, Leaves, CoreOk, OffCore;
    OthersStay(m, c, LoadField);
    LoadLeaves(m, c, t, r);
    LeavesYield(m, Step(m, c, LoadField), c, t, r);
  }

  lemma LoadNeeds(m: Machine, c: nat, t: nat, r: Regs)
    requires MachineInv(m) && Enabled(m, c, LoadField) && InYield(m, t, r)
    ensures c < |m.pc| && m.pc[c].Load? && t in m.ctx && |r| == REGS
    ensures m.pc[c].next == t ==> m.truth[t] == r[LR := YIELD_RET]
    ensures m.pc[c].k == REGS && m.pc[c].next == t ==> m.regs[c] == m.truth[t]
  {
    LoadedOff(m, c);
    hide MachineInv, OffCore, Yielding, ButLink;
    if m.pc[c].k == REGS { LoadedWhole(m, c, m.pc[c].next); }
  }

  /** A task whose context is being loaded executes nowhere. */
  lemma LoadedOff(m: Machine, c: nat)
    requires MachineInv(m) && c < |m.pc| && m.pc[c].Load?
    ensures OffCore(m, m.pc[c].next)
  {
    assert CoreOk(m, c);
    HolderAlone(m, c);
    hide Inv, LogOk, SavedOk;
    forall e | 0 <= e < |m.pc|
      ensures !Executes(m, e, m.pc[c].next)
    {
      if e != c { CurrentsApart(m, c, e); }
    }
  }

  /** The release: the yielder is back at its work with its registers. */
  lemma ReleaseLeaves(m: Machine, c: nat, t: nat, r: Regs)
    requires Sizes(m) && Enabled(m, c, Release) && Sizes(Step(m, c, Release)) && t in m.ctx && |r| == REGS
    requires Executes(m, c, t) ==> ButLink(r, m.regs[c])
    ensures var u := Step(m, c, Release);
            if Executes(m, c, t) then BackAt(u, c, t) && ButLink(r, u.regs[c]) else Leaves(m, u, c, t, r)
  {
  }

  lemma ReleaseYield(m: Machine, c: nat, t: nat, r: Regs)
    requires MachineInv(m) && Enabled(m, c, Release) && InYield(m, t, r)
    ensures var u := Step(m, c, Release);
            Sizes(u) && (InYield(u, t, r) || (BackAt(u, c, t) && ButLink(r, u.regs[c])))
  {
    hide MachineInv, Step, Enabled, InYield, Leaves, BackAt;
    OthersStay(m, c, Release);
    Here(m, c, t, r);
    ReleaseLeaves(m, c, t, r);
    if !Executes(m, c, t) { LeavesYield(m, Step(m, c, Release), c, t, r); }
  }

  lemma YieldGoesOn(m: Machine, c: nat, a: Action, t: nat, r: Regs)
    requires MachineInv(m) && Enabled(m, c, a) && InYield(m, t, r)
    ensures var u := Step(m, c, a);
            Sizes(u) && (InYield(u, t, r) || (BackAt(u, c, t) && ButLink(r, u.regs[c])))
  {
    hide MachineInv, Enabled, Step, InYield;
    match a
    case Picks => PickYield(m, c, t, r);
    case SaveField => SaveYield(m, c, t, r);
    case LoadField => LoadYield(m, c, t, r);
    case Release => ReleaseYield(m, c, t, r);
    case _ => QuietYield(m, c, a, t, r);
  }

  /** The call itself: from then on the task is in a yield with the registers it has. */
  lemma YieldBegins(m: Machine, c: nat)
    requires MachineInv(m) && Enabled(m, c, CallYield)
    ensures var u := Step(m, c, CallYield);
            Sizes(u) && InYield(u, m.sched.current[c], m.regs[c])
  {
    OthersStay(m, c, CallYield);
    CurrentKnown(m, c);
    var u, t := Step(m, c, CallYield), m.sched.current[c];
    forall e | 0 <= e < |u.pc| && Executes(u, e, t)
      ensures e == c
    {
      if e != c {
        OthersExecute(m, u, c, e, t);
        ExecutesOnce(m, c, e, t);
      }
    }
    hide MachineInv, OffCore;
    NotOff(u, c, t);
  }

  lemma NotOff(m: Machine, c: nat, t: nat)
    requires Sizes(m) && c < |m.pc| && Executes(m, c, t)
    ensures !OffCore(m, t)
  {
  }

  lemma CurrentKnown(m: Machine, c: nat)
    requires MachineInv(m) && c < |m.pc|
    ensures m.sched.current[c] in m.ctx
  {
    if d :| 0 <= d < |m.pc| && m.pc[d].Pick? {
      assert m.sched.current == m.base.current && m.sched.prio == m.base.prio;
    }
    assert m.sched.current[c] in m.sched.current;
  }

  lemma ExecutesOnce(m: Machine, c: nat, e: nat, t: nat)
    requires MachineInv(m) && c < |m.pc| && e < |m.pc| && c != e && Executes(m, c, t) && m.pc[c].Run?
    ensures !Executes(m, e, t)
  {
    assert CoreOk(m, e);
    CurrentsApart(m, c, e);
    assert t in m.sched.current;
  }

  /** Task `t` is back at its work with the registers `r`, but for the link register. */
  ghost predicate Returned(m: Machine, t: nat, r: Regs) {
    exists d: nat :: BackAt(m, d, t) && d < |m.regs| && ButLink(r, m.regs[d])
  }

  lemma StepInYield(b: seq<Machine>, k: nat, t: nat, r: Regs)
    requires IsRun(b) && k + 1 < |b| && Sizes(b[k]) && InYield(b[k], t, r)
    ensures Sizes(b[k + 1]) && (InYield(b[k + 1], t, r) || Returned(b[k + 1], t, r))
  {
    RunInv(b, k);
    assert StepAt(b, k);
    hide MachineInv, Step, Enabled, InYield, BackAt, ButLink, IsRun;
    var c: nat, a :| Enabled(b[k], c, a) && b[k + 1] == Step(b[k], c, a);
    YieldGoesOn(b[k], c, a, t, r);
    CoreOf(b[k + 1], c, t);
  }

  lemma {:induction false} InYieldRun(b: seq<Machine>, i: nat, j: nat, t: nat, r: Regs)
    requires IsRun(b) && i <= j < |b| && Sizes(b[i]) && InYield(b[i], t, r)
    requires forall k: nat :: i < k < j ==> !Returned(b[k], t, r)
    ensures Sizes(b[j]) && (InYield(b[j], t, r) || Returned(b[j], t, r))
    decreases j
  {
    hide InYield, Returned, IsRun;
    if i < j {
      InYieldRun(b, i, j - 1, t, r);
      StepInYield(b, j - 1, t, r);
    }
  }

  lemma CoreOf(m: Machine, c: nat, t: nat)
    requires Sizes(m)
    ensures BackAt(m, c, t) ==> c < |m.regs|
  {
  }

  /**
   A task that calls `sched_yield` on core `c` in state `i`, and is for the first time back at its
   work in state `j`, on core `d`, has the registers it called with, but for the link register.
   */
  lemma YieldKeepsRegisters(b: seq<Machine>, i: nat, j: nat, c: nat, d: nat)
    requires IsRun(b) && i < j < |b| && Sizes(b[i]) && Enabled(b[i], c, CallYield) && b[i + 1] == Step(b[i], c, CallYield)
    requires BackAt(b[j], d, b[i].sched.current[c])
    requires forall k: nat, e: nat :: i < k < j ==> !BackAt(b[k], e, b[i].sched.current[c])
    ensures d < |b[j].regs| && |b[j].regs[d]| == |b[i].regs[c]| == 21
    ensures forall x :: 0 <= x < 21 && x != 11 ==> b[j].regs[d][x] == b[i].regs[c][x]
  {
    var t, r := b[i].sched.current[c], b[i].regs[c];
    RunInv(b, i);
    RunInv(b, j);
    YieldBegins(b[i], c);
    hide IsRun, MachineInv, InYield;
    InYieldRun(b, i + 1, j, t, r);
    BackInYield(b[j], d, t, r);
    var e: nat :| BackAt(b[j], e, t) && e < |b[j].regs| && ButLink(r, b[j].regs[e]);
    if e != d { CurrentsApart(b[j], d, e); }
  }

  lemma BackInYield(m: Machine, d: nat, t: nat, r: Regs)
    requires Sizes(m) && BackAt(m, d, t)
    ensures !InYield(m, t, r)
  {
    assert Executes(m, d, t);
  }
}
