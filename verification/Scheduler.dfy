/**
 The run queues of src/pthread.c as linked task objects, with the priority bitmap. The ghost
 field `queues` holds the sequences the links represent.
 */
module SchedulerClass {
  import opened Sequences
  import opened Bits
  import opened SchedSpec

  datatype TaskState = Running | ReadyToRun | Exited | Blocked | Stopped | Sleeping

  const NORMAL: nat := 2

  class Task {
    const priority: nat
    var state: TaskState
    var next: Task?
    var prev: Task?

    constructor (priority: nat, state: TaskState)
      ensures this.priority == priority && this.state == state && next == null && prev == null
    {
      this.priority := priority;
      this.state := state;
      next := null;
      prev := null;
    }
  }

  /** Node `j` of queue `q` points at its neighbours. */
  ghost predicate NodeAt(q: seq<Task>, j: nat)
    requires j < |q|
    reads q`next, q`prev
  {
    && q[j].prev == (if j == 0 then null else q[j - 1])
    && q[j].next == (if j + 1 == |q| then null else q[j + 1])
  }

  ghost predicate LinksOk(q: seq<Task>)
    reads q`next, q`prev
  {
    forall j :: 0 <= j < |q| ==> NodeAt(q, j)
  }

  ghost function Head(q: seq<Task>): Task? {
    if q == [] then null else q[0]
  }

  ghost function Last(q: seq<Task>): Task? {
    if q == [] then null else q[|q| - 1]
  }

  /** Where `t` is in `q`, or `|q|`, and what is left without it. */
  lemma RemovedShape(q: seq<Task>, t: Task) returns (i: nat)
    requires Distinct(q)
    ensures i <= |q| && (t in q <==> i < |q|) && (i < |q| ==> q[i] == t)
    ensures Without(q, t) == if i < |q| then q[..i] + q[i + 1..] else q
    ensures Distinct(Without(q, t)) && forall u :: u in Without(q, t) <==> u in q && u != t
  {
    if t in q {
      i :| 0 <= i < |q| && q[i] == t;
      WithoutAt(q, i);
    } else {
      i := |q|;
      WithoutNone(q, t);
    }
  }

  lemma RemovedHas(q: seq<Task>, t: Task)
    requires Distinct(q)
    ensures forall u :: u in Without(q, t) <==> u in q && u != t
    ensures t !in q ==> Without(q, t) == q
  {
    var i := RemovedShape(q, t);
  }

  ghost predicate QueuesOk(queues: seq<seq<Task>>, tasks: set<Task>) {
    forall p: nat :: p < |queues| ==>
      Distinct(queues[p]) && forall t :: t in queues[p] ==> t in tasks && t.priority == p
  }

  lemma InQueue(queues: seq<seq<Task>>, tasks: set<Task>, p: nat)
    requires QueuesOk(queues, tasks) && p < |queues|
    ensures Distinct(queues[p]) && forall t :: t in queues[p] ==> t in tasks && t.priority == p
  {
  }

  /** Bit `p` is set exactly when queue `p` has a task. */
  ghost predicate BitsOk(word: nat, queues: seq<seq<Task>>) {
    forall p: nat :: HasBit(word, p) <==> p < |queues| && queues[p] != []
  }

  lemma Pushed(queues: seq<seq<Task>>, tasks: set<Task>, word: nat, t: Task)
    requires QueuesOk(queues, tasks) && BitsOk(word, queues)
    requires t in tasks && t.priority < |queues| && t !in queues[t.priority]
    ensures var more := queues[t.priority := queues[t.priority] + [t]];
            QueuesOk(more, tasks) && BitsOk(SetBit(word, t.priority), more)
  {
    forall p: nat { BitFacts(word, t.priority, p); }
  }

  lemma Popped(queues: seq<seq<Task>>, tasks: set<Task>, word: nat, t: Task)
    requires QueuesOk(queues, tasks) && BitsOk(word, queues) && t.priority < |queues|
    ensures var r := Without(queues[t.priority], t);
            var less := queues[t.priority := r];
            QueuesOk(less, tasks) && BitsOk(if r == [] then ClearBit(word, t.priority) else word, less)
  {
    var i := RemovedShape(queues[t.priority], t);
    forall p: nat { BitFacts(word, t.priority, p); }
  }

  ghost function Priorities(tasks: set<Task>): map<Task, nat> {
    map t | t in tasks :: t.priority
  }

  /** The priority `pthread_create` gives: `param` is the attribute's, if there is one. */
  datatype Attr = NoAttr | Attr(param: nat)

  function PriorityOf(idle: bool, attr: Attr): nat {
    if idle then IDLE else match attr
      case Attr(param) => param % 5
      case NoAttr => NORMAL
  }

  class Scheduler {
    const runqueues: array<Task?>
    const tails: array<Task?>
    var activePriorities: nat
    var current: seq<Task>
    ghost var queues: seq<seq<Task>>
    ghost var tasks: set<Task>

    /** `sched_init`: empty queues, an idle task on no queue, and the boot code as the first task. */
    constructor SchedInit()
      ensures Valid() && fresh(runqueues) && fresh(tails) && fresh(tasks)
      ensures (forall p :: 0 <= p < 5 ==> queues[p] == []) && |queues| == 5 && |current| == 1 && current[0].priority == 2
    {
      hide HasBit, BitsOk, QueuesOk, Lists, Inv, StateOk;
      runqueues := new Task?[5](i => null);
      tails := new Task?[5](i => null);
      activePriorities := 0;
      current := [];
      queues := seq(LEVELS, i => []);
      tasks := {};
      new;
      Nothing();
      var idleThread := PthreadCreate(true, NoAttr);
      var mainTask := StartCore(NORMAL);
    }

    lemma Nothing()
      requires tasks == {} && current == [] && activePriorities == 0 && |queues| == LEVELS
      requires (forall p :: 0 <= p < LEVELS ==> queues[p] == []) && EndsOk()
      ensures Valid()
    {
      hide HasBit, BitsOk, QueuesOk;
      NothingQueued(queues, tasks, activePriorities);
    }

    /** `sched_init_secondary`: one more core, with an idle task of its own. */
    method InitSecondary()
      requires Valid()
      modifies `activePriorities, `queues, `tasks, `current, runqueues, tails, tasks`next, tasks`prev
      ensures Valid() && queues == old(queues) && |current| == |old(current)| + 1 && current[..|old(current)|] == old(current)
      ensures current[|old(current)|].priority == 0 && fresh(current[|old(current)|])
    {
      hide Inv, Lists, StateOk;
      var idleCore := PthreadCreate(true, NoAttr);
      var startup := StartCore(IDLE);
    }

    /** A new task runs on the next core. */
    method StartCore(priority: nat) returns (startup: Task)
      requires Valid() && priority < LEVELS
      modifies `tasks, `current
      ensures Valid() && queues == old(queues) && tasks == old(tasks) + {startup}
      ensures current == old(current) + [startup] && fresh(startup) && startup.priority == priority
    {
      hide Inv, Lists, QueuesOk, BitsOk, LinksOk, EndsOk;
      startup := new Task(priority, Running);
      StartCoreInv(Abs(), startup, priority);
      NewTask(startup);
      Learn(startup);
      current := current + [startup];
      forall t | t in tasks ensures StateOk(t) { assert t != startup ==> old(StateOk(t)); }
    }

    /** The scheduler comes to know a task that is on no queue. */
    ghost method Learn(t: Task)
      requires Lists() && t !in tasks && t.next == null && t.prev == null && t.priority < LEVELS && t !in queues[t.priority]
      modifies `tasks
      ensures Lists() && tasks == old(tasks) + {t} && Abs() == old(Abs()).(prio := old(Abs()).prio[t := t.priority])
    {
      hide BitsOk, LinksOk, Distinct;
      forall p: nat | p < LEVELS { InQueue(queues, tasks, p); }
      tasks := tasks + {t};
      assert forall u :: u in tasks && u != t ==> old(Unlinked(u));
      assert Priorities(tasks) == Priorities(old(tasks))[t := t.priority];
    }

    ghost predicate EndsOk()
      reads `queues, runqueues, tails
    {
      && runqueues != tails
      && runqueues.Length == tails.Length == |queues| == LEVELS
      && forall p: nat :: p < LEVELS ==> runqueues[p] == Head(queues[p]) && tails[p] == Last(queues[p])
    }

    ghost predicate Unlinked(t: Task)
      reads `queues, t`next, t`prev
    {
      t.priority < |queues| && (t !in queues[t.priority] ==> t.next == null && t.prev == null)
    }

    /** The heap holds `queues`: ends, bitmap, and the links of every task. */
    ghost predicate Lists()
      reads `queues, `activePriorities, `tasks, runqueues, tails, tasks`next, tasks`prev
    {
      && EndsOk() && BitsOk(activePriorities, queues) && QueuesOk(queues, tasks)
      && (forall p: nat :: p < LEVELS ==> LinksOk(queues[p]))
      && forall t :: t in tasks ==> Unlinked(t)
    }

    ghost function Abs(): Sched<Task>
      reads this
    {
      Sched(queues, Priorities(tasks), current)
    }

    ghost predicate StateOk(t: Task)
      reads this, t`state
    {
      && t.priority < |queues|
      && (t in queues[t.priority] ==> t.state == ReadyToRun)
      && (t in current ==> t.state == Running)
    }

    /** The state between calls: waiting tasks are ready, current ones run. */
    ghost predicate Valid()
      reads this, runqueues, tails, tasks
    {
      && Lists() && Inv(Abs())
      && forall t :: t in tasks ==> StateOk(t)
    }

    /** The link writes of `sched_enqueue_task`. */
    method Append(t: Task, prio: nat, ghost q: seq<Task>)
      requires runqueues != tails && runqueues.Length == tails.Length == LEVELS && prio < LEVELS
      requires t.priority == prio && forall u :: u in q ==> u.priority == prio
      requires t !in q && LinksOk(q) && Distinct(q) && runqueues[prio] == Head(q) && tails[prio] == Last(q)
      modifies runqueues, tails, q`next, t`next, t`prev
      ensures LinksOk(q + [t]) && runqueues[prio] == Head(q + [t]) && tails[prio] == Last(q + [t])
      ensures forall p: nat :: p < LEVELS && p != prio ==> runqueues[p] == old(runqueues[p]) && tails[p] == old(tails[p])
      ensures forall u :: u in tasks && u.priority != prio ==> u.next == old(u.next) && u.prev == old(u.prev)
    {
      t.next := null;
      t.prev := null;
      if runqueues[prio] == null {
        runqueues[prio] := t;
        tails[prio] := t;
      } else {
        t.prev := tails[prio];
        tails[prio].next := t;
        tails[prio] := t;
      }
      forall j: nat | j < |q + [t]|
        ensures NodeAt(q + [t], j)
      {
        assert j < |q| ==> old(NodeAt(q, j));
      }
    }

    /** `sched_enqueue_task` */
    method Enqueue(t: Task)
      requires Lists() && t in tasks && t.priority < LEVELS && t !in queues[t.priority]
      modifies `activePriorities, `queues, runqueues, tails, tasks`next, tasks`prev
      ensures Lists() && queues == old(queues)[t.priority := old(queues)[t.priority] + [t]]
    {
      hide QueuesOk, BitsOk, Distinct, SetBit;
      ghost var prio, q := t.priority, queues[t.priority];
      InQueue(queues, tasks, prio);
      Pushed(queues, tasks, activePriorities, t);
      Append(t, t.priority, q);
      activePriorities := SetBit(activePriorities, t.priority);
      queues := queues[prio := q + [t]];
      forall p: nat, j: nat | p < LEVELS && p != prio && j < |queues[p]|
        ensures NodeAt(queues[p], j)
      {
        InQueue(old(queues), tasks, p);
        assert old(NodeAt(queues[p], j)) && queues[p][j] in queues[p];
      }
    }

    /** The link writes of `sched_dequeue_task`. */
    method Cut(t: Task, prio: nat, ghost q: seq<Task>)
      requires runqueues != tails && runqueues.Length == tails.Length == LEVELS && prio < LEVELS
      requires t.priority == prio && forall u :: u in q ==> u.priority == prio
      requires LinksOk(q) && Distinct(q) && runqueues[prio] == Head(q) && tails[prio] == Last(q)
      requires t !in q ==> t.next == null && t.prev == null
      modifies runqueues, tails, q`next, q`prev, t`next, t`prev
      ensures var r := Without(q, t);
              LinksOk(r) && runqueues[prio] == Head(r) && tails[prio] == Last(r)
      ensures forall p: nat :: p < LEVELS && p != prio ==> runqueues[p] == old(runqueues[p]) && tails[p] == old(tails[p])
      ensures forall u :: u in tasks && u.priority != prio ==> u.next == old(u.next) && u.prev == old(u.prev)
      ensures t.next == null && t.prev == null
    {
      hide Without;
      ghost var i := RemovedShape(q, t);
      ghost var r := Without(q, t);
      assert i < |q| ==> NodeAt(q, i);
      if t.prev != null {
        t.prev.next := t.next;
      } else {
        if runqueues[prio] == t {
          runqueues[prio] := t.next;
        }
      }
      if t.next != null {
        t.next.prev := t.prev;
      } else {
        if tails[prio] == t {
          tails[prio] := t.prev;
        }
      }
      t.next := null;
      t.prev := null;
      forall j: nat | j < |r|
        ensures NodeAt(r, j)
      {
        assert old(NodeAt(q, if j < i then j else j + 1));
      }
    }

    /** The same, seen from all queues: no other one changes. */
    method CutAll(t: Task)
      requires Lists() && t in tasks
      modifies runqueues, tails, tasks`next, tasks`prev
      ensures var less := queues[t.priority := Without(queues[t.priority], t)];
              && (forall p: nat :: p < LEVELS ==> runqueues[p] == Head(less[p]) && tails[p] == Last(less[p]))
              && (forall p: nat :: p < LEVELS ==> LinksOk(less[p]))
      ensures forall u :: u in tasks && (u == t || u !in queues[u.priority]) ==> u.next == null && u.prev == null
    {
      hide QueuesOk, BitsOk, Without, Distinct;
      ghost var prio, q := t.priority, queues[t.priority];
      InQueue(queues, tasks, prio);
      Cut(t, t.priority, q);
      forall p: nat, j: nat | p < LEVELS && p != prio && j < |queues[p]|
        ensures NodeAt(queues[p], j)
      {
        InQueue(queues, tasks, p);
        assert old(NodeAt(queues[p], j)) && queues[p][j] in queues[p];
      }
      forall u | u in tasks && u !in queues[u.priority]
        ensures u.next == null && u.prev == null
      {
        assert old(Unlinked(u));
      }
    }

    /** `sched_dequeue_task`: a task on no queue changes nothing. */
    method Dequeue(t: Task)
      requires Lists() && t in tasks
      modifies `activePriorities, `queues, runqueues, tails, tasks`next, tasks`prev
      ensures Lists() && queues == old(queues)[t.priority := Without(old(queues)[t.priority], t)]
      ensures t !in old(queues)[t.priority] ==> queues == old(queues)
    {
      hide QueuesOk, BitsOk, Without, ClearBit, Distinct, LinksOk;
      ghost var q := queues[t.priority];
      InQueue(queues, tasks, t.priority);
      Popped(queues, tasks, activePriorities, t);
      RemovedHas(q, t);
      CutAll(t);
      if runqueues[t.priority] == null {
        activePriorities := ClearBit(activePriorities, t.priority);
      }
      queues := queues[t.priority := Without(q, t)];
    }

    /** `rotate_queue`: the head goes to the end. */
    method RotateQueue(priority: nat)
      requires Lists() && priority < LEVELS
      modifies `activePriorities, `queues, runqueues, tails, tasks`next, tasks`prev
      ensures Lists()
      ensures var q := old(queues)[priority];
              queues == if |q| < 2 then old(queues) else old(queues)[priority := q[1..] + q[..1]]
    {
      hide BitsOk, Without;
      InQueue(queues, tasks, priority);
      var head := runqueues[priority];
      assert queues[priority] != [] ==> NodeAt(queues[priority], 0);
      if head == null || head.next == null { return; }
      RemovedHead(queues[priority]);
      RemovedHas(queues[priority], head);
      Dequeue(head);
      Enqueue(head);
      assert old(queues)[priority][..1] == [head];
      assert queues == old(queues)[priority := old(queues)[priority][1..] + old(queues)[priority][..1]];
    }

    /** A running task above IDLE queues up. */
    method Requeue(prev: Task)
      requires Lists() && prev in tasks && prev.priority < LEVELS && prev !in queues[prev.priority] && prev.state == Running
      modifies `activePriorities, `queues, runqueues, tails, tasks`next, tasks`prev, prev`state
      ensures Lists() && queues == Requeued(old(queues), prev)
      ensures prev.state == if prev.priority != IDLE then ReadyToRun else Running
    {
      if prev.state == Running && prev.priority != IDLE {
        prev.state := ReadyToRun;
        Enqueue(prev);
      }
    }

    /** The head of the highest queue with a task, or the core's current task. */
    method Pick(core: nat) returns (next: Task)
      requires Lists() && core < |current|
      ensures var h := Highest(queues, LEVELS);
              next == if h < 0 then current[core] else queues[h][0]
    {
      hide QueuesOk;
      BitsTop(activePriorities, queues);
      var pick: Task? := null;
      if activePriorities > 0 {
        var highest := TopBit(activePriorities);
        if highest >= LEVELS { highest := LEVELS - 1; }
        pick := runqueues[highest];
      }
      if pick == null {
        pick := current[core];
      }
      next := pick;
    }

    /** The picked task leaves its queue and runs. */
    method Start(next: Task)
      requires Lists() && next in tasks && next.priority < LEVELS
      modifies `activePriorities, `queues, runqueues, tails, tasks`next, tasks`prev, next`state
      ensures Lists() && queues == Unqueued(old(queues), next)
      ensures next.state == Running
    {
      if next.priority != IDLE {
        Dequeue(next);
        next.state := Running;
      } else {
        next.state := Running;
      }
    }

    /** The lists and the current task after a yield. */
    method Switch(core: nat)
      requires Lists() && core < |current| && Inv(Abs()) && current[core].state == Running
      modifies `activePriorities, `queues, `current, runqueues, tails, tasks`next, tasks`prev, tasks`state
      ensures Lists() && Abs() == SchedSpec.Yield(old(Abs()), core) && |current| == |old(current)|
      ensures old(current)[core] in tasks && current[core].state == Running
      ensures current[core] != old(current)[core] ==>
                old(current)[core].state == if old(current)[core].priority != IDLE then ReadyToRun else Running
      ensures forall t :: t in tasks && t != current[core] && t != old(current)[core] ==> t.state == old(t.state)
    {
      hide Inv, SchedSpec.Yield, Requeued, Unqueued, Highest, QueuesOk, BitsOk, LinksOk, EndsOk, Unlinked;
      ghost var s := Abs();
      var prev := current[core];
      YieldSteps(s, core);
      Requeue(prev);
      var next := Pick(core);
      Start(next);
      if next != prev {
        current := current[core := next];
      }
      assert current == s.current[core := next];
    }

    /** The part of `sched_yield` between taking the lock and `cpu_switch_to`. */
    method Yield(core: nat)
      requires Valid() && core < |current|
      modifies `activePriorities, `queues, `current, runqueues, tails, tasks`next, tasks`prev, tasks`state
      ensures Valid() && Abs() == SchedSpec.Yield(old(Abs()), core)
      ensures current[core].state == Running
      ensures current[core] != old(current)[core] ==>
                old(current)[core].state == if old(current)[core].priority != 0 then ReadyToRun else Running
      ensures forall t :: t in tasks && t != current[core] && t != old(current)[core] ==> t.state == old(t.state)
    {
      hide Inv, SchedSpec.Yield, Lists;
      ghost var s := Abs();
      CurrentRuns(core);
      Switch(core);
      YieldInv(s, core);
      forall t | t in tasks
        ensures StateOk(t)
      {
        assert t in s.prio && old(StateOk(t));
        YieldFrom(s, core, t);
      }
    }

    /** The scheduler part of `pthread_create`. */
    method PthreadCreate(idle: bool, attr: Attr) returns (t: Task)
      requires Valid()
      modifies `activePriorities, `queues, `tasks, runqueues, tails, tasks`next, tasks`prev
      ensures Valid() && fresh(t) && t.priority == PriorityOf(idle, attr)
      ensures idle ==> t.priority == 0
      ensures !idle && attr.NoAttr? ==> t.priority == 2
      ensures !idle && attr.Attr? && attr.param < 5 ==> t.priority == attr.param
      ensures t.priority > 0 ==> t.priority < |old(queues)| && queues == old(queues)[t.priority := old(queues)[t.priority] + [t]]
      ensures t.state == ReadyToRun
      ensures Abs() == SchedSpec.Create(old(Abs()), t, t.priority) && tasks == old(tasks) + {t} && current == old(current)
      ensures t.priority == IDLE ==> queues == old(queues)
    {
      hide Inv, Lists, QueuesOk, BitsOk, LinksOk, EndsOk;
      t := new Task(PriorityOf(idle, attr), ReadyToRun);
      NewTask(t);
      Learn(t);
      if t.priority != IDLE {
        Enqueue(t);
      }
      forall u | u in tasks ensures StateOk(u) { assert u != t ==> old(StateOk(u)); }
    }

    /** A task the scheduler does not know is on no queue and no core, and may be added. */
    lemma NewTask(t: Task)
      requires Valid() && t !in tasks && t.priority < LEVELS
      ensures |queues| == LEVELS && t !in queues[t.priority] && t !in current
      ensures Inv(SchedSpec.Create(Abs(), t, t.priority))
    {
      InQueue(queues, tasks, t.priority);
      assert forall u :: u in current ==> u in Abs().prio;
      CreateInv(Abs(), t, t.priority);
    }

    lemma CurrentRuns(core: nat)
      requires Valid() && core < |current|
      ensures current[core] in tasks && current[core].state == Running
    {
      assert current[core] in Abs().prio;
      assert StateOk(current[core]);
    }
  }

  lemma NothingQueued(queues: seq<seq<Task>>, tasks: set<Task>, word: nat)
    requires word == 0 && forall p :: 0 <= p < |queues| ==> queues[p] == []
    ensures BitsOk(word, queues) && QueuesOk(queues, tasks)
  {
    NoBits(word);
  }

  ghost function Requeued(queues: seq<seq<Task>>, t: Task): seq<seq<Task>>
    requires t.priority < |queues|
  {
    if t.priority == IDLE then queues else queues[t.priority := queues[t.priority] + [t]]
  }

  ghost function Unqueued(queues: seq<seq<Task>>, t: Task): seq<seq<Task>>
    requires t.priority < |queues|
  {
    if t.priority == IDLE then queues else queues[t.priority := Without(queues[t.priority], t)]
  }

  /** A yield is: queue the yielder, pick, take the pick off its queue. */
  lemma YieldSteps(s: Sched<Task>, core: nat)
    requires Inv(s) && core < |s.current| && forall t :: t in s.prio ==> s.prio[t] == t.priority
    ensures var cur := s.current[core];
            && cur in s.prio && cur.priority < LEVELS == |s.queues| && cur !in s.queues[cur.priority]
            && var mid := Requeued(s.queues, cur);
               var h := Highest(mid, LEVELS);
               var next := if h < 0 then cur else mid[h][0];
               && next in s.prio && next.priority < LEVELS
               && SchedSpec.Yield(s, core) == s.(queues := Unqueued(mid, next), current := s.current[core := next])
  {
    var cur := s.current[core];
    assert QueueOk(s, s.prio[cur]);
    var mid := Requeued(s.queues, cur);
    var h := Highest(mid, LEVELS);
    assert cur.priority != IDLE ==> mid[cur.priority] != [];
    if h >= 0 {
      assert QueueOk(s, h) && mid[h][0] in mid[h];
      RemovedHead(mid[h]);
    } else {
      assert s.current[core := cur] == s.current;
    }
  }

  lemma RemovedHead(q: seq<Task>)
    requires q != []
    ensures Without(q, q[0]) == q[1..]
  {
  }

  /** The top bit of the bitmap is the highest queue with a task. */
  lemma BitsTop(word: nat, queues: seq<seq<Task>>)
    requires |queues| == LEVELS && BitsOk(word, queues)
    ensures word == 0 <==> Highest(queues, LEVELS) < 0
    ensures word > 0 ==> TopBit(word) == Highest(queues, LEVELS)
  {
    hide HasBit, TopBit;
    if word == 0 {
      NoBits(word);
    } else {
      assert HasBit(word, TopBit(word));
    }
  }
}
