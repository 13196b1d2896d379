/**
 The scheduler of src/pthread.c as values: one FIFO sequence per priority and one current task
 per core. Tasks are of any type `T`; Scheduler.dfy uses task objects.
 */
module SchedSpec {
  import opened Sequences

  const LEVELS: nat := 5
  const IDLE: nat := 0

  datatype Sched<T> = Sched(queues: seq<seq<T>>, prio: map<T, nat>, current: seq<T>)

  ghost predicate QueueOk<T>(s: Sched<T>, p: nat)
    requires p < |s.queues|
  {
    && Distinct(s.queues[p])
    && forall t :: t in s.queues[p] ==> t in s.prio && s.prio[t] == p && p != IDLE && t !in s.current
  }

  /** Every task above IDLE waits in the queue of its priority or runs on a core, and never both. */
  ghost predicate Inv<T>(s: Sched<T>) {
    && |s.queues| == LEVELS
    && (forall p :: 0 <= p < LEVELS ==> QueueOk(s, p))
    && Distinct(s.current)
    && (forall t :: t in s.current ==> t in s.prio)
    && (forall t :: t in s.prio ==> s.prio[t] < LEVELS)
    && forall t :: t in s.prio && s.prio[t] != IDLE ==> t in s.queues[s.prio[t]] || t in s.current
  }

  ghost function Enqueue<T>(s: Sched<T>, t: T): Sched<T>
    requires t in s.prio && s.prio[t] < |s.queues|
  {
    s.(queues := s.queues[s.prio[t] := s.queues[s.prio[t]] + [t]])
  }

  /** The highest priority below `n` with a waiting task, or -1. */
  ghost function Highest<T>(queues: seq<seq<T>>, n: nat): (h: int)
    requires n <= |queues|
    ensures -1 <= h < n
    ensures h >= 0 ==> queues[h] != []
    ensures forall q :: h < q < n ==> queues[q] == []
  {
    if n == 0 then -1 else if queues[n - 1] != [] then n - 1 else Highest(queues, n - 1)
  }

  /** The yielder queues up behind its equals; an IDLE task does not. */
  ghost function Requeue<T>(s: Sched<T>, core: nat): Sched<T>
    requires core < |s.current| && s.current[core] in s.prio && s.prio[s.current[core]] < |s.queues|
  {
    if s.prio[s.current[core]] == IDLE then s else Enqueue(s, s.current[core])
  }

  /** The head of the highest queue leaves it and runs; without one the core's task stays. */
  ghost function PickNext<T>(q: Sched<T>, core: nat): Sched<T>
    requires core < |q.current| && |q.queues| == LEVELS
  {
    var h := Highest(q.queues, LEVELS);
    if h < 0 then q
    else q.(queues := q.queues[h := q.queues[h][1..]], current := q.current[core := q.queues[h][0]])
  }

  ghost function Yield<T>(s: Sched<T>, core: nat): Sched<T>
    requires Inv(s) && core < |s.current|
  {
    PickNext(Requeue(s, core), core)
  }

  /** `pthread_create` up to its enqueue: an IDLE task is never queued. */
  ghost function Create<T>(s: Sched<T>, t: T, prio: nat): Sched<T>
    requires |s.queues| == LEVELS && prio < LEVELS
  {
    var u := s.(prio := s.prio[t := prio]);
    if prio == IDLE then u else Enqueue(u, t)
  }

  // ---------------------------------------------------------------- the invariant

  lemma CreateInv<T>(s: Sched<T>, t: T, prio: nat)
    requires Inv(s) && t !in s.prio && prio < LEVELS
    ensures Inv(Create(s, t, prio))
    ensures var u := Create(s, t, prio);
            && u.current == s.current && u.prio == s.prio[t := prio] && |u.queues| == |s.queues|
            && forall p :: 0 <= p < |s.queues| ==> u.queues[p] == if p == prio && p > 0 then s.queues[p] + [t] else s.queues[p]
  {
    var u := Create(s, t, prio);
    forall p | 0 <= p < LEVELS
      ensures QueueOk(u, p)
    {
      assert QueueOk(s, p);
    }
  }

  lemma OneLeaves<T>(queues: seq<seq<T>>, p: nat, t: T)
    requires p < |queues| && queues[p] == []
    ensures var q := queues[p] + [t];
            q == [t] && queues[p := q][p := q[1..]] == queues
  {
    var q := queues[p] + [t];
    assert q[1..] == [] == queues[p];
  }

  /** A core starts with a task of its own. */
  ghost function StartCore<T>(s: Sched<T>, t: T, prio: nat): Sched<T> {
    s.(prio := s.prio[t := prio], current := s.current + [t])
  }

  lemma StartCoreInv<T>(s: Sched<T>, t: T, prio: nat)
    requires Inv(s) && t !in s.prio && prio < LEVELS
    ensures Inv(StartCore(s, t, prio))
  {
    var u := StartCore(s, t, prio);
    forall p | 0 <= p < LEVELS
      ensures QueueOk(u, p)
    {
      assert QueueOk(s, p);
    }
    forall x | x in u.prio && u.prio[x] != IDLE
      ensures x in u.queues[u.prio[x]] || x in u.current
    {
      assert x != t ==> x in s.prio && s.prio[x] == u.prio[x];
      assert u.current[|s.current|] == t;
    }
  }

  /** What one yield does, by cases: the yielder keeps its core, or trades places with the head. */
  lemma YieldShape<T>(s: Sched<T>, core: nat)
    requires Inv(s) && core < |s.current|
    ensures var cur, h := s.current[core], Highest(s.queues, LEVELS);
            var p := s.prio[cur];
            var u := Yield(s, core);
            && p < LEVELS && u.prio == s.prio
            && (h < p || (p == IDLE && h < 0) ==> u == s)
            && (h >= p && h >= 0 ==>
                  && s.queues[h] != []
                  && u.current == s.current[core := s.queues[h][0]]
                  && u.queues == if p == IDLE then s.queues[h := s.queues[h][1..]]
                                 else if p == h then s.queues[h := s.queues[h][1..] + [cur]]
                                 else s.queues[h := s.queues[h][1..]][p := s.queues[p] + [cur]])
  {
    var cur := s.current[core];
    var p := s.prio[cur];
    if p != IDLE {
      assert QueueOk(s, p);
      var q := Enqueue(s, cur);
      var h, k := Highest(s.queues, LEVELS), Highest(q.queues, LEVELS);
      assert q.queues[p] != [];
      if h < p {
        OneLeaves(s.queues, p, cur);
        assert forall x :: p < x < LEVELS ==> q.queues[x] == s.queues[x] == [];
        assert s.current[core := cur] == s.current;
      } else {
        assert q.queues[h] != [] && forall x :: h < x < LEVELS ==> q.queues[x] == s.queues[x] == [];
        assert k == h;
        assert h == p ==> q.queues[h][1..] == s.queues[h][1..] + [cur];
      }
    }
  }

  lemma YieldQueues<T>(s: Sched<T>, core: nat, p: nat)
    requires Inv(s) && core < |s.current| && p < LEVELS
    ensures |Yield(s, core).queues| == LEVELS && QueueOk(Yield(s, core), p)
  {
    YieldShape(s, core);
    var cur, h := s.current[core], Highest(s.queues, LEVELS);
    var u := Yield(s, core);
    hide Yield, Highest;
    assert QueueOk(s, p) && cur in s.current;
    if u != s {
      assert QueueOk(s, h);
      Apart(s.queues[h], s.queues[p], cur);
      forall t | t in u.queues[p]
        ensures t in s.queues[p] || (t == cur && p == s.prio[cur] != IDLE)
      {
      }
      assert forall t :: t in u.current ==> t in s.current || t == s.queues[h][0];
    }
  }

  /** The tail of a queue loses its head, and a newcomer at the end leaves entries distinct. */
  lemma Apart<T>(h: seq<T>, q: seq<T>, t: T)
    requires Distinct(h) && Distinct(q) && h != [] && t !in q
    ensures h[0] !in h[1..] && Distinct(h[1..]) && Distinct(q + [t]) && (t !in h ==> Distinct(h[1..] + [t]))
  {
  }

  lemma YieldInv<T>(s: Sched<T>, core: nat)
    requires Inv(s) && core < |s.current|
    ensures Inv(Yield(s, core))
  {
    var u := Yield(s, core);
    YieldShape(s, core);
    forall p | 0 <= p < LEVELS
      ensures QueueOk(u, p)
    {
      YieldQueues(s, core, p);
    }
    var h := Highest(s.queues, LEVELS);
    if h >= 0 {
      assert QueueOk(s, h);
      assert s.queues[h][0] in s.queues[h];
    }
    forall t | t in u.prio && u.prio[t] != IDLE
      ensures t in u.queues[u.prio[t]] || t in u.current
    {
      YieldKeeps(s, core, t);
    }
  }

  lemma YieldKeeps<T>(s: Sched<T>, core: nat, t: T)
    requires Inv(s) && core < |s.current| && |Yield(s, core).queues| == LEVELS
    requires t in s.prio && s.prio[t] != IDLE
    ensures var u := Yield(s, core);
            t in u.queues[s.prio[t]] || t in u.current
  {
    YieldShape(s, core);
    var u := Yield(s, core);
    var h := Highest(s.queues, LEVELS);
    if t in s.queues[s.prio[t]] {
      var i :| 0 <= i < |s.queues[s.prio[t]]| && s.queues[s.prio[t]][i] == t;
      if i == 0 && h == s.prio[t] && u != s {
        assert u.current[core] == t;
      } else if h == s.prio[t] && u != s {
        assert u.queues[h][i - 1] == t;
      }
    } else {
      var c :| 0 <= c < |s.current| && s.current[c] == t;
      if c == core && u != s {
        assert u.queues[s.prio[t]][|u.queues[s.prio[t]]| - 1] == t;
      } else {
        assert u.current[c] == t;
      }
    }
  }

  /** Who waits after a yield waited before or yielded; who runs ran before or was picked. */
  lemma YieldFrom<T>(s: Sched<T>, core: nat, t: T)
    requires Inv(s) && core < |s.current| && t in s.prio
    ensures var u := Yield(s, core);
            && Inv(u) && |u.current| == |s.current| && u.prio == s.prio
            && (t in u.queues[s.prio[t]] ==> s.prio[t] != IDLE && t != u.current[core] && (t in s.queues[s.prio[t]] || t == s.current[core]))
            && (t in u.current ==> t == u.current[core] || (t in s.current && t != s.current[core]))
  {
    YieldShape(s, core);
    YieldInv(s, core);
    var u := Yield(s, core);
    assert QueueOk(u, s.prio[t]);
    assert u.current[core] in u.current;
  }

  // ---------------------------------------------------------------- oldest of the highest

  /** `since` says when each waiting task queued up: queues are in that order, and the time is `now`. */
  ghost predicate Aged<T>(s: Sched<T>, since: map<T, nat>, now: nat) {
    forall p :: 0 <= p < |s.queues| ==> AgedQueue(s.queues[p], since, now)
  }

  ghost predicate AgedQueue<T>(q: seq<T>, since: map<T, nat>, now: nat) {
    && (forall t :: t in q ==> t in since && since[t] < now)
    && forall i, j :: 0 <= i < j < |q| ==> since[q[i]] < since[q[j]]
  }

  /** The tasks a yield of `core` may choose from: all that wait, and the yielder unless it is IDLE. */
  ghost predicate Ready<T>(s: Sched<T>, core: nat, t: T)
    requires core < |s.current|
  {
    t in s.prio && s.prio[t] != IDLE && (t == s.current[core] || t !in s.current)
  }

  /** Each waiting task keeps its time; the yielder queues up `now`. */
  ghost function Since<T>(s: Sched<T>, since: map<T, nat>, core: nat, now: nat): map<T, nat>
    requires core < |s.current|
  {
    since[s.current[core] := now]
  }

  /**
   Among all ready tasks, the yielder included, a yield runs the one of highest priority that has
   waited longest; with no ready task the yielder stays.
   */
  lemma YieldPicksOldest<T>(s: Sched<T>, core: nat, since: map<T, nat>, now: nat)
    requires Inv(s) && core < |s.current| && Aged(s, since, now)
    ensures var age := Since(s, since, core, now);
            var next := Yield(s, core).current[core];
            && Aged(Yield(s, core), age, now + 1)
            && |Yield(s, core).current| == |s.current| && Yield(s, core).prio == s.prio
            && (forall c :: 0 <= c < |s.current| && c != core ==> Yield(s, core).current[c] == s.current[c])
            && ((forall t :: t in s.prio ==> !Ready(s, core, t)) ==> next == s.current[core])
            && forall t :: t in s.prio && Ready(s, core, t) ==>
                 && Ready(s, core, next) && next in age && t in age
                 && (s.prio[t] < s.prio[next] || (s.prio[t] == s.prio[next] && age[next] <= age[t]))
  {
    YieldShape(s, core);
    var age := Since(s, since, core, now);
    var h := Highest(s.queues, LEVELS);
    if h >= 0 {
      assert QueueOk(s, h) && s.queues[h][0] in s.queues[h];
    }
    forall t | t in s.prio && Ready(s, core, t)
      ensures var next := Yield(s, core).current[core];
              && Ready(s, core, next) && next in age && t in age
              && (s.prio[t] < s.prio[next] || (s.prio[t] == s.prio[next] && age[next] <= age[t]))
    {
      if t != s.current[core] {
        var i :| 0 <= i < |s.queues[s.prio[t]]| && s.queues[s.prio[t]][i] == t;
      }
    }
    YieldAged(s, core, since, now);
  }

  lemma YieldAged<T>(s: Sched<T>, core: nat, since: map<T, nat>, now: nat)
    requires Inv(s) && core < |s.current| && Aged(s, since, now)
    ensures Aged(Yield(s, core), Since(s, since, core, now), now + 1)
  {
    var cur, h := s.current[core], Highest(s.queues, LEVELS);
    var u, age := Yield(s, core), Since(s, since, core, now);
    YieldShape(s, core);
    forall p | 0 <= p < |u.queues|
      ensures AgedQueue(u.queues[p], age, now + 1)
    {
      assert QueueOk(s, p) && cur in s.current;
      AgedPush(s.queues[p], since, now, cur);
      AgedPush(if p == h then s.queues[p][1..] else s.queues[p], since, now, cur);
    }
  }

  /** A new task queues up at its creation. */
  lemma CreateAged<T>(s: Sched<T>, t: T, prio: nat, since: map<T, nat>, now: nat)
    requires Inv(s) && t !in s.prio && prio < LEVELS && Aged(s, since, now)
    ensures Aged(Create(s, t, prio), since[t := now], now + 1)
  {
    var u := Create(s, t, prio);
    forall p | 0 <= p < |u.queues|
      ensures AgedQueue(u.queues[p], since[t := now], now + 1)
    {
      assert QueueOk(s, p);
      AgedPush(s.queues[p], since, now, t);
    }
  }

  lemma AgedPush<T>(q: seq<T>, since: map<T, nat>, now: nat, t: T)
    requires AgedQueue(q, since, now) && t !in q
    ensures AgedQueue(q, since[t := now], now + 1) && AgedQueue(q + [t], since[t := now], now + 1)
  {
  }

  // ---------------------------------------------------------------- runs

  datatype Op<T> = CreateOp(task: T, prio: nat) | YieldOp(core: nat)

  ghost predicate Legal<T>(s: Sched<T>, op: Op<T>) {
    match op
    case CreateOp(t, prio) => t !in s.prio && prio < LEVELS
    case YieldOp(core) => core < |s.current|
  }

  ghost function Apply<T>(s: Sched<T>, op: Op<T>): (u: Sched<T>)
    requires Inv(s) && Legal(s, op)
    ensures Inv(u) && |u.current| == |s.current|
  {
    match op
    case CreateOp(t, prio) => CreateInv(s, t, prio); Create(s, t, prio)
    case YieldOp(core) => YieldInv(s, core); YieldShape(s, core); Yield(s, core)
  }

  /** The calls in `ops`, made one after the other by any cores, lead from `s` to `u`. */
  ghost predicate Runs<T>(s: Sched<T>, ops: seq<Op<T>>, u: Sched<T>)
    requires Inv(s)
    decreases |ops|
  {
    if ops == [] then u == s
    else Legal(s, ops[0]) && Runs(Apply(s, ops[0]), ops[1..], u)
  }

  /** When each task queued up last: at its creation or its latest yield, counted in calls from `now`. */
  ghost function Times<T>(s: Sched<T>, ops: seq<Op<T>>, since: map<T, nat>, now: nat): map<T, nat>
    requires Inv(s)
    decreases |ops|
  {
    if ops == [] || !Legal(s, ops[0]) then since
    else
      var next := if ops[0].CreateOp? then since[ops[0].task := now] else Since(s, since, ops[0].core, now);
      Times(Apply(s, ops[0]), ops[1..], next, now + 1)
  }

  lemma ApplyAged<T>(s: Sched<T>, op: Op<T>, since: map<T, nat>, now: nat)
    requires Inv(s) && Legal(s, op) && Aged(s, since, now)
    ensures Aged(Apply(s, op), if op.CreateOp? then since[op.task := now] else Since(s, since, op.core, now), now + 1)
  {
    hide Inv, Aged;
    match op
    case CreateOp(t, prio) => CreateAged(s, t, prio, since, now);
    case YieldOp(core) => YieldAged(s, core, since, now);
  }

  lemma {:induction false} RunsAged<T>(s: Sched<T>, ops: seq<Op<T>>, u: Sched<T>, since: map<T, nat>, now: nat)
    requires Inv(s) && Runs(s, ops, u) && Aged(s, since, now)
    ensures Inv(u) && Aged(u, Times(s, ops, since, now), now + |ops|)
    decreases |ops|
  {
    hide Inv, Aged, Apply, Since;
    if ops != [] {
      ApplyAged(s, ops[0], since, now);
      var next := if ops[0].CreateOp? then since[ops[0].task := now] else Since(s, since, ops[0].core, now);
      RunsAged(Apply(s, ops[0]), ops[1..], u, next, now + 1);
    }
  }

  /**
   After every run from empty queues, a yield runs the ready task of highest priority that queued up
   first, the yielder last of all.
   */
  lemma RunsPickOldest<T>(s: Sched<T>, ops: seq<Op<T>>, u: Sched<T>, core: nat)
    requires Inv(s) && (forall p :: 0 <= p < |s.queues| ==> s.queues[p] == []) && Runs(s, ops, u) && core < |u.current|
    ensures Inv(u)
    ensures var age := Times(s, ops, map[], 0)[u.current[core] := |ops|];
            var next := Yield(u, core).current[core];
            && (forall c :: 0 <= c < |u.current| && c != core ==> Yield(u, core).current[c] == u.current[c])
            && ((forall t :: t in u.prio ==> !Ready(u, core, t)) ==> next == u.current[core])
            && forall t :: t in u.prio && Ready(u, core, t) ==>
                 && Ready(u, core, next) && next in age && t in age
                 && (u.prio[t] < u.prio[next] || (u.prio[t] == u.prio[next] && age[next] <= age[t]))
  {
    hide Inv, Runs, Times, Yield, Ready;
    assert Aged(s, map[], 0);
    RunsAged(s, ops, u, map[], 0);
    YieldPicksOldest(u, core, Times(s, ops, map[], 0), |ops|);
  }

  lemma {:induction false} RunsAppend<T>(s: Sched<T>, ops: seq<Op<T>>, u: Sched<T>, more: seq<Op<T>>, v: Sched<T>)
    requires Inv(s) && Inv(u) && Runs(s, ops, u) && Runs(u, more, v)
    ensures Runs(s, ops + more, v)
    decreases |ops|
  {
    hide Inv, Apply, Legal;
    if ops == [] {
      assert ops + more == more;
    } else {
      RunsAppend(Apply(s, ops[0]), ops[1..], u, more, v);
      assert (ops + more)[1..] == ops[1..] + more;
    }
  }

  ghost function Yields<T>(ops: seq<Op<T>>): nat {
    if ops == [] then 0 else (if ops[0].YieldOp? then 1 else 0) + Yields(ops[1..])
  }

  lemma {:induction false} YieldsAppend<T>(ops: seq<Op<T>>, more: seq<Op<T>>)
    ensures Yields(ops + more) == Yields(ops) + Yields(more)
    decreases |ops|
  {
    if ops == [] {
      assert ops + more == more;
    } else {
      YieldsAppend(ops[1..], more);
      assert (ops + more)[1..] == ops[1..] + more;
    }
  }

  /** No task above priority `p` waits, runs or is created. */
  ghost predicate NoneAbove<T>(s: Sched<T>, p: nat) {
    forall t :: t in s.prio ==> s.prio[t] <= p
  }

  ghost predicate CreatesUpto<T>(ops: seq<Op<T>>, p: nat) {
    forall i :: 0 <= i < |ops| && ops[i].CreateOp? ==> ops[i].prio <= p
  }

  /** A task created with priority IDLE never runs. */
  lemma {:induction false} IdleNeverRuns<T>(s: Sched<T>, ops: seq<Op<T>>, u: Sched<T>, t: T)
    requires Inv(s) && Runs(s, ops, u) && t in s.prio && s.prio[t] == IDLE && t !in s.current
    ensures t !in u.current
    decreases |ops|
  {
    if ops != [] {
      if ops[0].YieldOp? {
        YieldShape(s, ops[0].core);
        YieldFrom(s, ops[0].core, t);
        PickedIsQueued(s, ops[0].core);
      }
      IdleNeverRuns(Apply(s, ops[0]), ops[1..], u, t);
    }
  }

  lemma PickedIsQueued<T>(s: Sched<T>, core: nat)
    requires Inv(s) && core < |s.current|
    ensures var u := Yield(s, core);
            core < |u.current| && (u.current[core] == s.current[core] || (u.current[core] in s.prio && s.prio[u.current[core]] != IDLE))
  {
    YieldShape(s, core);
    var h := Highest(s.queues, LEVELS);
    if h >= 0 {
      assert QueueOk(s, h) && s.queues[h][0] in s.queues[h];
    }
  }

  // ---------------------------------------------------------------- bounded waiting

  ghost predicate WaitsAt<T>(s: Sched<T>, t: T, p: nat, i: nat) {
    && p < |s.queues| && i < |s.queues[p]| && s.queues[p][i] == t
  }

  /** One yield of any core: the task at the head of the highest queue runs, every other one there moves up. */
  lemma YieldMovesUp<T>(s: Sched<T>, core: nat, t: T, p: nat, i: nat)
    requires Inv(s) && core < |s.current| && NoneAbove(s, p) && p < LEVELS && WaitsAt(s, t, p, i)
    ensures i == 0 ==> Yield(s, core).current[core] == t
    ensures i > 0 ==> WaitsAt(Yield(s, core), t, p, i - 1)
  {
    YieldShape(s, core);
    HighestIs(s, p);
    assert QueueOk(s, p);
    assert s.current[core] in s.current;
  }

  lemma HighestIs<T>(s: Sched<T>, p: nat)
    requires Inv(s) && NoneAbove(s, p) && p < LEVELS && s.queues[p] != []
    ensures Highest(s.queues, LEVELS) == p
  {
    var h := Highest(s.queues, LEVELS);
    assert QueueOk(s, h) && s.queues[h][0] in s.queues[h];
  }

  lemma CreateStays<T>(s: Sched<T>, c: T, prio: nat, t: T, p: nat, i: nat)
    requires Inv(s) && c !in s.prio && prio < LEVELS && WaitsAt(s, t, p, i)
    ensures WaitsAt(Create(s, c, prio), t, p, i)
  {
  }

  lemma Waiting<T>(s: Sched<T>, t: T, p: nat, i: nat)
    requires Inv(s) && WaitsAt(s, t, p, i)
    ensures t !in s.current
  {
    assert QueueOk(s, p);
  }

  lemma AboveKept<T>(s: Sched<T>, op: Op<T>, p: nat)
    requires Inv(s) && Legal(s, op) && NoneAbove(s, p) && (op.CreateOp? ==> op.prio <= p)
    ensures NoneAbove(Apply(s, op), p)
  {
    if op.YieldOp? { YieldShape(s, op.core); }
  }

  /**
   Bounded waiting: with no task above priority `p`, a task at position `i` of queue `p` is still
   queued, and so on no core, while at most `i` yields have completed over all cores.
   */
  lemma {:induction false} StillWaits<T>(s: Sched<T>, ops: seq<Op<T>>, u: Sched<T>, t: T, p: nat, i: nat)
    requires Inv(s) && Runs(s, ops, u) && NoneAbove(s, p) && CreatesUpto(ops, p) && p < LEVELS
    requires WaitsAt(s, t, p, i) && Yields(ops) <= i
    ensures Inv(u) && NoneAbove(u, p) && |u.current| == |s.current|
    ensures WaitsAt(u, t, p, i - Yields(ops)) && t !in u.current
    decreases |ops|
  {
    hide Inv, Yield, Create, QueueOk, NoneAbove;
    if ops == [] {
      Waiting(s, t, p, i);
    } else {
      var v := Apply(s, ops[0]);
      AboveKept(s, ops[0], p);
      match ops[0] {
        case CreateOp(c, prio) =>
          CreateStays(s, c, prio, t, p, i);
          StillWaits(v, ops[1..], u, t, p, i);
        case YieldOp(core) =>
          YieldMovesUp(s, core, t, p, i);
          StillWaits(v, ops[1..], u, t, p, i - 1);
      }
    }
  }

  /** ... and it is the task that the (i+1)-th yield, by whatever core, makes current. */
  lemma {:induction false} BoundedWaiting<T>(s: Sched<T>, ops: seq<Op<T>>, u: Sched<T>, core: nat, t: T, p: nat, i: nat)
    requires Inv(s) && Runs(s, ops, u) && NoneAbove(s, p) && CreatesUpto(ops, p) && p < LEVELS
    requires WaitsAt(s, t, p, i) && Yields(ops) == i && core < |s.current|
    ensures Inv(u) && t !in u.current && |u.current| == |s.current|
    ensures Yield(u, core).current[core] == t
  {
    StillWaits(s, ops, u, t, p, i);
    YieldMovesUp(u, core, t, p, 0);
  }

  // ---------------------------------------------------------------- round robin

  /** On one core: the current task followed by the tasks that wait at its priority. */
  ghost function Ring<T>(s: Sched<T>, p: nat): seq<T>
    requires p < |s.queues|
  {
    s.current + s.queues[p]
  }

  ghost function Rotated<T>(r: seq<T>, k: nat): seq<T>
    requires k <= |r|
  {
    r[k..] + r[..k]
  }

  ghost function YieldsOf<T>(n: nat): seq<Op<T>> {
    seq(n, i => YieldOp(0))
  }

  lemma OneTurn<T>(s: Sched<T>, p: nat)
    requires Inv(s) && |s.current| == 1 && s.prio[s.current[0]] == p && p != IDLE
    requires forall q :: p < q < LEVELS ==> s.queues[q] == []
    ensures var u := Yield(s, 0);
            && |u.queues| == LEVELS && |u.current| == 1 && u.current[0] in s.prio && s.prio[u.current[0]] == p
            && Ring(u, p) == Rotated(Ring(s, p), 1)
            && u == s.(current := u.current, queues := s.queues[p := u.queues[p]])
  {
    YieldShape(s, 0);
    var u := Yield(s, 0);
    var h := Highest(s.queues, LEVELS);
    if h >= p {
      assert h == p && QueueOk(s, p) && s.queues[p][0] in s.queues[p];
      assert u.queues == s.queues[p := u.queues[p]];
      assert u.current == [s.queues[p][0]];
      assert Ring(u, p) == [s.queues[p][0]] + (s.queues[p][1..] + s.current);
    } else {
      assert s.queues[p] == [];
      assert u.queues == s.queues[p := u.queues[p]];
    }
  }

  /**
   Round robin on one core: `k` yields turn the ring of equals by `k` places and change no other
   queue, so tasks of lower priority do not run; a full turn restores the scheduler.
   */
  lemma {:induction false} RoundRobin<T>(s: Sched<T>, p: nat, k: nat, u: Sched<T>)
    requires Inv(s) && |s.current| == 1 && s.prio[s.current[0]] == p && p != IDLE
    requires forall q :: p < q < LEVELS ==> s.queues[q] == []
    requires k <= |Ring(s, p)| && Runs(s, YieldsOf(k), u)
    ensures |u.current| == 1 && |u.queues| == LEVELS && Ring(u, p) == Rotated(Ring(s, p), k)
    ensures u == s.(current := u.current, queues := s.queues[p := u.queues[p]])
    ensures k == |Ring(s, p)| ==> u == s
    decreases k
  {
    hide Inv, Yield, Rotated, Ring;
    RingLength(s, p);
    if k == 0 {
      NoTurn(s, p);
    } else {
      OneTurn(s, p);
      YieldInv(s, 0);
      var v := Yield(s, 0);
      assert YieldsOf<T>(k)[1..] == YieldsOf<T>(k - 1);
      assert Apply(s, YieldsOf<T>(k)[0]) == v;
      RoundRobin(v, p, k - 1, u);
      Turn(Ring(s, p), k);
      assert v.queues[p := u.queues[p]] == s.queues[p := u.queues[p]];
    }
    if k == |Ring(s, p)| {
      FullTurn(s, u, p);
    }
  }

  lemma RingLength<T>(s: Sched<T>, p: nat)
    requires Inv(s) && |s.current| == 1 && s.prio[s.current[0]] == p
    ensures p < |s.queues| == LEVELS && |Rotated(Ring(s, p), 1)| == |Ring(s, p)| == |s.queues[p]| + 1
  {
  }

  lemma NoTurn<T>(s: Sched<T>, p: nat)
    requires p < |s.queues| && |s.current| == 1
    ensures Ring(s, p) == Rotated(Ring(s, p), 0) && s.queues[p := s.queues[p]] == s.queues && |Ring(s, p)| > 0
  {
  }

  lemma FullTurn<T>(s: Sched<T>, u: Sched<T>, p: nat)
    requires |s.current| == |u.current| == 1 && p < |s.queues| == |u.queues|
    requires Ring(u, p) == Rotated(Ring(s, p), |Ring(s, p)|)
    requires u == s.(current := u.current, queues := s.queues[p := u.queues[p]])
    ensures u == s
  {
    assert Ring(u, p) == Ring(s, p);
    assert u.current == Ring(u, p)[..1] == s.current;
    assert u.queues[p] == Ring(u, p)[1..] == s.queues[p];
    assert s.queues[p := s.queues[p]] == s.queues;
  }

  lemma Turn<T>(r: seq<T>, k: nat)
    requires 0 < k <= |r|
    ensures Rotated(Rotated(r, 1), k - 1) == Rotated(r, k)
  {
  }
}
