/**
 The receive queue of src/net.c as an interleaved machine: the driver's `net_poll_rx`, one step at a
 time, and a device that takes buffers in order and completes them in any order. Indices have 16
 bits and wrap; the counters `made`, `taken`, `done` and `seen` are their unbounded history.
 */
module RxRing {
  import opened Division
  import opened RingIndex

  /** Where the driver is in its loop, and the descriptor it holds. */
  datatype Driver = Idle | Fetched(id: nat) | Recycled(id: nat) | Published

  datatype Rx = Rx(
    q: nat, availIdx: nat, availRing: seq<nat>, usedIdx: nat, usedRing: seq<nat>, lastUsed: nat, pc: Driver,
    devIdx: nat, inFlight: multiset<nat>,
    made: nat, taken: nat, done: nat, seen: nat)

  datatype Action = Fetch | Recycle | Publish | Advance | Take | Complete(id: nat)

  ghost predicate Shaped(s: Rx) {
    && SizeOk(s.q) && 0 < s.q && |s.availRing| == |s.usedRing| == s.q
    && s.availIdx < 0x1_0000 && s.usedIdx < 0x1_0000 && s.lastUsed < 0x1_0000 && s.devIdx < 0x1_0000
  }

  // ---------------------------------------------------------------- steps

  ghost predicate Enabled(s: Rx, a: Action)
  {
    match a
    case Fetch => s.pc.Idle? && s.lastUsed != s.usedIdx
    case Recycle => s.pc.Fetched?
    case Publish => s.pc.Recycled?
    case Advance => s.pc.Published?
    case Take => s.devIdx != s.availIdx
    case Complete(id) => id in s.inFlight
  }

  ghost function Step(s: Rx, a: Action): Rx
    requires Shaped(s) && Enabled(s, a)
  {
    match a
    case Fetch => s.(pc := Fetched(s.usedRing[Slot(s.lastUsed, s.q)]))
    case Recycle => s.(availRing := s.availRing[Slot(s.availIdx, s.q) := s.pc.id], pc := Recycled(s.pc.id))
    case Publish => s.(availIdx := Wrap(s.availIdx + 1), made := s.made + 1, pc := Published)
    case Advance => s.(lastUsed := Wrap(s.lastUsed + 1), seen := s.seen + 1, pc := Idle)
    case Take =>
      s.(devIdx := Wrap(s.devIdx + 1), taken := s.taken + 1,
         inFlight := s.inFlight + multiset{s.availRing[Slot(s.devIdx, s.q)]})
    case Complete(id) =>
      s.(usedRing := s.usedRing[Slot(s.usedIdx, s.q) := id], usedIdx := Wrap(s.usedIdx + 1), done := s.done + 1,
         inFlight := s.inFlight - multiset{id})
  }

  // ---------------------------------------------------------------- invariant

  /** The first used entry the driver has not taken to hand. */
  ghost function First(s: Rx): nat {
    if s.pc.Idle? then s.seen else s.seen + 1
  }

  ghost function Hand(s: Rx): multiset<nat> {
    match s.pc
    case Fetched(id) => multiset{id}
    case Recycled(id) => multiset{id}
    case _ => multiset{}
  }

  /** Published buffers the device has not taken, and completed ones the driver has not taken. */
  ghost function Avail(s: Rx): seq<nat>
    requires |s.availRing| > 0 && s.taken <= s.made
  {
    Window(s.availRing, s.taken, s.made)
  }

  ghost function Used(s: Rx): seq<nat>
    requires |s.usedRing| > 0 && First(s) <= s.done
  {
    Window(s.usedRing, First(s), s.done)
  }

  ghost function Ids(q: nat): (r: seq<nat>)
    ensures |r| == q && forall i :: 0 <= i < q ==> r[i] == i
  {
    seq(q, i requires 0 <= i < q => i)
  }

  ghost function Rest(w: seq<nat>): seq<nat> {
    if w == [] then [] else w[1..]
  }

  ghost predicate Counted(s: Rx) {
    && s.availIdx == Wrap(s.made) && s.devIdx == Wrap(s.taken) && s.usedIdx == Wrap(s.done) && s.lastUsed == Wrap(s.seen)
    && s.taken <= s.made && First(s) <= s.done
    && s.made == s.seen + s.q + (if s.pc.Published? then 1 else 0)
  }

  /** Every descriptor is in exactly one place: available, in flight, used, or in the driver's hand. */
  ghost predicate Placed(s: Rx)
    requires |s.availRing| > 0 && |s.usedRing| > 0 && s.taken <= s.made && First(s) <= s.done
  {
    multiset(Avail(s)) + s.inFlight + multiset(Used(s)) + Hand(s) == multiset(Ids(s.q))
  }

  ghost predicate Inv(s: Rx) {
    && Shaped(s) && Counted(s) && Placed(s)
    && (s.pc.Recycled? ==> s.availRing[Slot(s.made, s.q)] == s.pc.id)
  }

  /** After `net_rx_fill`: all descriptors available in order. */
  ghost function Filled(q: nat, used: seq<nat>): Rx {
    Rx(q, Wrap(q), Ids(q), 0, used, 0, Idle, 0, multiset{}, q, 0, 0, 0)
  }

  lemma FilledInv(q: nat, used: seq<nat>)
    requires SizeOk(q) && |used| == q
    ensures Inv(Filled(q, used))
  {
    var s := Filled(q, used);
    forall i: nat | i < q
      ensures Avail(s)[i] == Ids(q)[i]
    {
      DivUnique(i, q, 0, i);
    }
    assert Avail(s) == Ids(q);
  }

  /** How many there are of each, and that a full ring is never asked for more. */
  lemma Sizes(s: Rx)
    requires Inv(s)
    ensures |Avail(s)| + |s.inFlight| + |Used(s)| + |Hand(s)| == s.q
    ensures s.made - s.taken + |s.inFlight| + (s.done - First(s)) + |Hand(s)| == s.q
  {
    assert |multiset(Ids(s.q))| == s.q;
    assert |multiset(Avail(s)) + s.inFlight + multiset(Used(s)) + Hand(s)| == |Avail(s)| + |s.inFlight| + |Used(s)| + |Hand(s)|;
  }

  lemma {:induction false} IdsOnce(q: nat, id: nat)
    ensures multiset(Ids(q))[id] == if id < q then 1 else 0
  {
    if q > 0 {
      IdsOnce(q - 1, id);
      assert Ids(q) == Ids(q - 1) + [q - 1];
    }
  }

  /** Descriptor `id` is in exactly one place, and nothing else is anywhere. */
  lemma InOnePlace(s: Rx, id: nat)
    requires Inv(s)
    ensures multiset(Avail(s))[id] + s.inFlight[id] + multiset(Used(s))[id] + Hand(s)[id] == if id < s.q then 1 else 0
  {
    IdsOnce(s.q, id);
    assert (multiset(Avail(s)) + s.inFlight + multiset(Used(s)) + Hand(s))[id] == multiset(Ids(s.q))[id];
  }

  // ---------------------------------------------------------------- each step

  /** The indices the code computes with are those of the unbounded positions, and its tests are exact. */
  lemma IndicesExact(s: Rx)
    requires Inv(s)
    ensures 0 < s.q <= 0x8000
    ensures Slot(s.availIdx, s.q) == Slot(s.made, s.q) && Slot(s.usedIdx, s.q) == Slot(s.done, s.q)
    ensures Slot(s.lastUsed, s.q) == Slot(s.seen, s.q) && Slot(s.devIdx, s.q) == Slot(s.taken, s.q)
    ensures s.devIdx == s.availIdx <==> s.taken == s.made
    ensures s.pc.Idle? ==> (s.lastUsed == s.usedIdx <==> s.seen == s.done)
  {
    Sizes(s);
    SlotOfIndex(s.made, s.q);
    SlotOfIndex(s.done, s.q);
    SlotOfIndex(s.seen, s.q);
    SlotOfIndex(s.taken, s.q);
    SameIndex(s.taken, s.made);
    if s.pc.Idle? { SameIndex(s.seen, s.done); }
  }

  lemma FetchInv(s: Rx)
    requires Inv(s) && Enabled(s, Fetch)
    ensures Inv(Step(s, Fetch))
    ensures var u := Step(s, Fetch);
            u.pc.Fetched? && Used(s) == [u.pc.id] + Used(u) && Used(u) == Rest(Used(s)) && Avail(u) == Avail(s)
  {
    hide Slot, Wrap, SizeOk;
    IndicesExact(s);
    WindowPop(s.usedRing, s.seen, s.done);
    var u := Step(s, Fetch);
    assert multiset(Used(s)) == multiset([u.pc.id]) + multiset(Used(u));
  }

  /** Putting a buffer back touches no entry the device still has to take. */
  lemma RecycleInv(s: Rx)
    requires Inv(s) && Enabled(s, Recycle)
    ensures Inv(Step(s, Recycle)) && Avail(Step(s, Recycle)) == Avail(s) && Used(Step(s, Recycle)) == Used(s)
  {
    hide Slot, Wrap, SizeOk;
    IndicesExact(s);
    Sizes(s);
    WindowPush(s.availRing, s.taken, s.made, s.pc.id);
  }

  lemma PublishInv(s: Rx)
    requires Inv(s) && Enabled(s, Publish)
    ensures s.pc.Recycled? && Inv(Step(s, Publish))
    ensures Avail(Step(s, Publish)) == Avail(s) + [s.pc.id] && Used(Step(s, Publish)) == Used(s)
  {
    hide Slot, Wrap, SizeOk;
    IndicesExact(s);
    Sizes(s);
    WindowPush(s.availRing, s.taken, s.made, s.pc.id);
    NextIndex(s.made);
    var u := Step(s, Publish);
    assert s.availRing[Slot(s.made, s.q) := s.pc.id] == s.availRing;
    assert multiset(Avail(u)) == multiset(Avail(s)) + multiset([s.pc.id]);
  }

  lemma AdvanceInv(s: Rx)
    requires Inv(s) && Enabled(s, Advance)
    ensures Inv(Step(s, Advance)) && Avail(Step(s, Advance)) == Avail(s) && Used(Step(s, Advance)) == Used(s)
  {
    NextIndex(s.seen);
    assert Used(Step(s, Advance)) == Used(s);
  }

  lemma Taken(avail: seq<nat>, rest: seq<nat>, id: nat, f: multiset<nat>, u: multiset<nat>, h: multiset<nat>)
    requires avail == [id] + rest
    ensures multiset(rest) + (f + multiset{id}) + u + h == multiset(avail) + f + u + h
  {
    assert multiset([id] + rest) == multiset([id]) + multiset(rest);
  }

  lemma Completed(avail: multiset<nat>, f: multiset<nat>, used: seq<nat>, id: nat, h: multiset<nat>)
    requires id in f
    ensures avail + (f - multiset{id}) + multiset(used + [id]) + h == avail + f + multiset(used) + h
  {
    assert multiset(used + [id]) == multiset(used) + multiset([id]);
  }

  lemma TakeWindows(s: Rx)
    requires Inv(s) && Enabled(s, Take)
    ensures var u := Step(s, Take);
            && Shaped(u) && Counted(u) && |u.availRing| > 0 && |u.usedRing| > 0
            && Avail(s) == [s.availRing[Slot(s.devIdx, s.q)]] + Avail(u) && Used(u) == Used(s) && Hand(u) == Hand(s)
            && u.inFlight == s.inFlight + multiset{s.availRing[Slot(s.devIdx, s.q)]} && u.q == s.q
            && u.pc == s.pc && u.availRing == s.availRing && u.made == s.made
  {
    hide Slot, Wrap, SizeOk, Placed;
    IndicesExact(s);
    NextIndex(s.taken);
    WindowPop(s.availRing, s.taken, s.made);
  }

  /** The device overwrites no used entry that the driver still has to take. */
  lemma CompleteWindows(s: Rx, id: nat)
    requires Inv(s) && Enabled(s, Complete(id))
    ensures var u := Step(s, Complete(id));
            && Shaped(u) && Counted(u) && |u.availRing| > 0 && |u.usedRing| > 0
            && Avail(u) == Avail(s) && Used(u) == Used(s) + [id] && Hand(u) == Hand(s)
            && u.inFlight == s.inFlight - multiset{id} && u.q == s.q
            && u.pc == s.pc && u.availRing == s.availRing && u.made == s.made
  {
    hide Slot, Wrap, SizeOk, Placed;
    IndicesExact(s);
    Sizes(s);
    assert |s.inFlight| == |s.inFlight - multiset{id}| + 1;
    NextIndex(s.done);
    WindowPush(s.usedRing, First(s), s.done, id);
  }

  lemma TakeInv(s: Rx)
    requires Inv(s) && Enabled(s, Take)
    ensures Inv(Step(s, Take)) && Avail(Step(s, Take)) == Rest(Avail(s)) && Used(Step(s, Take)) == Used(s)
  {
    hide Slot, Wrap, SizeOk, Avail, Used, Ids, Hand, Step;
    TakeWindows(s);
    var u := Step(s, Take);
    Taken(Avail(s), Avail(u), s.availRing[Slot(s.devIdx, s.q)], s.inFlight, multiset(Used(s)), Hand(s));
  }

  lemma CompleteInv(s: Rx, id: nat)
    requires Inv(s) && Enabled(s, Complete(id))
    ensures Inv(Step(s, Complete(id))) && Used(Step(s, Complete(id))) == Used(s) + [id]
    ensures Avail(Step(s, Complete(id))) == Avail(s)
  {
    hide Slot, Wrap, SizeOk, Avail, Used, Ids, Hand, Step;
    CompleteWindows(s, id);
    Completed(multiset(Avail(s)), s.inFlight, Used(s), id, Hand(s));
  }

  lemma StepInv(s: Rx, a: Action)
    requires Inv(s) && Enabled(s, a)
    ensures Inv(Step(s, a))
  {
    hide Inv, Step;
    match a
    case Fetch => FetchInv(s);
    case Recycle => RecycleInv(s);
    case Publish => PublishInv(s);
    case Advance => AdvanceInv(s);
    case Take => TakeInv(s);
    case Complete(id) => CompleteInv(s, id);
  }

  // ---------------------------------------------------------------- runs

  ghost predicate StepAt(b: seq<Rx>, i: nat)
    requires i + 1 < |b|
  {
    Shaped(b[i]) && exists a :: Enabled(b[i], a) && b[i + 1] == Step(b[i], a)
  }

  /** A run from a filled queue, driver and device taking steps in any order. */
  ghost predicate IsRun(b: seq<Rx>) {
    && b != [] && SizeOk(b[0].q) && |b[0].usedRing| == b[0].q && b[0] == Filled(b[0].q, b[0].usedRing)
    && forall i: nat :: i + 1 < |b| ==> StepAt(b, i)
  }

  lemma {:induction false} RunInv(b: seq<Rx>, i: nat)
    requires IsRun(b) && i < |b|
    ensures Inv(b[i]) && b[i].q == b[0].q
  {
    hide Inv, Enabled;
    if i == 0 {
      FilledInv(b[0].q, b[0].usedRing);
    } else {
      RunInv(b, i - 1);
      assert StepAt(b, i - 1);
      var a :| Enabled(b[i - 1], a) && b[i] == Step(b[i - 1], a);
      StepInv(b[i - 1], a);
    }
  }

  /** In every state of every run each descriptor is in exactly one place. */
  lemma RunPlaces(b: seq<Rx>, i: nat, id: nat)
    requires IsRun(b) && i < |b|
    ensures var s := b[i];
            && Inv(s)
            && multiset(Avail(s))[id] + s.inFlight[id] + multiset(Used(s))[id] + Hand(s)[id] == if id < b[0].q then 1 else 0
  {
    RunInv(b, i);
    InOnePlace(b[i], id);
  }

  /** Between two turns of the loop the available index is ahead of `last_used_idx` by the queue size, modulo 2^16. */
  lemma RunDistance(b: seq<Rx>, i: nat)
    requires IsRun(b) && i < |b| && b[i].pc.Idle?
    ensures b[i].availIdx == Wrap(b[i].lastUsed + b[0].q)
  {
    hide Wrap, Slot, SizeOk, Placed;
    RunInv(b, i);
    WrapAdd(b[i].seen, b[i].q);
  }

  /** No slot is overwritten before its entry is consumed: pending entries stay until they are taken. */
  lemma NothingOverwritten(s: Rx, a: Action)
    requires Inv(s) && Enabled(s, a)
    ensures Inv(s) && (a.Publish? ==> s.pc.Recycled?)
    ensures var u := Step(s, a);
            && Inv(u)
            && Avail(u) == (if a.Publish? then Avail(s) + [s.pc.id] else if a.Take? then Rest(Avail(s)) else Avail(s))
            && Used(u) == (if a.Complete? then Used(s) + [a.id] else if a.Fetch? then Rest(Used(s)) else Used(s))
  {
    hide Inv, Step, Enabled, Avail, Used, Wrap, Slot;
    match a
    case Fetch => FetchInv(s);
    case Recycle => RecycleInv(s);
    case Publish => PublishInv(s);
    case Advance => AdvanceInv(s);
    case Take => TakeInv(s);
    case Complete(id) => CompleteInv(s, id);
  }
}
