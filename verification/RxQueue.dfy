/** `net_rx_fill` and `net_poll_rx` of src/net.c on the receive queue, proved to take the steps of RxRing. */
module RxQueueClass {
  import opened Division
  import opened RingIndex
  import opened RxRing
  import P = PmmSpec
  import opened PmmClass

  const F_WRITE: nat := 2

  datatype Desc = Desc(addr: nat, len: nat, flags: nat, next: nat)

  const ZERO_DESC: Desc := Desc(0, 0, 0, 0)

  /** A completed buffer: its descriptor, its address, and the length of the packet behind the header. */
  datatype Received = Received(id: nat, buffer: nat, packetLen: nat)

  /** The length of the packet, computed with 32 bits: a used length below the header's 10 bytes wraps. */
  function PacketLen(totalLen: nat): nat {
    (totalLen + 0x1_0000_0000 - 10) % 0x1_0000_0000
  }

  class RxQueue {
    const qsize: nat
    const desc: array<Desc>
    const availRing: array<nat>
    /** The fields `id` and `len` of the used ring. */
    const usedRing: array<nat>
    const usedLens: array<nat>
    var availIdx: nat
    var usedIdx: nat
    var lastUsed: nat
    /** The device's side and the history. */
    ghost var pc: Driver
    ghost var devIdx: nat
    ghost var inFlight: multiset<nat>
    ghost var made: nat
    ghost var taken: nat
    ghost var done: nat
    ghost var seen: nat

    ghost function Abs(): Rx
      reads this, availRing, usedRing
    {
      Rx(qsize, availIdx, availRing[..], usedIdx, usedRing[..], lastUsed, pc, devIdx, inFlight, made, taken, done, seen)
    }

    /** The arrays are distinct and as long as the queue; all memory was zeroed. */
    ghost predicate Fresh()
      reads this, desc, availRing, usedRing, usedLens
    {
      && SizeOk(qsize) && 0 < qsize && Separate()
      && availIdx == usedIdx == lastUsed == devIdx == made == taken == done == seen == 0 && inFlight == multiset{} && pc == Idle
      && forall i :: 0 <= i < qsize ==> desc[i] == ZERO_DESC && availRing[i] == usedRing[i] == usedLens[i] == 0
    }

    ghost predicate Separate()
      reads this
    {
      && desc.Length == availRing.Length == usedRing.Length == usedLens.Length == qsize
      && availRing != usedRing && availRing != usedLens && usedRing != usedLens
    }

    ghost predicate Valid()
      reads this, availRing, usedRing
    {
      Separate() && Inv(Abs())
    }

    constructor (qsize: nat)
      requires SizeOk(qsize)
      ensures Fresh() && this.qsize == qsize && fresh(desc) && fresh(availRing) && fresh(usedRing) && fresh(usedLens)
    {
      this.qsize := qsize;
      desc := new Desc[qsize](i => ZERO_DESC);
      availRing := new nat[qsize](i => 0);
      usedRing := new nat[qsize](i => 0);
      usedLens := new nat[qsize](i => 0);
      availIdx, usedIdx, lastUsed, devIdx, made, taken, done, seen := 0, 0, 0, 0, 0, 0, 0, 0;
      inFlight, pc := multiset{}, Idle;
    }

    /**
     `net_rx_fill`: descriptors get the frames of successive allocations, and so many ring entries
     name them; when frames run out, the entries behind keep their zero, and the index is published
     all the same. The queue is then right exactly if there were enough frames (or it has one entry
     only), and every published entry names a descriptor with a buffer exactly if there was a frame at all.
     */
    method NetRxFill(pmm: Pmm)
      requires Fresh() && pmm.Valid()
      requires pmm.frameStack !in {availRing, usedRing, usedLens} && pmm.refCounts !in {availRing, usedRing, usedLens}
      modifies this, desc, availRing, pmm, pmm.frameStack, pmm.refCounts
      ensures pmm.Valid() && Separate()
      ensures var free := |old(pmm.Abs()).stack|;
              var n := if free < qsize then free else qsize;
              var (left, frames) := P.AllocMany(old(pmm.Abs()), n);
              && pmm.Abs() == left && |frames| == n
              && (forall i :: 0 <= i < n ==> desc[i] == Desc(frames[i], 4096, 2, 0) && frames[i] != 0)
              && (forall i :: n <= i < qsize ==> desc[i] == ZERO_DESC)
              && (forall i :: 0 <= i < qsize ==> availRing[i] == if i < n then i else 0)
              && availRing[..] == ShortRing(qsize, n) && availIdx == Wrap(qsize) && lastUsed == old(lastUsed)
              && (free >= qsize ==> Abs() == Filled(qsize, old(usedRing[..])))
              && (Valid() <==> free >= qsize || qsize == 1)
              && ((forall j :: 0 <= j < qsize ==> availRing[j] < qsize && desc[availRing[j]].addr != 0) <==> free > 0)
    {
      hide Slot, Wrap, SizeOk, Inv, ShortRing, Ids, P.Inv, P.Alloc, P.AllocMany;
      ghost var start := pmm.Abs();
      ghost var frames: seq<nat> := [];
      var i := 0;
      AllocNone(start);
      while i < qsize
        modifies desc, availRing, pmm, pmm.frameStack, pmm.refCounts
        invariant 0 <= i <= qsize && pmm.Valid() && |frames| == i <= |start.stack|
        invariant (pmm.Abs(), frames) == P.AllocMany(start, i) && |pmm.Abs().stack| == |start.stack| - i
        invariant forall j :: 0 <= j < i ==> desc[j] == Desc(frames[j], 4096, F_WRITE, 0) && frames[j] != 0 && availRing[j] == j
        invariant forall j :: i <= j < qsize ==> desc[j] == ZERO_DESC && availRing[j] == 0
        invariant usedRing[..] == old(usedRing[..])
      {
        AllocNext(start, i);
        var phys := pmm.AllocFrame();
        if phys == 0 { break; }
        desc[i] := Desc(phys, 4096, F_WRITE, 0);
        SlotBelow(i, qsize);
        availRing[Slot(i, qsize)] := i;
        frames := frames + [phys];
        i := i + 1;
      }
      availIdx := Wrap(qsize);
      made := qsize;
      assert availRing[..] == ShortRing(qsize, i);
      FillEnds(Abs(), i);
      assert availRing[0] == 0;
    }

    /** One turn of the loop of `net_poll_rx`: the completed buffer is handed on and put back. */
    method PollOne() returns (got: Received)
      requires Valid() && pc == Idle && lastUsed != usedIdx
      modifies this, availRing
      ensures Valid() && pc == Idle && usedIdx == old(usedIdx) && done == old(done) && inFlight == old(inFlight)
      ensures got.id < qsize && got.buffer == desc[got.id].addr && qsize > 0
      ensures got.packetLen == PacketLen(usedLens[Slot(old(lastUsed), qsize)])
      ensures Used(old(Abs())) == [got.id] + Used(Abs())
      ensures Avail(Abs()) == Avail(old(Abs())) + [got.id]
      ensures got.id == usedRing[Slot(old(lastUsed), qsize)]
      ensures availRing[..] == old(availRing[..])[Slot(old(availIdx), qsize) := got.id]
      ensures availIdx == Wrap(old(availIdx) + 1) && lastUsed == Wrap(old(lastUsed) + 1)
    {
      hide Wrap, Slot, SizeOk, Avail, Used, Inv;
      ghost var s := Abs();
      FourSteps(s);
      UsedInRange(s);
      var descId := usedRing[Slot(lastUsed, qsize)];
      var totalLen := usedLens[Slot(lastUsed, qsize)];
      got := Received(descId, desc[descId].addr, PacketLen(totalLen));
      availRing[Slot(availIdx, qsize)] := descId;
      availIdx := Wrap(availIdx + 1);
      lastUsed := Wrap(lastUsed + 1);
      made, seen := made + 1, seen + 1;
      assert Abs() == Turned(s);
    }

    /** What is handed on is the entry of the used ring at `slot`: descriptor, and length behind the header. */
    ghost predicate FromUsed(r: Received, slot: nat)
      reads usedRing, usedLens
    {
      slot < usedRing.Length == usedLens.Length && r.id == usedRing[slot] && r.packetLen == PacketLen(usedLens[slot])
    }

    lemma FromSlot(r: Received, slot: nat)
      requires slot < usedRing.Length == usedLens.Length && r.id == usedRing[slot] && r.packetLen == PacketLen(usedLens[slot])
      ensures FromUsed(r, slot)
    {
    }

    /** `net_poll_rx`, nothing arriving meanwhile: all completed buffers are handled in order and available again. */
    method NetPollRx() returns (received: seq<Received>)
      requires Valid() && pc == Idle
      modifies this, availRing
      ensures Valid() && pc == Idle && lastUsed == usedIdx == old(usedIdx) && inFlight == old(inFlight)
      ensures forall i :: 0 <= i < |received| ==> received[i].id < qsize && received[i].buffer == desc[received[i].id].addr
      ensures qsize > 0 && |received| == (usedIdx - old(lastUsed)) % 0x1_0000
      ensures forall i :: 0 <= i < |received| ==> FromUsed(received[i], Slot(Wrap(old(lastUsed) + i), qsize))
      ensures IdsOf(received) == Used(old(Abs())) && Used(Abs()) == []
      ensures Avail(Abs()) == Avail(old(Abs())) + IdsOf(received)
    {
      hide Wrap, Slot, SizeOk, Placed, Avail, Used, FromUsed;
      ghost var s := Abs();
      UsedCount(s);
      received := [];
      while lastUsed != usedIdx
        invariant Valid() && pc == Idle && usedIdx == old(usedIdx) && inFlight == old(inFlight)
        invariant forall i :: 0 <= i < |received| ==> received[i].id < qsize && received[i].buffer == desc[received[i].id].addr
        invariant Used(s) == IdsOf(received) + Used(Abs()) && Avail(Abs()) == Avail(s) + IdsOf(received)
        invariant qsize > 0 && lastUsed == Wrap(old(lastUsed) + |received|)
        invariant forall i :: 0 <= i < |received| ==> FromUsed(received[i], Slot(Wrap(old(lastUsed) + i), qsize))
        decreases |Used(Abs())|
      {
        ghost var n := |received|;
        var got := PollOne();
        FromSlot(got, Slot(Wrap(old(lastUsed) + n), qsize));
        NextIndex(old(lastUsed) + n);
        IdsOfPush(received, got);
        received := received + [got];
      }
      NothingUsed(Abs());
      Turns(old(lastUsed), |received|);
    }
  }

  lemma UsedCount(s: Rx)
    requires Inv(s) && s.pc == Idle
    ensures |Used(s)| < 0x1_0000 && 0 < s.q && Wrap(s.lastUsed) == s.lastUsed
  {
    WrapIs(s.lastUsed);
    hide Wrap, Slot, Avail, Placed, Hand;
    Sizes(s);
  }

  lemma Turns(a: nat, n: nat)
    requires n < 0x1_0000
    ensures (Wrap(a + n) - a) % 0x1_0000 == n
  {
  }

  ghost function IdsOf(r: seq<Received>): (ids: seq<nat>)
    ensures |ids| == |r| && forall i :: 0 <= i < |r| ==> ids[i] == r[i].id
  {
    seq(|r|, i requires 0 <= i < |r| => r[i].id)
  }

  lemma IdsOfPush(r: seq<Received>, x: Received)
    ensures IdsOf(r + [x]) == IdsOf(r) + [x.id]
  {
  }

  /** A ring of which only the first `n` entries were filled in, each with its own number. */
  ghost function ShortRing(q: nat, n: nat): (r: seq<nat>)
    ensures |r| == q && forall i :: 0 <= i < q ==> r[i] == if i < n then i else 0
  {
    seq(q, i requires 0 <= i < q => if i < n then i else 0)
  }

  /** How often a short ring publishes each descriptor: 0 once more for every missing one, and those not at all. */
  lemma {:induction false} ShortRingCounts(q: nat, n: nat, id: nat)
    requires n <= q
    ensures multiset(ShortRing(q, n))[id] ==
              if id == 0 then q - n + (if n > 0 then 1 else 0) else if id < n then 1 else 0
  {
    hide ShortRing;
    if q == 0 {
      assert ShortRing(q, n) == [];
    } else {
      var m, x := if n == q then n - 1 else n, if n == q then q - 1 else 0;
      ShortRingCounts(q - 1, m, id);
      CountLast(ShortRing(q - 1, m), x, id);
      RingGrows(q, n, m, x);
    }
  }

  lemma RingGrows(q: nat, n: nat, m: nat, x: nat)
    requires n <= q && q > 0 && (if n == q then m == n - 1 && x == q - 1 else m == n && x == 0)
    ensures ShortRing(q, n) == ShortRing(q - 1, m) + [x]
  {
  }

  lemma CountLast(s: seq<nat>, x: nat, id: nat)
    ensures multiset(s + [x])[id] == multiset(s)[id] + if x == id then 1 else 0
  {
  }

  /** Two frames for a queue of four: descriptor 0 is published three times, 2 and 3 never. */
  lemma ShortFill()
    ensures multiset(ShortRing(4, 2)) == multiset{0, 0, 0, 1}
  {
    assert ShortRing(4, 2) == [0, 1, 0, 0];
  }

  /** After `n` of `q` buffers the ring is right exactly if none was missing, or if there is one entry only. */
  lemma FillEnds(s: Rx, n: nat)
    requires SizeOk(s.q) && n <= s.q && |s.usedRing| == s.q
    requires s == Filled(s.q, s.usedRing).(availRing := ShortRing(s.q, n))
    ensures Inv(s) <==> n == s.q || s.q == 1
    ensures n == s.q ==> s == Filled(s.q, s.usedRing)
  {
    if n == s.q || s.q == 1 {
      assert ShortRing(s.q, n) == Ids(s.q);
      FilledInv(s.q, s.usedRing);
    } else {
      NotFilled(s, n);
    }
  }

  lemma NotFilled(s: Rx, n: nat)
    requires SizeOk(s.q) && n < s.q && s.q > 1 && |s.usedRing| == s.q
    requires s == Filled(s.q, s.usedRing).(availRing := ShortRing(s.q, n))
    ensures !Inv(s)
  {
    assert Avail(s) == s.availRing by {
      forall i: nat | i < s.q
        ensures Avail(s)[i] == s.availRing[i]
      {
        SlotBelow(i, s.q);
      }
    }
    ShortRingCounts(s.q, n, s.q - 1);
    if Inv(s) { InOnePlace(s, s.q - 1); }
  }

  /** One turn of the loop: fetch, recycle, publish, advance. */
  ghost function Turned(s: Rx): Rx
    requires Shaped(s)
  {
    s.(availRing := s.availRing[Slot(s.availIdx, s.q) := s.usedRing[Slot(s.lastUsed, s.q)]], availIdx := Wrap(s.availIdx + 1),
       lastUsed := Wrap(s.lastUsed + 1), made := s.made + 1, seen := s.seen + 1)
  }

  lemma FourSteps(s: Rx)
    requires Inv(s) && s.pc == Idle && s.lastUsed != s.usedIdx
    ensures Shaped(s) && First(s) <= s.done && s.taken <= s.made && Inv(Turned(s))
    ensures Used(s) == [s.usedRing[Slot(s.lastUsed, s.q)]] + Used(Turned(s))
    ensures Avail(Turned(s)) == Avail(s) + [s.usedRing[Slot(s.lastUsed, s.q)]]
    ensures |s.availRing| == |s.usedRing| == s.q > 0
  {
    hide Wrap, Slot, SizeOk, Avail, Used, Placed;
    var t := Step(s, Fetch);
    FetchInv(s);
    var u := Step(t, Recycle);
    RecycleInv(t);
    var v := Step(u, Publish);
    PublishInv(u);
    AdvanceInv(v);
    assert Turned(s) == Step(v, Advance);
  }

  lemma UsedInRange(s: Rx)
    requires Inv(s) && s.pc == Idle && s.lastUsed != s.usedIdx
    ensures s.q == |s.usedRing| > 0 && s.usedRing[Slot(s.lastUsed, s.q)] < s.q
  {
    hide Wrap, Slot, SizeOk, Placed, Ids;
    IndicesExact(s);
    var id := s.usedRing[Slot(s.lastUsed, s.q)];
    assert Used(s)[0] == s.usedRing[Slot(s.seen + 0, s.q)] == id;
    assert id in multiset(Used(s));
    InOnePlace(s, id);
  }

  lemma NothingUsed(s: Rx)
    requires Inv(s) && s.pc == Idle && s.lastUsed == s.usedIdx
    ensures Used(s) == []
  {
    IndicesExact(s);
  }

  lemma SlotBelow(i: nat, q: nat)
    requires i < q
    ensures Slot(i, q) == i
  {
    DivUnique(i, q, 0, i);
  }

  lemma AllocNone(s: P.Frames)
    requires P.Inv(s)
    ensures P.AllocMany(s, 0) == (s, [])
  {
  }

  /** One more allocation at the end. */
  lemma {:induction false} AllocNext(s: P.Frames, k: nat)
    requires P.Inv(s) && k <= |s.stack|
    ensures var (u, a) := P.AllocMany(s, k);
            && P.Inv(u) && |a| == k && |u.stack| == |s.stack| - k
            && (P.Alloc(u).1 == 0 <==> |s.stack| == k) && P.Inv(P.Alloc(u).0)
            && (k < |s.stack| ==> P.AllocMany(s, k + 1) == (P.Alloc(u).0, a + [P.Alloc(u).1]))
            && (k < |s.stack| ==> |P.Alloc(u).0.stack| == |s.stack| - k - 1)
            && (k == |s.stack| ==> P.Alloc(u).0 == u)
    decreases k
  {
    hide P.Inv, P.Alloc;
    AllocOne(s);
    if k > 0 {
      var (t, x) := P.Alloc(s);
      AllocNext(t, k - 1);
      var (u, rest) := P.AllocMany(t, k - 1);
      AllocOne(u);
      assert [x] + rest + [P.Alloc(u).1] == [x] + (rest + [P.Alloc(u).1]);
    } else if s.stack != [] {
      AllocOne(P.Alloc(s).0);
      assert P.AllocMany(P.Alloc(s).0, k) == (P.Alloc(s).0, []);
      assert [P.Alloc(s).1] + [] == [] + [P.Alloc(s).1];
    }
  }

  lemma AllocOne(s: P.Frames)
    requires P.Inv(s)
    ensures var (u, a) := P.Alloc(s);
            P.Inv(u) && (a == 0 <==> s.stack == []) && (if s.stack == [] then u == s else |u.stack| == |s.stack| - 1)
    ensures forall x :: x in s.stack ==> x < |s.counts|
  {
    P.AllocCorrect(s);
  }
}
