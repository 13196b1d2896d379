/** `net_send` and `net_cleanup_tx` of src/net.c on the transmit queue, proved to take the steps of TxRing. */
module TxQueueClass {
  import opened Memory
  import opened RingIndex
  import opened TxRing
  import P = PmmSpec
  import opened PmmClass

  /** Bytes of `virtio_net_hdr`. */
  const HDR: nat := 10

  class TxQueue {
    const qsize: nat
    const pmm: Pmm
    /** The fields `addr` and `len` of the descriptors. */
    const addrs: array<nat>
    const lens: array<nat>
    const availRing: array<nat>
    const usedRing: array<nat>
    var availIdx: nat
    var usedIdx: nat
    var lastUsed: nat
    var txDescIdx: nat
    /** What is stored in frames handed to the device. */
    var packets: map<nat, seq<byte>>
    ghost var sent: nat
    ghost var done: nat
    ghost var cleaned: nat
    ghost var taken: seq<nat>
    ghost var freed: seq<nat>

    ghost function Abs(): Tx
      requires pmm.stackTop <= pmm.frameStack.Length
      reads this, addrs, availRing, usedRing, pmm, pmm.frameStack, pmm.refCounts
    {
      Tx(qsize, txDescIdx, availIdx, availRing[..], addrs[..], usedIdx, usedRing[..], lastUsed, pmm.Abs(), sent, done, cleaned, taken, freed)
    }

    /** The arrays of the queue and of the allocator are all different. */
    ghost predicate Separate()
      reads this
    {
      && addrs.Length == lens.Length == availRing.Length == usedRing.Length == qsize
      && addrs != lens && addrs != availRing && addrs != usedRing && lens != availRing && lens != usedRing && availRing != usedRing
      && pmm.frameStack !in {addrs, lens, availRing, usedRing} && pmm.refCounts !in {addrs, lens, availRing, usedRing}
    }

    ghost predicate Valid()
      reads this, addrs, availRing, usedRing, pmm, pmm.frameStack, pmm.refCounts
    {
      Separate() && pmm.Valid() && Inv(Abs())
    }

    constructor (pmm: Pmm, qsize: nat)
      requires pmm.Valid() && SizeOk(qsize)
      ensures Valid() && this.pmm == pmm && Abs() == New(qsize, pmm.Abs()) && Pending(Abs()) == []
      ensures fresh(addrs) && fresh(lens) && fresh(availRing) && fresh(usedRing)
    {
      this.pmm := pmm;
      this.qsize := qsize;
      addrs := new nat[qsize](i => 0);
      lens := new nat[qsize](i => 0);
      availRing := new nat[qsize](i => 0);
      usedRing := new nat[qsize](i => 0);
      availIdx, usedIdx, lastUsed, txDescIdx := 0, 0, 0, 0;
      packets := map[];
      sent, done, cleaned, taken, freed := 0, 0, 0, [], [];
    }

    /** `net_send`: the frame goes out behind a zeroed header, if there is memory; a full queue is not noticed. */
    method NetSend(macFrame: seq<byte>)
      requires Valid() && HDR + |macFrame| <= 4096
      modifies this, addrs, lens, availRing, pmm, pmm.frameStack, pmm.refCounts
      ensures Separate() && pmm.Valid() && Abs() == Send(old(Abs()))
      ensures Valid() <==> old(Room(Abs())) || P.Alloc(old(pmm.Abs())).1 == 0
      ensures var phys := P.Alloc(old(pmm.Abs())).1;
              if phys == 0 then packets == old(packets) && lens[..] == old(lens[..])
              else
                && packets == old(packets)[phys := [0, 0, 0, 0, 0, 0, 0, 0, 0, 0] + macFrame]
                && lens[..] == old(lens[..])[Slot(old(txDescIdx), qsize) := 10 + |macFrame|]
                && addrs[..] == old(addrs[..])[Slot(old(txDescIdx), qsize) := phys]
                && availRing[..] == old(availRing[..])[Slot(old(availIdx), qsize) := Slot(old(txDescIdx), qsize)]
                && availIdx == Wrap(old(availIdx) + 1) && txDescIdx == Wrap(old(txDescIdx) + 1)
    {
      hide Slot, Wrap, SizeOk, Inv, P.Inv, P.Alloc, Pending, Room, Total, Posted;
      ghost var s := Abs();
      SendNeeds(s);
      SendKeepsIff(s);
      SendIs(s);
      var phys := pmm.AllocFrame();
      if phys == 0 { return; }
      assert seq(HDR, i => 0) == [0, 0, 0, 0, 0, 0, 0, 0, 0, 0];
      packets := packets[phys := seq(HDR, i => 0) + macFrame];
      Post(phys, HDR + |macFrame|);
    }

    /** The last part of `net_send`: descriptor, ring entry, index. */
    method Post(phys: nat, len: nat)
      requires Separate() && qsize > 0 && pmm.stackTop <= pmm.frameStack.Length
      modifies `sent, `taken, `availIdx, `txDescIdx, addrs, lens, availRing
      ensures Abs() == Posted(old(Abs()), phys) && lens[..] == old(lens[..])[Slot(old(txDescIdx), qsize) := len]
    {
      hide Slot, Wrap, P.Inv;
      var head := Slot(txDescIdx, qsize);
      addrs[head] := phys;
      lens[head] := len;
      var avail := availIdx;
      availRing[Slot(avail, qsize)] := head;
      availIdx := Wrap(avail + 1);
      txDescIdx := Wrap(txDescIdx + 1);
      sent, taken := sent + 1, taken + [phys];
    }

    /** The device, at its own 16-bit index, completes the oldest send. */
    method DeviceCompletes(devIdx: nat)
      requires Valid() && done < sent && devIdx == Wrap(done)
      modifies this, usedRing
      ensures Valid() && Abs() == Complete(old(Abs()))
    {
      hide Slot, Wrap, SizeOk, Inv, P.Inv;
      CompleteCorrect(Abs());
      SendNeeds(Abs());
      IndicesExact(Abs());
      usedRing[Slot(usedIdx, qsize)] := availRing[Slot(devIdx, qsize)];
      usedIdx := Wrap(usedIdx + 1);
      done := done + 1;
    }

    /** One turn of the loop of `net_cleanup_tx`. */
    method CleanOne()
      requires Valid() && lastUsed != usedIdx
      modifies this, pmm, pmm.frameStack, pmm.refCounts
      ensures Valid() && done == old(done) && sent == old(sent) && usedIdx == old(usedIdx) && taken == old(taken)
      ensures qsize > 0 && old(cleaned) < cleaned <= done && Total(Abs()) == Total(old(Abs()))
      ensures usedRing[Slot(old(lastUsed), qsize)] < qsize
      ensures pmm.Abs() == P.Free(old(pmm.Abs()), addrs[usedRing[Slot(old(lastUsed), qsize)]])
      ensures lastUsed == Wrap(old(lastUsed) + 1)
      ensures Pending(old(Abs())) == [freed[|freed| - 1]] + Pending(Abs()) && freed == old(freed) + [freed[|freed| - 1]]
    {
      hide Slot, Wrap, SizeOk, Inv, P.Inv, Pending, P.Free;
      ghost var s := Abs();
      CleanCorrect(s);
      SendNeeds(s);
      CleanNeeds(s);
      var descId := usedRing[Slot(lastUsed, qsize)];
      var phys := addrs[descId];
      pmm.FreeFrame(phys);
      lastUsed := Wrap(lastUsed + 1);
      cleaned, freed := cleaned + 1, freed + [phys];
      assert Abs() == Clean(s);
      SendNeeds(Abs());
    }

    /** `net_cleanup_tx`: every completed send is freed, in order; those not completed stay. */
    method NetCleanupTx()
      requires Valid()
      modifies this, pmm, pmm.frameStack, pmm.refCounts
      ensures Valid() && lastUsed == usedIdx == old(usedIdx) && cleaned == done == old(done) && sent == old(sent)
      ensures freed + Pending(Abs()) == old(freed) + Pending(old(Abs()))
      ensures |Pending(Abs())| == sent - done && Total(Abs()) == Total(old(Abs()))
    {
      hide Slot, Wrap, SizeOk, Inv, P.Inv, Pending;
      SendNeeds(Abs());
      while lastUsed != usedIdx
        invariant Valid() && done == old(done) && sent == old(sent) && usedIdx == old(usedIdx)
        invariant cleaned <= done <= sent && |addrs[..]| > 0
        invariant freed + Pending(Abs()) == old(freed) + Pending(old(Abs())) && Total(Abs()) == Total(old(Abs()))
        decreases done - cleaned
      {
        ghost var f, p := freed, Pending(Abs());
        CleanOne();
        assert f + ([freed[|freed| - 1]] + Pending(Abs())) == freed + Pending(Abs());
      }
      Drained(Abs());
    }
  }

  ghost function Posted(s: Tx, a: nat): Tx
    requires |s.addrs| == |s.availRing| == s.q > 0
  {
    var head := Slot(s.descIdx, s.q);
    s.(addrs := s.addrs[head := a], availRing := s.availRing[Slot(s.availIdx, s.q) := head],
       availIdx := Wrap(s.availIdx + 1), descIdx := Wrap(s.descIdx + 1), sent := s.sent + 1, taken := s.taken + [a])
  }

  /** A send is an allocation and, if that gave a frame, a posting. */
  lemma SendIs(s: Tx)
    requires Shaped(s) && forall x :: x in s.frames.stack ==> x < |s.frames.counts|
    ensures var (fr, a) := P.Alloc(s.frames);
            && (a == 0 ==> fr == s.frames)
            && Send(s) == if a == 0 then s else Posted(s.(frames := fr), a)
  {
    P.AllocCorrect(s.frames);
  }

  lemma SendNeeds(s: Tx)
    requires Inv(s)
    ensures Shaped(s) && s.usedIdx == Wrap(s.done) && s.cleaned <= s.done <= s.sent && s.q > 0 && P.Inv(s.frames)
    ensures forall x :: x in s.frames.stack ==> x < |s.frames.counts|
  {
  }

  lemma CleanNeeds(s: Tx)
    requires Inv(s) && s.lastUsed != s.usedIdx
    ensures s.cleaned < s.done
  {
    IndicesExact(s);
  }

  lemma Drained(s: Tx)
    requires Inv(s) && s.lastUsed == s.usedIdx
    ensures s.cleaned == s.done && |Pending(s)| == s.sent - s.done
  {
    IndicesExact(s);
  }
}
