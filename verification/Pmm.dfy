/** The frame allocator of src/pmm.c on its two arrays, proved to do what PmmSpec says. */
module PmmClass {
  import opened Sequences
  import opened PmmSpec

  class Pmm {
    const ram: nat
    const frameStack: array<nat>
    const refCounts: array<nat>
    var stackTop: nat
    var usedFrames: nat

    ghost predicate Ready()
      reads this, frameStack, refCounts
    {
      && frameStack != refCounts && frameStack.Length == refCounts.Length
      && stackTop <= frameStack.Length && Sized(Abs())
    }

    ghost function Abs(): Frames
      requires stackTop <= frameStack.Length
      reads this, frameStack, refCounts
    {
      Frames(ram, frameStack[..stackTop], refCounts[..], usedFrames)
    }

    ghost predicate Valid()
      reads this, frameStack, refCounts
    {
      Ready() && Inv(Abs())
    }

    constructor PmmInit(kernelEnd: nat, ramSize: nat)
      requires ramSize / 4096 < NO_FRAME
      ensures Valid() && Complete(Abs()) && fresh(frameStack) && fresh(refCounts)
      ensures Abs() == Init(kernelEnd, ramSize)
      ensures refCounts.Length == ramSize / 4096
      ensures forall i :: 0 <= i < refCounts.Length ==> refCounts[i] == if i in Abs().stack then 0 else 1
      ensures forall stackAt: nat, i: nat :: StackBegins(kernelEnd, stackAt) ==>
                (i in Abs().stack <==> i < ramSize / 4096 && stackAt + 5 * (ramSize / 4096) <= 0x4000_0000 + i * 4096)
    {
      var total := ramSize / 4096;
      ram := ramSize;
      frameStack := new nat[total];
      refCounts := new nat[total];
      stackTop := 0;
      usedFrames := 0;
      new;
      var reservedEnd := ReservedEnd(kernelEnd, total);
      ghost var r := FramesBelow(reservedEnd, total);
      var i := 0;
      while i < total
        modifies this`stackTop, this`usedFrames, frameStack, refCounts
        invariant 0 <= i <= total && stackTop <= total
        invariant usedFrames == (if i < r then i else r) && stackTop == i - usedFrames
        invariant forall j :: 0 <= j < stackTop ==> frameStack[j] == r + j
        invariant forall j :: 0 <= j < i ==> refCounts[j] == if j < r then 1 else 0
      {
        var addr := IndexToPhys(i);
        refCounts[i] := 0;
        if addr >= RAM_BASE && addr < reservedEnd {
          usedFrames := usedFrames + 1;
          refCounts[i] := 1;
        } else {
          if stackTop < total {
            frameStack[stackTop] := i;
            stackTop := stackTop + 1;
          }
        }
        i := i + 1;
      }
      InitInv(kernelEnd, ramSize);
      FreeFromThere(kernelEnd, ramSize);
      assert frameStack[..stackTop] == Upfrom(r, total);
      assert refCounts[..] == Init(kernelEnd, ramSize).counts;
    }

    /** `pmm_alloc_frame` */
    method AllocFrame() returns (addr: nat)
      requires Valid()
      modifies this, frameStack, refCounts
      ensures Valid() && (Abs(), addr) == Alloc(old(Abs()))
    {
      AllocCorrect(Abs());
      if stackTop == 0 {
        return 0;
      }
      ghost var s := Abs();
      stackTop := stackTop - 1;
      var idx := frameStack[stackTop];
      assert idx in s.stack;
      usedFrames := usedFrames + 1;
      refCounts[idx] := 1;
      addr := IndexToPhys(idx);
      assert Abs() == Alloc(s).0;
    }

    /** `pmm_free_frame` */
    method FreeFrame(addr: nat)
      requires Valid()
      modifies this, frameStack, refCounts
      ensures Ready() && Abs() == Free(old(Abs()), addr)
    {
      ghost var s := Abs();
      var idx := PhysToIndex(ram, addr);
      if idx == NO_FRAME || idx >= refCounts.Length { return; }
      if refCounts[idx] > 0 {
        RoomFor(s, idx);
        refCounts[idx] := refCounts[idx] - 1;
        if refCounts[idx] == 0 {
          frameStack[stackTop] := idx;
          stackTop := stackTop + 1;
          usedFrames := usedFrames - 1;
        }
        return;
      }
      if stackTop >= frameStack.Length { return; }
      frameStack[stackTop] := idx;
      stackTop := stackTop + 1;
      usedFrames := usedFrames - 1;
    }

    /** `pmm_inc_ref` */
    method IncRef(addr: nat)
      requires Valid() && Counted(Abs(), addr)
      modifies refCounts
      ensures Ready() && Abs() == PmmSpec.IncRef(old(Abs()), addr)
    {
      var idx := PhysToIndex(ram, addr);
      if idx != NO_FRAME {
        if refCounts[idx] < 255 {
          refCounts[idx] := refCounts[idx] + 1;
        }
      }
    }

    /** `pmm_mark_used_region` */
    method MarkUsedRegion(base: nat, size: nat)
      requires Valid() && base + size + 4095 < 0x1_0000_0000_0000_0000
      modifies this, frameStack
      ensures Valid() && Marked(old(Abs()), Abs(), base, size)
    {
      var startIdx := PhysToIndex(ram, base);
      var endIdx := PhysToIndex(ram, base + size + 4095);
      if startIdx == NO_FRAME { return; }
      ghost var s := Abs();
      var target := startIdx;
      while target < endIdx
        modifies this, frameStack
        invariant startIdx <= target && (target <= endIdx || target == startIdx)
        invariant Ready() && Distinct(Abs().stack) && Abs().counts == s.counts && |Abs().stack| + usedFrames == |s.stack| + s.used
        invariant forall x :: x in Abs().stack <==> x in s.stack && !(startIdx <= x < target)
      {
        TakeOff(target);
        target := target + 1;
      }
    }

    /** The inner loop: the entry for frame `target`, if there is one, gives its place to the last one. */
    method TakeOff(target: nat)
      requires Ready() && Distinct(Abs().stack)
      modifies this, frameStack
      ensures Ready() && Distinct(Abs().stack) && Abs().counts == old(Abs()).counts
      ensures |Abs().stack| + usedFrames == |old(Abs()).stack| + old(usedFrames)
      ensures forall x :: x in Abs().stack <==> x in old(Abs()).stack && x != target
    {
      ghost var q := frameStack[..stackTop];
      var i := 0;
      while i < stackTop
        invariant 0 <= i <= stackTop && forall j :: 0 <= j < i ==> frameStack[j] != target
      {
        if frameStack[i] == target {
          stackTop := stackTop - 1;
          frameStack[i] := frameStack[stackTop];
          usedFrames := usedFrames + 1;
          SwapRemove(q, i, frameStack[..stackTop]);
          break;
        }
        i := i + 1;
      }
    }
  }

  /** Which frames are free after `pmm_init`. */
  lemma FreeFromThere(kernelEnd: nat, ram: nat)
    requires ram / 4096 < NO_FRAME
    ensures forall stackAt: nat, i: nat :: StackBegins(kernelEnd, stackAt) ==>
              (i in Init(kernelEnd, ram).stack <==> i < ram / 4096 && stackAt + 5 * (ram / 4096) <= 0x4000_0000 + i * 4096)
  {
    hide Init;
    forall stackAt: nat, i: nat | StackBegins(kernelEnd, stackAt)
      ensures i in Init(kernelEnd, ram).stack <==> i < ram / 4096 && stackAt + 5 * (ram / 4096) <= 0x4000_0000 + i * 4096
    {
      InitFree(kernelEnd, ram, stackAt, i);
    }
  }

  lemma SwapRemove(q: seq<nat>, i: nat, r: seq<nat>)
    requires Distinct(q) && i < |q| && |r| == |q| - 1
    requires forall j :: 0 <= j < |r| ==> r[j] == if j == i then q[|r|] else q[j]
    ensures Distinct(r) && forall x :: x in r <==> x in q && x != q[i]
  {
    forall x | x in q && x != q[i]
      ensures x in r
    {
      var j :| 0 <= j < |q| && q[j] == x;
      assert r[if j == |r| then i else j] == x;
    }
  }
}
