/** The frame allocator of src/pmm.c as values: a LIFO stack of free frame numbers and a count per frame. */
module PmmSpec {
  import opened Sequences

  const RAM_BASE: nat := 0x4000_0000
  const NO_FRAME: nat := 0xFFFF_FFFF

  /** `ram` bytes of RAM hold `|counts|` whole frames; `used` is `used_frames`. */
  datatype Frames = Frames(ram: nat, stack: seq<nat>, counts: seq<nat>, used: nat)

  function PhysToIndex(ram: nat, addr: nat): (i: nat)
    ensures i != NO_FRAME ==> IndexToPhys(i) <= addr < IndexToPhys(i + 1) && addr < RAM_BASE + ram
  {
    if addr < RAM_BASE || addr >= RAM_BASE + ram then NO_FRAME else (addr - RAM_BASE) / 4096
  }

  function IndexToPhys(i: nat): nat {
    RAM_BASE + i * 4096
  }

  /** Bytes behind the last whole frame belong to none, and frame numbers fit 32 bits. */
  ghost predicate Sized(s: Frames) {
    |s.counts| * 4096 <= s.ram < |s.counts| * 4096 + 4096 && |s.counts| < NO_FRAME
  }

  /** What holds after every operation, correct or not: free and used frames add up. */
  ghost predicate Balanced(s: Frames) {
    |s.stack| + s.used == |s.counts|
  }

  /** Moreover no frame is on the stack twice, and none that is held. */
  ghost predicate Inv(s: Frames) {
    && Sized(s) && Balanced(s) && Distinct(s.stack)
    && (forall i :: 0 <= i < |s.counts| ==> s.counts[i] <= 255)
    && forall x :: x in s.stack ==> x < |s.counts| && s.counts[x] == 0
  }

  /** Every frame that nobody holds is on the stack; so it is until a region is marked as used. */
  ghost predicate Complete(s: Frames) {
    forall i :: 0 <= i < |s.counts| && s.counts[i] == 0 ==> i in s.stack
  }

  // ---------------------------------------------------------------- operations

  /** The first byte behind the kernel, the frame stack (4 bytes a frame) and the counts (1 byte a frame). */
  function ReservedEnd(kernelEnd: nat, total: nat): nat {
    (kernelEnd + 4095) / 4096 * 4096 + total * 4 + total
  }

  /** The number of frames that lie, at least in part, below `end`. */
  function FramesBelow(end: nat, total: nat): (n: nat)
    ensures n <= total && forall i: nat :: i < total ==> (i < n <==> IndexToPhys(i) < end)
  {
    if end <= RAM_BASE then 0
    else if (end - RAM_BASE + 4095) / 4096 > total then total else (end - RAM_BASE + 4095) / 4096
  }

  ghost function Upfrom(lo: nat, hi: nat): (r: seq<nat>)
    requires lo <= hi
    ensures |r| == hi - lo && forall i :: 0 <= i < |r| ==> r[i] == lo + i
  {
    seq(hi - lo, i requires 0 <= i < hi - lo => lo + i)
  }

  ghost function Init(kernelEnd: nat, ram: nat): Frames {
    var total := ram / 4096;
    var r := FramesBelow(ReservedEnd(kernelEnd, total), total);
    Frames(ram, Upfrom(r, total), seq(total, i => if i < r then 1 else 0), r)
  }

  ghost function Alloc(s: Frames): (Frames, nat)
    requires forall x :: x in s.stack ==> x < |s.counts|
  {
    if s.stack == [] then (s, 0)
    else
      var i := s.stack[|s.stack| - 1];
      assert i in s.stack;
      (s.(stack := s.stack[..|s.stack| - 1], counts := s.counts[i := 1], used := s.used + 1), IndexToPhys(i))
  }

  ghost function Push(s: Frames, i: nat): Frames {
    s.(stack := s.stack + [i], used := if s.used == 0 then NO_FRAME else s.used - 1)
  }

  /** A count above 1 goes down; a last reference, or a frame nobody holds, goes on the stack. */
  ghost function Free(s: Frames, addr: nat): Frames {
    var i := PhysToIndex(s.ram, addr);
    if i >= |s.counts| then s
    else if s.counts[i] > 1 then s.(counts := s.counts[i := s.counts[i] - 1])
    else if s.counts[i] == 1 then Push(s.(counts := s.counts[i := 0]), i)
    else if |s.stack| >= |s.counts| then s
    else Push(s, i)
  }

  /** The address is outside RAM or in a whole frame; `pmm_inc_ref` does not test for the bytes behind the last one. */
  ghost predicate Counted(s: Frames, addr: nat) {
    var i := PhysToIndex(s.ram, addr);
    i == NO_FRAME || i < |s.counts|
  }

  ghost function IncRef(s: Frames, addr: nat): Frames
    requires Sized(s) && Counted(s, addr)
  {
    var i := PhysToIndex(s.ram, addr);
    if i != NO_FRAME && s.counts[i] < 255 then s.(counts := s.counts[i := s.counts[i] + 1]) else s
  }

  // ---------------------------------------------------------------- what each operation keeps

  lemma InitInv(kernelEnd: nat, ram: nat)
    requires ram / 4096 < NO_FRAME
    ensures Inv(Init(kernelEnd, ram)) && Complete(Init(kernelEnd, ram))
    ensures var s := Init(kernelEnd, ram);
            |s.counts| == ram / 4096 && forall i :: 0 <= i < |s.counts| ==> s.counts[i] == if i in s.stack then 0 else 1
  {
    var s := Init(kernelEnd, ram);
    var total := ram / 4096;
    var r := FramesBelow(ReservedEnd(kernelEnd, total), total);
    forall i | 0 <= i < total
      ensures i in s.stack <==> s.counts[i] == 0
    {
      if i >= r { assert s.stack[i - r] == i; }
    }
  }

  /** An address in RAM has the number of its page, any other address none. */
  lemma IndexOfAddress(ram: nat, addr: nat)
    requires ram / 4096 < NO_FRAME
    ensures PhysToIndex(ram, addr) == if 0x4000_0000 <= addr < 0x4000_0000 + ram then (addr - 0x4000_0000) / 4096 else 0xFFFF_FFFF
    ensures PhysToIndex(ram, addr) == NO_FRAME <==> !(0x4000_0000 <= addr < 0x4000_0000 + ram)
  {
  }

  /** The frame stack begins at `stackAt`, the first page boundary not below the kernel's end. */
  ghost predicate StackBegins(kernelEnd: nat, stackAt: nat) {
    stackAt % 4096 == 0 && kernelEnd <= stackAt < kernelEnd + 4096
  }

  /**
   The frame stack has four bytes a frame, and the counts behind it one byte a frame. The frames
   that begin behind the counts are free after `pmm_init`, and no others.
   */
  lemma InitFree(kernelEnd: nat, ram: nat, stackAt: nat, i: nat)
    requires ram / 4096 < NO_FRAME && StackBegins(kernelEnd, stackAt)
    ensures i in Init(kernelEnd, ram).stack <==> i < ram / 4096 && stackAt + 5 * (ram / 4096) <= 0x4000_0000 + i * 4096
  {
    var total := ram / 4096;
    RoundedUp(kernelEnd, stackAt);
    var s, r := Init(kernelEnd, ram), FramesBelow(ReservedEnd(kernelEnd, total), total);
    if r <= i < total { assert s.stack[i - r] == i; }
  }

  lemma RoundedUp(a: nat, up: nat)
    requires up % 4096 == 0 && a <= up < a + 4096
    ensures (a + 4095) / 4096 * 4096 == up
  {
  }

  /** So no free frame holds a byte of the kernel, of the frame stack or of the counts. */
  lemma InitReserves(kernelEnd: nat, ram: nat, stackAt: nat, x: nat)
    requires ram / 4096 < NO_FRAME && StackBegins(kernelEnd, stackAt)
    requires 0x4000_0000 <= x < 0x4000_0000 + ram
    requires var total := ram / 4096;
             || x < kernelEnd
             || stackAt <= x < stackAt + 4 * total
             || stackAt + 4 * total <= x < stackAt + 5 * total
    ensures (x - 0x4000_0000) / 4096 !in Init(kernelEnd, ram).stack
  {
    InitFree(kernelEnd, ram, stackAt, (x - 0x4000_0000) / 4096);
  }

  /** A frame that is not on the stack leaves room for one more. */
  lemma RoomFor(s: Frames, i: nat)
    requires Inv(s) && i < |s.counts| && i !in s.stack
    ensures |s.stack| < |s.counts| && s.used > 0
  {
    Pigeonhole(s.stack + [i], |s.counts|);
  }

  /**
   An allocation hands out a frame nobody held, at a page-aligned address in RAM, or fails when the
   stack is empty, which means, while the stack is complete, when every frame is held.
   */
  lemma AllocCorrect(s: Frames)
    requires Inv(s)
    ensures var (u, a) := Alloc(s);
            && Inv(u) && (Complete(s) ==> Complete(u))
            && (a == 0 <==> s.stack == [])
            && (Complete(s) ==> (a == 0 <==> forall i :: 0 <= i < |s.counts| ==> s.counts[i] > 0))
            && (a == 0 ==> u == s)
            && (a != 0 ==>
                  var i := PhysToIndex(s.ram, a);
                  && i < |s.counts| && a == IndexToPhys(i) && s.counts[i] == 0 && i !in u.stack
                  && u.counts == s.counts[i := 1] && u.used == s.used + 1
                  && forall x :: x in u.stack <==> x in s.stack && x != i)
  {
    var (u, a) := Alloc(s);
    if s.stack != [] {
      var i := s.stack[|s.stack| - 1];
      assert i in s.stack && PhysToIndex(s.ram, a) == i;
      PopMembers(s.stack);
      assert u.counts == s.counts[i := 1] && forall x :: x in u.stack ==> x in s.stack;
    }
  }

  lemma PopMembers(q: seq<nat>)
    requires Distinct(q) && q != []
    ensures Distinct(q[..|q| - 1]) && forall x :: x in q[..|q| - 1] <==> x in q && x != q[|q| - 1]
  {
  }

  /** A freed frame is the next one handed out, and everything is as before. */
  lemma FreeAlloc(s: Frames, addr: nat)
    requires Inv(s) && PhysToIndex(s.ram, addr) < |s.counts| && s.counts[PhysToIndex(s.ram, addr)] == 1
    ensures Inv(Free(s, addr)) && Alloc(Free(s, addr)) == (s, addr - addr % 4096)
  {
    var i := PhysToIndex(s.ram, addr);
    FreeInvIff(s, addr);
    RoomFor(s, i);
    assert s.counts[i := 0][i := 1] == s.counts;
    assert (s.stack + [i])[..|s.stack|] == s.stack;
    PageStart(addr, i);
  }

  lemma PageStart(addr: nat, i: nat)
    requires IndexToPhys(i) <= addr < IndexToPhys(i + 1)
    ensures IndexToPhys(i) == addr - addr % 4096
  {
  }

  /** A frame freed at once after its allocation leaves everything as it was. */
  lemma AllocFree(s: Frames)
    requires Inv(s) && s.stack != []
    ensures Inv(Alloc(s).0) && Free(Alloc(s).0, Alloc(s).1) == s
  {
    var i := s.stack[|s.stack| - 1];
    assert i in s.stack;
    AllocCorrect(s);
    assert s.counts[i := 1][i := 0] == s.counts;
    assert s.stack[..|s.stack| - 1] + [i] == s.stack;
  }

  /** A free takes back one reference; only from the 256th on references are lost. */
  lemma IncFree(s: Frames, addr: nat)
    requires Inv(s) && PhysToIndex(s.ram, addr) < |s.counts| && s.counts[PhysToIndex(s.ram, addr)] > 0
    ensures Free(IncRef(s, addr), addr) == s <==> s.counts[PhysToIndex(s.ram, addr)] < 255
    ensures s.counts[PhysToIndex(s.ram, addr)] == 255 ==> IncRef(s, addr) == s
  {
    var i := PhysToIndex(s.ram, addr);
    assert s.counts[i := s.counts[i] + 1][i := s.counts[i]] == s.counts;
  }

  /**
   Freeing keeps the invariant exactly if the address is outside RAM, the frame is not on the stack,
   or every frame is free already: a frame freed while it is free goes on the stack twice.
   */
  lemma FreeInvIff(s: Frames, addr: nat)
    requires Inv(s)
    ensures var i := PhysToIndex(s.ram, addr);
            Inv(Free(s, addr)) <==> i >= |s.counts| || i !in s.stack || |s.stack| == |s.counts|
    ensures Balanced(Free(s, addr)) && (Complete(s) ==> Complete(Free(s, addr)))
  {
    var i := PhysToIndex(s.ram, addr);
    var u := Free(s, addr);
    if i < |s.counts| && i !in s.stack {
      RoomFor(s, i);
      assert s.counts[i] <= 1 ==> forall x :: x in u.stack <==> x in s.stack || x == i;
    } else if i < |s.counts| && |s.stack| < |s.counts| {
      var j :| 0 <= j < |s.stack| && s.stack[j] == i;
      assert u.stack[j] == u.stack[|s.stack|] == i;
      assert forall x :: x in s.stack ==> x in u.stack;
    } else {
      Pigeonhole(s.stack, |s.counts|);
    }
  }

  /** Taking a reference keeps the invariant exactly if the frame is not free (or the address is outside RAM). */
  lemma IncRefInvIff(s: Frames, addr: nat)
    requires Inv(s) && Counted(s, addr)
    ensures var i := PhysToIndex(s.ram, addr);
            Inv(IncRef(s, addr)) <==> i == NO_FRAME || i !in s.stack
    ensures Complete(s) ==> Complete(IncRef(s, addr))
  {
    var i := PhysToIndex(s.ram, addr);
    var u := IncRef(s, addr);
    if i != NO_FRAME && i in s.stack {
      assert u.counts[i] == 1 && i in u.stack;
    }
  }

  /** A double free: two frames, the first one held and freed twice, ends up on the stack twice. */
  lemma DoubleFree()
    ensures var s := Frames(8192, [], [1, 1], 2);
            Inv(s) && Free(Free(s, RAM_BASE), RAM_BASE).stack == [0, 0]
  {
  }

  // ---------------------------------------------------------------- runs

  datatype Op = AllocOp | FreeOp(addr: nat) | IncOp(addr: nat)

  /** Only held frames are freed or shared, and counts stay below 255. */
  ghost predicate Legal(s: Frames, op: Op)
    requires Sized(s)
  {
    match op
    case AllocOp => true
    case FreeOp(a) => PhysToIndex(s.ram, a) >= |s.counts| || s.counts[PhysToIndex(s.ram, a)] > 0
    case IncOp(a) => PhysToIndex(s.ram, a) == NO_FRAME || (Counted(s, a) && 0 < s.counts[PhysToIndex(s.ram, a)] < 255)
  }

  ghost function Apply(s: Frames, op: Op): (u: Frames)
    requires Inv(s) && Legal(s, op)
    ensures Inv(u) && (Complete(s) ==> Complete(u)) && u.ram == s.ram && |u.counts| == |s.counts|
  {
    match op
    case AllocOp => AllocCorrect(s); Alloc(s).0
    case FreeOp(a) => FreeInvIff(s, a); Free(s, a)
    case IncOp(a) => IncRefInvIff(s, a); IncRef(s, a)
  }

  ghost predicate Runs(s: Frames, ops: seq<Op>, u: Frames)
    requires Inv(s)
    decreases |ops|
  {
    if ops == [] then u == s else Legal(s, ops[0]) && Runs(Apply(s, ops[0]), ops[1..], u)
  }

  /** References to frame `f` that `ops` take, less those they give back. */
  ghost function Net(ram: nat, ops: seq<Op>, f: nat): int {
    if ops == [] then 0
    else
      (match ops[0]
       case AllocOp => 0
       case FreeOp(a) => if PhysToIndex(ram, a) == f then -1 else 0
       case IncOp(a) => if PhysToIndex(ram, a) == f then 1 else 0) + Net(ram, ops[1..], f)
  }

  /**
   Over every legal run the invariant holds, so free and used frames add up and no frame is free
   twice; and from a complete stack a frame is free exactly if its count is 0.
   */
  lemma {:induction false} RunsInv(s: Frames, ops: seq<Op>, u: Frames)
    requires Inv(s) && Runs(s, ops, u)
    ensures Complete(s) ==> forall i :: 0 <= i < |u.counts| ==> (i in u.stack <==> u.counts[i] == 0)
    ensures Inv(u) && u.ram == s.ram && |u.counts| == |s.counts|
    decreases |ops|
  {
    hide Apply, Legal;
    if ops != [] { RunsInv(Apply(s, ops[0]), ops[1..], u); }
  }

  /**
   A held frame keeps its owner until its references are used up: after a run in which no shorter
   run gave back as many as were taken, its count is what is left, and it is free exactly if
   nothing is left. A frame fresh from `pmm_alloc_frame` has count 1, so it returns exactly when
   frees equal 1 plus increments.
   */
  lemma {:induction false} ReturnsWhenUsedUp(s: Frames, ops: seq<Op>, u: Frames, f: nat)
    requires Inv(s) && Runs(s, ops, u) && f < |s.counts| && (s.counts[f] > 0 || f in s.stack)
    requires forall k :: 0 <= k < |ops| ==> s.counts[f] + Net(s.ram, ops[..k], f) > 0
    requires s.counts[f] + Net(s.ram, ops, f) >= 0
    ensures f < |u.counts| && u.counts[f] == s.counts[f] + Net(s.ram, ops, f)
    ensures f in u.stack <==> s.counts[f] + Net(s.ram, ops, f) == 0
    decreases |ops|
  {
    hide Inv, Runs, Apply, Legal;
    if ops == [] {
      RunsStart(s, u, f);
    } else {
      assert ops[..0] == [] && s.counts[f] + Net(s.ram, ops[..0], f) > 0;
      var v := RunsStep(s, ops, u, f);
      assert ops[..1][1..] == [];
      forall k | 0 <= k < |ops[1..]|
        ensures v.counts[f] + Net(s.ram, ops[1..][..k], f) > 0
      {
        assert ops[..k + 1][0] == ops[0] && ops[..k + 1][1..] == ops[1..][..k];
        assert s.counts[f] + Net(s.ram, ops[..k + 1], f) > 0;
      }
      ReturnsWhenUsedUp(v, ops[1..], u, f);
    }
  }

  lemma RunsStart(s: Frames, u: Frames, f: nat)
    requires Inv(s) && Runs(s, [], u) && f < |s.counts| && (s.counts[f] > 0 || f in s.stack)
    ensures u == s && (f in u.stack <==> s.counts[f] == 0)
  {
  }

  lemma RunsStep(s: Frames, ops: seq<Op>, u: Frames, f: nat) returns (v: Frames)
    requires Inv(s) && ops != [] && Runs(s, ops, u) && f < |s.counts| && s.counts[f] > 0
    ensures Inv(v) && Runs(v, ops[1..], u) && v.ram == s.ram && f < |v.counts| && (v.counts[f] > 0 || f in v.stack)
    ensures v.counts[f] + Net(s.ram, ops[1..], f) == s.counts[f] + Net(s.ram, ops, f)
    ensures forall q: seq<Op> :: q != [] && q[0] == ops[0] ==> v.counts[f] + Net(s.ram, q[1..], f) == s.counts[f] + Net(s.ram, q, f)
  {
    v := Apply(s, ops[0]);
    if ops[0].AllocOp? { AllocCorrect(s); }
  }

  // ---------------------------------------------------------------- allocations in a row

  ghost function AllocMany(s: Frames, k: nat): (Frames, seq<nat>)
    requires Inv(s)
    decreases k
  {
    if k == 0 then (s, [])
    else
      AllocCorrect(s);
      var (u, a) := Alloc(s);
      var (v, rest) := AllocMany(u, k - 1);
      (v, [a] + rest)
  }

  /** Nothing but allocations happened since `pmm_init`: the stack still ascends from `lo` to `hi`. */
  ghost predicate Ascending(s: Frames, lo: nat, hi: nat) {
    lo <= hi && s.stack == Upfrom(lo, hi)
  }

  lemma PopLast(s: Frames, lo: nat, hi: nat)
    requires Inv(s) && Ascending(s, lo, hi) && lo < hi
    ensures Inv(Alloc(s).0) && Ascending(Alloc(s).0, lo, hi - 1) && Alloc(s).1 == IndexToPhys(hi - 1)
  {
    AllocCorrect(s);
  }

  /** From there `k` allocations return `k` adjacent frames in descending order. */
  lemma {:induction false} AllocsDescend(s: Frames, lo: nat, hi: nat, k: nat)
    requires Inv(s) && Ascending(s, lo, hi) && k <= hi - lo
    ensures var (u, a) := AllocMany(s, k);
            && Inv(u) && Ascending(u, lo, hi - k) && |a| == k
            && forall j :: 0 <= j < k ==> a[j] == IndexToPhys(hi - 1 - j)
    decreases k
  {
    hide Alloc, IndexToPhys;
    if k > 0 {
      PopLast(s, lo, hi);
      AllocsDescend(Alloc(s).0, lo, hi - 1, k - 1);
    }
  }

  lemma InitAscends(kernelEnd: nat, ram: nat)
    ensures var total := ram / 4096;
            Ascending(Init(kernelEnd, ram), FramesBelow(ReservedEnd(kernelEnd, total), total), total)
  {
  }

  // ---------------------------------------------------------------- marking a region

  /** Frame `i` lies, at least in part, in the `size` bytes from `base`. */
  ghost predicate InRegion(ram: nat, base: nat, size: nat, i: nat) {
    PhysToIndex(ram, base) != NO_FRAME && PhysToIndex(ram, base) <= i && IndexToPhys(i) < base + size
  }

  /** `u` is `s` with the frames of a region taken off the stack; their counts stay. */
  ghost predicate Marked(s: Frames, u: Frames, base: nat, size: nat) {
    && u.ram == s.ram && u.counts == s.counts && Distinct(u.stack)
    && |u.stack| + u.used == |s.stack| + s.used
    && forall x :: x in u.stack <==> x in s.stack && !InRegion(s.ram, base, size, x)
  }

  /** The region's frames are those that hold a byte of it, if it begins in RAM. */
  lemma InRegionIff(ram: nat, base: nat, size: nat, i: nat)
    requires ram / 4096 < NO_FRAME
    ensures var f := 0x4000_0000 + i * 4096;
            InRegion(ram, base, size, i) <==> 0x4000_0000 <= base < 0x4000_0000 + ram && base < f + 4096 && f < base + size
  {
    IndexOfAddress(ram, base);
  }

  /** Marking keeps the invariant; the stack is complete afterwards exactly if it was and no free frame was in the region. */
  lemma MarkInv(s: Frames, u: Frames, base: nat, size: nat)
    requires Inv(s) && Marked(s, u, base, size)
    ensures Inv(u)
    ensures Complete(u) <==> Complete(s) && forall x :: x in s.stack ==> !InRegion(s.ram, base, size, x)
  {
    if Complete(u) {
      forall i: nat | i < |s.counts| && s.counts[i] == 0
        ensures i in s.stack
      {
        assert i in u.stack;
      }
      forall x | x in s.stack
        ensures !InRegion(s.ram, base, size, x)
      {
        assert u.counts[x] == 0 && x in u.stack;
      }
    }
  }
}
