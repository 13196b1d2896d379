/** Where `virtio_init_queue` (src/net.c) puts the three parts of a queue. */
module QueueLayout {
  import opened Memory
  import opened PmmSpec
  import opened PmmClass

  /** A span of bytes. */
  datatype Span = Span(at: nat, size: nat)

  ghost predicate Apart(a: Span, b: Span) {
    a.at + a.size <= b.at || b.at + b.size <= a.at
  }

  /** `inner` lies in the frames from `lo` up to `hi`. */
  ghost predicate InFrames(inner: Span, lo: nat, hi: nat) {
    IndexToPhys(lo) <= inner.at && inner.at + inner.size <= IndexToPhys(hi)
  }

  /** `virtq`. */
  datatype Queue = Queue(desc: nat, avail: nat, used: nat, qsize: nat, lastUsed: nat)

  /** Sizes of section 2.6 of VirtIO 1.1, without the optional event fields. */
  function DescSpan(q: Queue): Span {
    Span(q.desc, 16 * q.qsize)
  }

  function AvailSpan(q: Queue): Span {
    Span(q.avail, 4 + 2 * q.qsize)
  }

  function UsedSpan(q: Queue): Span {
    Span(q.used, 4 + 8 * q.qsize)
  }

  /**
   The parts hold exactly the entries of the queue: descriptors of 16 bytes from the start, indices of
   two bytes behind the two fields of the available ring, and elements of eight bytes behind those of
   the used ring.
   */
  lemma HoldsEntries(q: Queue, i: nat)
    ensures i < q.qsize <==> Inside(DescSpan(q), q.desc + 16 * i) && Inside(DescSpan(q), q.desc + 16 * i + 15)
    ensures i < q.qsize <==> Inside(AvailSpan(q), q.avail + 4 + 2 * i) && Inside(AvailSpan(q), q.avail + 4 + 2 * i + 1)
    ensures i < q.qsize <==> Inside(UsedSpan(q), q.used + 4 + 8 * i) && Inside(UsedSpan(q), q.used + 4 + 8 * i + 7)
    ensures Inside(AvailSpan(q), q.avail) && Inside(AvailSpan(q), q.avail + 3)
    ensures Inside(UsedSpan(q), q.used) && Inside(UsedSpan(q), q.used + 3)
  {
  }

  /** The queue that eight allocated frames make: its parts begin at the fourth, the fifth and the last. */
  function Placed(a: seq<nat>, qsize: nat): Queue
    requires |a| == 8
  {
    Queue(a[3], a[4], a[7], qsize, 0)
  }

  predicate Inside(s: Span, x: nat) {
    s.at <= x < s.at + s.size
  }

  /** What `virtio_init_queue` clears: four pages, one page and three pages. */
  predicate Cleared(q: Queue, x: nat) {
    Inside(Span(q.desc, 16384), x) || Inside(Span(q.avail, 4096), x) || Inside(Span(q.used, 12288), x)
  }

  /** Memory after `memset` with 0. */
  function Zeroed(memory: nat -> byte, s: Span): nat -> byte {
    x => if Inside(s, x) then 0 else memory(x)
  }

  /** `virtio_init_queue` for the size that the device reports, 0 for a queue it has not. */
  method InitQueue(pmm: Pmm, qsize: nat, queue: Queue, memory: nat -> byte) returns (q: Queue, after: nat -> byte)
    requires pmm.Valid()
    modifies pmm, pmm.frameStack, pmm.refCounts
    ensures pmm.Valid()
    ensures qsize == 0 ==> q == queue && after == memory && pmm.Abs() == old(pmm.Abs())
    ensures qsize > 0 ==>
              var (left, a) := AllocMany(old(pmm.Abs()), 8);
              && |a| == 8 && pmm.Abs() == left && q == Placed(a, qsize)
              && forall x: nat :: after(x) == if Cleared(q, x) then 0 else memory(x)
  {
    hide Inv, Alloc, Zeroed, Cleared;
    if qsize == 0 { return queue, memory; }
    ghost var s := pmm.Abs();
    AllocEight(s);
    var f0 := pmm.AllocFrame();
    var f1 := pmm.AllocFrame();
    var f2 := pmm.AllocFrame();
    var descPhys := pmm.AllocFrame();
    var availPhys := pmm.AllocFrame();
    var f5 := pmm.AllocFrame();
    var f6 := pmm.AllocFrame();
    var usedPhys := pmm.AllocFrame();
    q := Queue(descPhys, availPhys, usedPhys, qsize, 0);
    after := Zeroed(Zeroed(Zeroed(memory, Span(descPhys, 4 * 4096)), Span(availPhys, 1 * 4096)), Span(usedPhys, 3 * 4096));
    ClearsThree(q, memory);
  }

  lemma ClearsThree(q: Queue, memory: nat -> byte)
    ensures forall x: nat :: Zeroed(Zeroed(Zeroed(memory, Span(q.desc, 16384)), Span(q.avail, 4096)), Span(q.used, 12288))(x)
                             == if Cleared(q, x) then 0 else memory(x)
  {
  }

  lemma AllocEight(s: Frames)
    requires Inv(s)
    ensures |AllocMany(s, 8).1| == 8
  {
  }

  /**
   With nothing but allocations since `pmm_init` the eight frames are adjacent, exactly their bytes
   are cleared, and the parts fit between each other and their ends exactly if the queue has at most
   1024 entries.
   */
  lemma LayoutFitsIff(s: Frames, lo: nat, hi: nat, qsize: nat)
    requires Inv(s) && Ascending(s, lo, hi) && lo + 8 <= hi
    ensures var (left, a) := AllocMany(s, 8);
            && |a| == 8 && Inv(left) && Ascending(left, lo, hi - 8)
            && var q := Placed(a, qsize);
               && (forall x: nat :: Cleared(q, x) <==> IndexToPhys(hi - 8) <= x < IndexToPhys(hi))
               && ((InFrames(UsedSpan(q), hi - 8, hi - 5) && InFrames(AvailSpan(q), hi - 5, hi - 4)
                    && InFrames(DescSpan(q), hi - 4, hi)) <==> qsize <= 1024)
  {
    AllocsDescend(s, lo, hi, 8);
  }

  /** Everything the network driver allocates at start-up: two queues and a buffer per receive descriptor. */
  ghost function Parts(rx: Queue, tx: Queue, buffers: seq<nat>): seq<Span> {
    [DescSpan(rx), AvailSpan(rx), UsedSpan(rx), DescSpan(tx), AvailSpan(tx), UsedSpan(tx)]
    + seq(|buffers|, i requires 0 <= i < |buffers| => Span(buffers[i], 4096))
  }

  /** ... is pairwise disjoint, for queues of at most 1024 entries. */
  lemma PartsApart(s: Frames, lo: nat, hi: nat, rxSize: nat, txSize: nat)
    requires Inv(s) && Ascending(s, lo, hi) && lo + 16 + rxSize <= hi && rxSize <= 1024 && txSize <= 1024
    ensures var (s1, a) := AllocMany(s, 8);
            && Inv(s1) && |a| == 8
            && var (s2, b) := AllocMany(s1, 8);
               && Inv(s2) && |b| == 8
               && var (s3, buffers) := AllocMany(s2, rxSize);
                  var parts := Parts(Placed(a, rxSize), Placed(b, txSize), buffers);
                  forall i, j :: 0 <= i < j < |parts| ==> Apart(parts[i], parts[j])
  {
    hide AllocMany, Inv, Ascending, Parts, Apart, IndexToPhys;
    AllocsDescend(s, lo, hi, 8);
    var (s1, a) := AllocMany(s, 8);
    AllocsDescend(s1, lo, hi - 8, 8);
    var (s2, b) := AllocMany(s1, 8);
    AllocsDescend(s2, lo, hi - 16, rxSize);
    var (s3, buffers) := AllocMany(s2, rxSize);
    AllApart(Placed(a, rxSize), Placed(b, txSize), buffers, hi);
  }

  /** The queues lie in the sixteen frames below `hi`, the buffers below them. */
  ghost predicate FromTop(rx: Queue, tx: Queue, buffers: seq<nat>, hi: nat) {
    && rx.qsize <= 1024 && tx.qsize <= 1024 && hi >= 16 + rx.qsize && |buffers| == rx.qsize
    && rx.desc == IndexToPhys(hi - 4) && rx.avail == IndexToPhys(hi - 5) && rx.used == IndexToPhys(hi - 8)
    && tx.desc == IndexToPhys(hi - 12) && tx.avail == IndexToPhys(hi - 13) && tx.used == IndexToPhys(hi - 16)
    && forall k :: 0 <= k < rx.qsize ==> buffers[k] == IndexToPhys(hi - 17 - k)
  }

  lemma AllApart(rx: Queue, tx: Queue, buffers: seq<nat>, hi: nat)
    requires FromTop(rx, tx, buffers, hi)
    ensures var parts := Parts(rx, tx, buffers);
            forall i, j :: 0 <= i < j < |parts| ==> Apart(parts[i], parts[j])
  {
    var parts := Parts(rx, tx, buffers);
    hide Parts, FromTop;
    forall i, j | 0 <= i < j < |parts|
      ensures Apart(parts[i], parts[j])
    {
      PartPlace(rx, tx, buffers, hi, i);
      PartPlace(rx, tx, buffers, hi, j);
    }
  }

  /** The frames, counted from the top, in which part `i` lies. */
  function Top(i: nat): nat {
    match i
    case 0 => 0 case 1 => 4 case 2 => 5 case 3 => 8 case 4 => 12 case 5 => 13 case _ => i + 10
  }

  lemma PartPlace(rx: Queue, tx: Queue, buffers: seq<nat>, hi: nat, i: nat)
    requires FromTop(rx, tx, buffers, hi) && i < |Parts(rx, tx, buffers)|
    ensures Top(i) < Top(i + 1) <= hi
    ensures InFrames(Parts(rx, tx, buffers)[i], hi - Top(i + 1), hi - Top(i))
  {
    if i >= 6 {
      assert Parts(rx, tx, buffers)[i] == Span(buffers[i - 6], 4096);
    }
  }
}
