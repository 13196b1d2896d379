/** The transmit queue of src/net.c as values: sends, a device that completes in order, and the clean-up. */
module TxRing {
  import opened Sequences
  import opened RingIndex
  import P = PmmSpec

  /**
   The ring state and the frame allocator. `sent`, `done` and `cleaned` count without wrapping;
   `taken` and `freed` are the frames handled so far, in order.
   */
  datatype Tx = Tx(
    q: nat, descIdx: nat, availIdx: nat, availRing: seq<nat>, addrs: seq<nat>, usedIdx: nat, usedRing: seq<nat>, lastUsed: nat,
    frames: P.Frames, sent: nat, done: nat, cleaned: nat, taken: seq<nat>, freed: seq<nat>)

  ghost predicate Shaped(s: Tx) {
    && SizeOk(s.q) && 0 < s.q && |s.availRing| == |s.usedRing| == |s.addrs| == s.q
    && P.Inv(s.frames)
  }

  /** The frame is held once. */
  ghost predicate HeldOnce(fr: P.Frames, a: nat) {
    var i := P.PhysToIndex(fr.ram, a);
    i < |fr.counts| && a == P.IndexToPhys(i) && fr.counts[i] == 1
  }

  /** The frames of sends that have not been cleaned up, oldest first. */
  ghost function Pending(s: Tx): seq<nat>
    requires |s.addrs| > 0 && s.cleaned <= s.sent
  {
    Window(s.addrs, s.cleaned, s.sent)
  }

  /** Entry `i` of a ring names its own slot. */
  ghost predicate OwnSlot(ring: seq<nat>, q: nat, i: nat)
    requires q > 0 && |ring| == q
  {
    ring[Slot(i, q)] == Slot(i, q)
  }

  ghost predicate Inv(s: Tx) {
    && Shaped(s)
    && s.descIdx == s.availIdx == Wrap(s.sent) && s.usedIdx == Wrap(s.done) && s.lastUsed == Wrap(s.cleaned)
    && s.cleaned <= s.done <= s.sent <= s.cleaned + s.q
    && (forall i :: s.cleaned <= i < s.sent ==> OwnSlot(s.availRing, s.q, i))
    && (forall i :: s.cleaned <= i < s.done ==> OwnSlot(s.usedRing, s.q, i))
    && Distinct(Pending(s)) && (forall a :: a in Pending(s) ==> HeldOnce(s.frames, a))
    && s.taken == s.freed + Pending(s)
  }

  /** No send may come while the queue is full of sends that have not been cleaned up. */
  ghost predicate Room(s: Tx) {
    s.sent < s.cleaned + s.q
  }

  ghost function Send(s: Tx): Tx
    requires Shaped(s)
  {
    var (fr, a) := P.Alloc(s.frames);
    if a == 0 then s
    else
      var head := Slot(s.descIdx, s.q);
      s.(frames := fr, addrs := s.addrs[head := a], availRing := s.availRing[Slot(s.availIdx, s.q) := head],
         availIdx := Wrap(s.availIdx + 1), descIdx := Wrap(s.descIdx + 1), sent := s.sent + 1, taken := s.taken + [a])
  }

  /** The device completes the oldest published send. */
  ghost function Complete(s: Tx): Tx
    requires Shaped(s)
  {
    s.(usedRing := s.usedRing[Slot(s.usedIdx, s.q) := s.availRing[Slot(s.done, s.q)]], usedIdx := Wrap(s.usedIdx + 1), done := s.done + 1)
  }

  ghost function Clean(s: Tx): Tx
    requires Shaped(s) && s.usedRing[Slot(s.lastUsed, s.q)] < s.q
  {
    var a := s.addrs[s.usedRing[Slot(s.lastUsed, s.q)]];
    s.(frames := P.Free(s.frames, a), lastUsed := Wrap(s.lastUsed + 1), cleaned := s.cleaned + 1, freed := s.freed + [a])
  }

  /** Free frames plus frames in flight. */
  ghost function Total(s: Tx): nat
    requires |s.addrs| > 0 && s.cleaned <= s.sent
  {
    |s.frames.stack| + |Pending(s)|
  }

  // ---------------------------------------------------------------- what each step keeps

  lemma IndicesExact(s: Tx)
    requires Inv(s)
    ensures Slot(s.descIdx, s.q) == Slot(s.availIdx, s.q) == Slot(s.sent, s.q) && Slot(s.usedIdx, s.q) == Slot(s.done, s.q)
    ensures Slot(s.lastUsed, s.q) == Slot(s.cleaned, s.q)
    ensures s.lastUsed == s.usedIdx <==> s.cleaned == s.done
    ensures 0 < s.q <= 0x8000
  {
    SlotOfIndex(s.sent, s.q);
    SlotOfIndex(s.done, s.q);
    SlotOfIndex(s.cleaned, s.q);
    SameIndex(s.cleaned, s.done);
  }

  lemma AllocFrames(fr: P.Frames, pending: seq<nat>)
    requires P.Inv(fr) && forall a :: a in pending ==> HeldOnce(fr, a)
    ensures var (u, a) := P.Alloc(fr);
            && P.Inv(u) && (a == 0 ==> u == fr)
            && (a != 0 ==> |u.stack| == |fr.stack| - 1 && a !in pending && forall b :: b in pending + [a] ==> HeldOnce(u, b))
    ensures forall x :: x in fr.stack ==> x < |fr.counts|
  {
    P.AllocCorrect(fr);
  }

  lemma RingPush(ring: seq<nat>, q: nat, lo: nat, hi: nat)
    requires q > 0 && |ring| == q && lo <= hi < lo + q && forall i :: lo <= i < hi ==> OwnSlot(ring, q, i)
    ensures var r := ring[Slot(hi, q) := Slot(hi, q)];
            forall i :: lo <= i < hi + 1 ==> OwnSlot(r, q, i)
  {
    hide Slot;
    var r := ring[Slot(hi, q) := Slot(hi, q)];
    forall i | lo <= i < hi + 1
      ensures OwnSlot(r, q, i)
    {
      if i < hi {
        SlotsApart(i, hi, q);
        assert OwnSlot(ring, q, i);
      }
    }
  }

  /** With room in the queue a send keeps everything pending and adds one frame; without a frame it does nothing. */
  lemma SendCorrect(s: Tx)
    requires Inv(s) && Room(s)
    ensures var u := Send(s);
            && Inv(u) && Total(u) == Total(s)
            && (u == s || exists a :: Pending(u) == Pending(s) + [a] && u.taken == s.taken + [a] && a !in Pending(s))
  {
    hide Slot, Wrap, SizeOk, P.Inv, P.Alloc, HeldOnce, OwnSlot;
    IndicesExact(s);
    AllocFrames(s.frames, Pending(s));
    var (fr, a) := P.Alloc(s.frames);
    if a != 0 {
      var u := Send(s);
      WindowPush(s.addrs, s.cleaned, s.sent, a);
      NextIndex(s.sent);
      RingPush(s.availRing, s.q, s.cleaned, s.sent);
      assert Pending(u) == Pending(s) + [a];
      Appended(Pending(s), a);
    }
  }

  /** A send breaks the invariant exactly if it finds a frame but no room. */
  lemma SendKeepsIff(s: Tx)
    requires Inv(s)
    ensures forall x :: x in s.frames.stack ==> x < |s.frames.counts|
    ensures Inv(Send(s)) <==> Room(s) || P.Alloc(s.frames).1 == 0
  {
    hide Slot, Wrap, SizeOk, P.Inv, P.Alloc, HeldOnce, OwnSlot;
    AllocFrames(s.frames, Pending(s));
    if Room(s) { SendCorrect(s); }
  }

  lemma Appended(p: seq<nat>, a: nat)
    requires Distinct(p) && a !in p
    ensures Distinct(p + [a])
  {
  }

  /** Exactly in a queue without room a successful send overwrites a pending descriptor. */
  lemma OverwritesIff(s: Tx)
    requires Inv(s) && P.Alloc(s.frames).1 != 0
    ensures Window(Send(s).addrs, s.cleaned, s.sent) != Pending(s) <==> !Room(s)
  {
    hide Slot, Wrap, SizeOk, P.Inv, P.Alloc, HeldOnce, OwnSlot;
    IndicesExact(s);
    AllocFrames(s.frames, Pending(s));
    var a := P.Alloc(s.frames).1;
    if Room(s) {
      WindowPush(s.addrs, s.cleaned, s.sent, a);
    } else {
      assert Pending(s)[0] == s.addrs[Slot(s.cleaned + 0, s.q)] && Pending(s)[0] in Pending(s);
      WindowOverwrite(s.addrs, s.cleaned, a);
    }
  }

  lemma CompleteCorrect(s: Tx)
    requires Inv(s) && s.done < s.sent
    ensures Inv(Complete(s)) && Pending(Complete(s)) == Pending(s) && Total(Complete(s)) == Total(s)
  {
    hide Slot, Wrap, SizeOk, P.Inv, HeldOnce;
    IndicesExact(s);
    NextIndex(s.done);
    assert OwnSlot(s.availRing, s.q, s.done);
    RingPush(s.usedRing, s.q, s.cleaned, s.done);
  }

  /** A clean-up frees the oldest pending frame, which nobody else holds, for good. */
  lemma CleanCorrect(s: Tx)
    requires Inv(s) && s.lastUsed != s.usedIdx
    ensures s.usedRing[Slot(s.lastUsed, s.q)] < s.q && s.sent > s.cleaned
    ensures var u := Clean(s);
            && Inv(u) && Total(u) == Total(s)
            && Pending(s) == [s.addrs[s.usedRing[Slot(s.lastUsed, s.q)]]] + Pending(u)
            && u.freed == s.freed + [Pending(s)[0]]
  {
    hide Slot, Wrap, SizeOk, P.Inv, P.Free, HeldOnce;
    IndicesExact(s);
    NextIndex(s.cleaned);
    assert OwnSlot(s.usedRing, s.q, s.cleaned);
    WindowPop(s.addrs, s.cleaned, s.sent);
    var a := s.addrs[Slot(s.cleaned, s.q)];
    var u := Clean(s);
    assert Pending(s) == [a] + Pending(u);
    assert a in Pending(s);
    Behind(a, Pending(u));
    FreeFrame(s.frames, a, Pending(u));
    assert s.freed + ([a] + Pending(u)) == s.freed + [a] + Pending(u);
  }

  lemma Behind(a: nat, rest: seq<nat>)
    requires Distinct([a] + rest)
    ensures Distinct(rest) && a !in rest
  {
    forall i, j | 0 <= i < j < |rest|
      ensures rest[i] != rest[j]
    {
      assert ([a] + rest)[i + 1] != ([a] + rest)[j + 1];
    }
    forall j | 0 <= j < |rest|
      ensures rest[j] != a
    {
      assert ([a] + rest)[0] != ([a] + rest)[j + 1];
    }
  }

  lemma FreeFrame(fr: P.Frames, a: nat, rest: seq<nat>)
    requires P.Inv(fr) && HeldOnce(fr, a) && a !in rest && forall b :: b in rest ==> HeldOnce(fr, b)
    ensures P.Inv(P.Free(fr, a)) && |P.Free(fr, a).stack| == |fr.stack| + 1 && forall b :: b in rest ==> HeldOnce(P.Free(fr, a), b)
  {
    P.FreeInvIff(fr, a);
    hide P.Inv;
    forall b | b in rest
      ensures HeldOnce(P.Free(fr, a), b)
    {
      assert P.PhysToIndex(fr.ram, b) != P.PhysToIndex(fr.ram, a);
    }
  }

  // ---------------------------------------------------------------- runs

  datatype Action = SendFrame | DeviceCompletes | CleanUp

  ghost predicate Enabled(s: Tx, a: Action) {
    match a
    case SendFrame => Room(s)
    case DeviceCompletes => s.done < s.sent
    case CleanUp => s.lastUsed != s.usedIdx
  }

  ghost function Step(s: Tx, a: Action): (u: Tx)
    requires Inv(s) && Enabled(s, a)
    ensures Inv(u) && u.q == s.q && Total(u) == Total(s)
  {
    match a
    case SendFrame => SendCorrect(s); Send(s)
    case DeviceCompletes => CompleteCorrect(s); Complete(s)
    case CleanUp => CleanCorrect(s); Clean(s)
  }

  ghost predicate Runs(s: Tx, acts: seq<Action>, u: Tx)
    requires Inv(s)
    decreases |acts|
  {
    if acts == [] then u == s else Enabled(s, acts[0]) && Runs(Step(s, acts[0]), acts[1..], u)
  }

  /**
   Conservation over every run with at most a queue of sends outstanding: free frames plus frames
   in flight stay the same, and the frames allocated are those freed, once each and in order,
   followed by those in flight. In particular a drained queue has freed all it allocated.
   */
  lemma {:induction false} Conservation(s: Tx, acts: seq<Action>, u: Tx)
    requires Inv(s) && Runs(s, acts, u)
    ensures Inv(u) && Total(u) == Total(s) && u.taken == u.freed + Pending(u)
    ensures u.cleaned == u.sent ==> u.taken == u.freed && |u.frames.stack| == Total(s)
    ensures u.descIdx == u.availIdx
    decreases |acts|
  {
    if acts != [] {
      hide Inv, Enabled, Step;
      Conservation(Step(s, acts[0]), acts[1..], u);
    }
  }

  // ---------------------------------------------------------------- a full queue is within reach

  /** A queue of `q` entries in zeroed memory. */
  ghost function New(q: nat, frames: P.Frames): Tx {
    Tx(q, 0, 0, seq(q, i => 0), seq(q, i => 0), 0, seq(q, i => 0), 0, frames, 0, 0, 0, [], [])
  }

  ghost function Sends(k: nat): seq<Action> {
    seq(k, i => SendFrame)
  }

  lemma SendTakes(s: Tx)
    requires Inv(s) && Room(s) && s.frames.stack != []
    ensures Enabled(s, SendFrame)
    ensures var u := Step(s, SendFrame);
            u.sent == s.sent + 1 && u.cleaned == s.cleaned && u.q == s.q && |u.frames.stack| == |s.frames.stack| - 1
  {
    hide Slot, Wrap, SizeOk, HeldOnce, OwnSlot;
    P.AllocCorrect(s.frames);
  }

  /** `k` sends that find room and frames. */
  lemma {:induction false} SendsRun(s: Tx, k: nat) returns (u: Tx)
    requires Inv(s) && s.sent + k <= s.cleaned + s.q && k <= |s.frames.stack|
    ensures Runs(s, Sends(k), u) && Inv(u) && u.sent == s.sent + k && u.cleaned == s.cleaned && u.q == s.q
    ensures |u.frames.stack| == |s.frames.stack| - k
    decreases k
  {
    hide Inv, Enabled, Step;
    if k == 0 {
      u := s;
    } else {
      SendTakes(s);
      u := SendsRun(Step(s, SendFrame), k - 1);
      assert Sends(k)[0] == SendFrame && Sends(k)[1..] == Sends(k - 1);
    }
  }

  lemma NewInv(q: nat, frames: P.Frames)
    requires SizeOk(q) && P.Inv(frames)
    ensures Inv(New(q, frames)) && Pending(New(q, frames)) == []
  {
  }

  /**
   From a new queue of any size and more free frames than entries, as many sends as the queue has
   entries lead to a state in which one more send overwrites the oldest pending descriptor.
   */
  lemma OverwriteReached(q: nat, frames: P.Frames)
    requires SizeOk(q) && P.Inv(frames) && q < |frames.stack|
    ensures Inv(New(q, frames))
    ensures exists u :: Runs(New(q, frames), Sends(q), u) && Inv(u) && !Room(u) && P.Alloc(u.frames).1 != 0
                        && Window(Send(u).addrs, u.cleaned, u.sent) != Pending(u) && !Inv(Send(u))
  {
    NewInv(q, frames);
    hide *;
    var u := SendsRun(New(q, frames), q);
    FrameLeft(u);
    OverwritesIff(u);
    SendKeepsIff(u);
  }

  lemma FrameLeft(u: Tx)
    requires Inv(u) && u.frames.stack != []
    ensures P.Inv(u.frames) && (forall x :: x in u.frames.stack ==> x < |u.frames.counts|) && P.Alloc(u.frames).1 != 0
  {
    P.AllocCorrect(u.frames);
  }

  /** In particular with two free frames, a queue of one entry and two sends. */
  lemma OverwriteExample()
    ensures var s := New(1, P.Frames(8192, [0, 1], [0, 0], 0));
            Inv(s) && exists u :: Runs(s, Sends(1), u) && Inv(u) && P.Alloc(u.frames).1 != 0
                                  && Window(Send(u).addrs, u.cleaned, u.sent) != Pending(u)
  {
    OverwriteReached(1, P.Frames(8192, [0, 1], [0, 0], 0));
  }
}
