/** The echo path of `ipv4_handle` (src/net.c): the request is turned into its reply in place. */
module Icmp {
  import opened Memory
  import opened Checksum

  datatype Reply = NoReply | Reply(frame: seq<byte>)

  /** Bytes 10.0.2.15. */
  const MY_IP: seq<byte> := [10, 0, 2, 15]

  function Ntohs(x: nat): nat {
    x / 256 % 256 + x % 256 * 256
  }

  lemma NtohsBytes(c: nat)
    requires c < 65536
    ensures Ntohs(c) < 65536 && Ntohs(c) % 256 == c / 256 && Ntohs(c) / 256 == c % 256
  {
  }

  /** A 16-bit field as the little-endian core reads it. */
  function Read16(p: seq<byte>, i: nat): (x: nat)
    requires i + 1 < |p|
    ensures x < 65536
  {
    p[i] as nat + p[i + 1] as nat * 256
  }

  lemma NtohsField(p: seq<byte>, i: nat)
    requires i + 1 < |p|
    ensures Ntohs(Read16(p, i)) == p[i] as nat * 256 + p[i + 1] as nat
  {
  }

  /** The IPv4 total length field. */
  function TotalLength(p: seq<byte>): nat
    requires |p| >= 20
  {
    p[2] as nat * 256 + p[3] as nat
  }

  /** What `ipv4_handle` answers: an ICMP echo request to this host. */
  predicate IsEcho(p: seq<byte>, len: nat) {
    && 20 <= len <= |p| && |p| >= 21 && p[16..20] == MY_IP && p[9] == 1 && p[20] == 8
  }

  /** A 20-byte header and a length that holds an ICMP header and does not exceed what arrived. */
  predicate Consistent(p: seq<byte>, len: nat)
    requires |p| >= 20
  {
    p[0] as nat % 16 == 5 && 28 <= TotalLength(p) <= len <= |p|
  }

  /** The ICMP message of a packet. */
  function IcmpOf(p: seq<byte>): seq<byte>
    requires |p| >= 28 && 20 <= TotalLength(p) <= |p|
  {
    p[20..TotalLength(p)]
  }

  /** The message with type 0 and checksum field `c`. */
  function Answer(m: seq<byte>, hi: byte, lo: byte): seq<byte>
    requires |m| >= 8
  {
    [0, m[1], hi, lo] + m[4..]
  }

  /** The packet of the reply: source and destination swapped, the ICMP message answered. */
  ghost function ReplyPacket(p: seq<byte>): seq<byte>
    requires |p| >= 28 && 28 <= TotalLength(p) <= |p|
  {
    var m := IcmpOf(p);
    var c := Complement(Answer(m, 0, 0));
    p[..12] + p[16..20] + p[12..16] + Answer(m, c / 256, c % 256) + p[TotalLength(p)..]
  }

  /** The Ethernet frame of the reply. */
  ghost function ReplyFrame(p: seq<byte>, srcMac: seq<byte>, netMac: seq<byte>): seq<byte>
    requires |p| >= 28 && 28 <= TotalLength(p) <= |p|
  {
    srcMac + netMac + [8, 0] + ReplyPacket(p)[..TotalLength(p)]
  }

  /** A recomputed checksum over the answered message is zero: the receiver accepts it. */
  lemma AnswerVerifies(m: seq<byte>)
    requires |m| >= 8
    ensures var c := Complement(Answer(m, 0, 0));
            c < 65536 && Complement(Answer(m, c / 256, c % 256)) == 0
  {
    var c := Complement(Answer(m, 0, 0));
    var zero, full := Answer(m, 0, 0), Answer(m, c / 256, c % 256);
    SumConcat([0, m[1], 0, 0], m[4..]);
    SumConcat([0, m[1], c / 256, c % 256], m[4..]);
    FieldSum(m[1], 0, 0);
    FieldSum(m[1], c / 256, c % 256);
    assert Sum(full) == Sum(zero) + c;
    FoldedSum(zero);
    FoldedSum(full);
    Verifies(Sum(zero), c);
  }

  lemma FieldSum(code: byte, hi: byte, lo: byte)
    ensures Sum([0, code, hi, lo]) == code as nat + hi as nat * 256 + lo as nat
  {
    var d: seq<byte> := [0, code, hi, lo];
    assert d[2..] == [hi, lo] && [hi, lo][2..] == [];
    assert Sum(d[2..]) == hi as nat * 256 + lo as nat;
  }

  /** The IPv4 header checksum, which the reply does not recompute, is as valid as it was. */
  lemma HeaderSumKept(p: seq<byte>)
    requires |p| >= 28 && 28 <= TotalLength(p) <= |p|
    ensures Complement(ReplyPacket(p)[..20]) == Complement(p[..20])
  {
    var a, src, dst := p[..12], p[12..16], p[16..20];
    assert p[..20] == a + (src + dst);
    assert ReplyPacket(p)[..20] == a + (dst + src);
    SumConcat(a, src + dst);
    SumConcat(a, dst + src);
    SumConcat(src, dst);
    SumConcat(dst, src);
    SameSum(p[..20], ReplyPacket(p)[..20]);
  }

  /**
   The reply to an echo request: its ICMP checksum verifies, its IPv4 header checksum verifies if
   the request's did, it goes back to the sender, and identifier, sequence number and data return.
   */
  lemma ReplyCorrect(p: seq<byte>, len: nat)
    requires IsEcho(p, len) && Consistent(p, len)
    ensures var r := ReplyPacket(p);
            && |r| == |p| && TotalLength(r) == TotalLength(p)
            && Complement(IcmpOf(r)) == 0 && Complement(r[..20]) == Complement(p[..20])
            && r[12..16] == MY_IP && r[16..20] == p[12..16] && r[20] == 0
            && r[21] == p[21] && r[24..] == p[24..] && r[..12] == p[..12]
  {
    var m := IcmpOf(p);
    var r := ReplyPacket(p);
    AnswerVerifies(m);
    HeaderSumKept(p);
    var c := Complement(Answer(m, 0, 0));
    assert IcmpOf(r) == Answer(m, c / 256, c % 256);
    assert m[4..] + p[TotalLength(p)..] == p[24..];
    assert r[24..] == m[4..] + p[TotalLength(p)..];
  }

  /** What a frame on the wire says that answers packet `p`, from its Ethernet header on. */
  ghost predicate Answers(f: seq<byte>, p: seq<byte>, srcMac: seq<byte>, netMac: seq<byte>) {
    && |p| >= 28
    && var n := p[2] as nat * 256 + p[3] as nat;
       && |f| == 14 + n && 28 <= n <= |p|
       && f[0..6] == srcMac && f[6..12] == netMac && f[12..14] == [8, 0]
       && f[14..26] == p[..12] && f[26..30] == [10, 0, 2, 15] && f[30..34] == p[12..16]
       && f[34] == 0 && f[35] == p[21] && f[38..] == p[24..n]
       && Complement(f[14..34]) == Complement(p[..20]) && Complement(f[34..]) == 0
  }

  lemma FrameAnswers(p: seq<byte>, len: nat, srcMac: seq<byte>, netMac: seq<byte>)
    requires IsEcho(p, len) && Consistent(p, len) && |srcMac| == |netMac| == 6
    ensures Answers(ReplyFrame(p, srcMac, netMac), p, srcMac, netMac)
  {
    hide Complement, ReplyPacket;
    ReplyCorrect(p, len);
    var r, n := ReplyPacket(p), TotalLength(p);
    var f := ReplyFrame(p, srcMac, netMac);
    BehindHeader(srcMac + netMac + [8, 0], r[..n]);
    assert f[0..6] == srcMac && f[6..12] == netMac && f[12..14] == [8, 0];
    PartOf(f, r, n, 0, 12);
    PartOf(f, r, n, 12, 16);
    PartOf(f, r, n, 16, 20);
    PartOf(f, r, n, 0, 20);
    PartOf(f, r, n, 20, n);
    PartOf(f, r, n, 24, n);
    assert r[24..n] == r[24..][..n - 24] == p[24..][..n - 24] == p[24..n];
  }

  lemma BehindHeader(h: seq<byte>, r: seq<byte>)
    ensures (h + r)[|h|..] == r && forall i :: 0 <= i < |r| ==> (h + r)[|h| + i] == r[i]
  {
  }

  lemma PartOf(f: seq<byte>, r: seq<byte>, n: nat, i: nat, j: nat)
    requires i <= j <= n <= |r| && |f| == 14 + n && forall k :: 0 <= k < n ==> f[14 + k] == r[k]
    ensures f[14 + i..14 + j] == r[i..j]
  {
  }

  /** Writes the 16-bit value `x` to bytes `i` and `i + 1`, little-endian. */
  method Write16(p: array<byte>, i: nat, x: nat)
    requires i + 1 < p.Length && x < 65536
    modifies p
    ensures p[..] == old(p[..])[i := x % 256][i + 1 := x / 256]
  {
    p[i] := x % 256;
    p[i + 1] := x / 256;
  }

  method CopyInto(p: array<byte>, i: nat, s: seq<byte>)
    requires i + |s| <= p.Length
    modifies p
    ensures p[..] == old(p[..])[..i] + s + old(p[..])[i + |s|..]
  {
    for k := 0 to |s|
      invariant p[..] == old(p[..])[..i] + s[..k] + old(p[..])[i + k..]
    {
      p[i + k] := s[k];
    }
    assert s[..|s|] == s;
  }

  /** The part on the ICMP header: type 0, checksum field 0, then the checksum. */
  method AnswerIcmp(p: array<byte>) returns (length: nat)
    requires p.Length >= 28 && p[0] as nat % 16 == 5 && 28 <= TotalLength(p[..]) <= p.Length
    modifies p
    ensures length == TotalLength(old(p[..]))
    ensures var was := old(p[..]);
            var c := Complement(Answer(IcmpOf(was), 0, 0));
            p[..] == was[..20] + Answer(IcmpOf(was), c / 256, c % 256) + was[length..]
  {
    hide Ntohs, Complement, Answer, IcmpOf;
    ghost var was := p[..];
    NtohsField(was, 2);
    length := Ntohs(p[2] as nat + p[3] as nat * 256);
    p[20] := 0;
    Write16(p, 22, 0);
    Written(was, p[..], 0, 0);
    var icmpLen := length - p[0] as nat % 16 * 4;
    var c := CalculateChecksum(p[20..20 + icmpLen]);
    NtohsBytes(c);
    Write16(p, 22, Ntohs(c));
    Written(was, p[..], c / 256, c % 256);
  }

  lemma Written(was: seq<byte>, now: seq<byte>, hi: byte, lo: byte)
    requires |was| >= 28 && 28 <= TotalLength(was) <= |was|
    requires |now| == |was| && now[20] == 0 && now[22] == hi && now[23] == lo
    requires forall i :: 0 <= i < |was| && i != 20 && i != 22 && i != 23 ==> now[i] == was[i]
    ensures now[20..TotalLength(was)] == Answer(IcmpOf(was), hi, lo)
    ensures now == was[..20] + Answer(IcmpOf(was), hi, lo) + was[TotalLength(was)..]
  {
  }

  /** The part on the IPv4 header: the request's sender becomes the destination. */
  method SwapAddresses(p: array<byte>)
    requires p.Length >= 20
    modifies p
    ensures var was := old(p[..]); p[..] == was[..12] + MY_IP + was[12..16] + was[20..]
  {
    var tempIp := p[12..16];
    CopyInto(p, 12, MY_IP);
    CopyInto(p, 16, tempIp);
  }

  /** `ipv4_handle`: the frame to send, if any; `p` is the packet buffer, `len` what arrived. */
  method Ipv4Handle(p: array<byte>, len: nat, srcMac: seq<byte>, netMac: seq<byte>) returns (reply: Reply)
    requires |srcMac| == |netMac| == 6 && len <= p.Length && p.Length >= 21
    requires IsEcho(p[..], len) ==> Consistent(p[..], len)
    modifies p
    ensures !IsEcho(old(p[..]), len) ==> reply == NoReply && p[..] == old(p[..])
    ensures IsEcho(old(p[..]), len) ==> p[..] == ReplyPacket(old(p[..])) && reply == Reply(ReplyFrame(old(p[..]), srcMac, netMac))
    ensures reply.Reply? <==> len >= 20 && old(p[9]) == 1 && old(p[16..20]) == [10, 0, 2, 15] && old(p[20]) == 8
    ensures reply.Reply? ==> Answers(reply.frame, old(p[..]), srcMac, netMac)
  {
    if len < 20 { return NoReply; }
    if p[16..20] != MY_IP { return NoReply; }
    if p[9] == 1 {
      if p[20] == 8 {
        ghost var was := p[..];
        assert IsEcho(was, len);
        FrameAnswers(was, len, srcMac, netMac);
        hide Complement, Answer, Answers;
        var length := AnswerIcmp(p);
        SwapAddresses(p);
        Assembled(was, p[..]);
        return Reply(srcMac + netMac + [8, 0] + p[..length]);
      }
    }
    return NoReply;
  }

  lemma Assembled(was: seq<byte>, now: seq<byte>)
    requires |was| >= 28 && 28 <= TotalLength(was) <= |was| && was[16..20] == MY_IP
    requires var m := Answer(IcmpOf(was), Complement(Answer(IcmpOf(was), 0, 0)) / 256, Complement(Answer(IcmpOf(was), 0, 0)) % 256);
             var mid := was[..20] + m + was[TotalLength(was)..];
             |mid| >= 20 && now == mid[..12] + MY_IP + mid[12..16] + mid[20..]
    ensures now == ReplyPacket(was) && |now| == |was|
  {
    hide Complement;
    var m := Answer(IcmpOf(was), Complement(Answer(IcmpOf(was), 0, 0)) / 256, Complement(Answer(IcmpOf(was), 0, 0)) % 256);
    var mid := was[..20] + m + was[TotalLength(was)..];
    assert mid[..12] == was[..12] && mid[12..16] == was[12..16];
    assert mid[20..] == m + was[TotalLength(was)..];
  }
}
