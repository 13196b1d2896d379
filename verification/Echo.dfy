/** An echo request on its way through the driver: from a receive buffer to a frame to send. */
module Echo {
  import opened Memory
  import opened Icmp
  import opened RxQueueClass
  import opened TxQueueClass

  /** Bytes of the Ethernet header. */
  const ETH: nat := 14

  /** The header in front of a frame of `n` bytes is gone from the length that is handed on. */
  lemma HeaderGone(n: nat)
    ensures HDR + n < 0x1_0000_0000 ==> PacketLen(HDR + n) == n
  {
  }

  /**
   The answer to an echo request out of a receive buffer of 4096 bytes, of which the device wrote
   `totalLen`, is no longer than the request was, so that `net_send` finds room for it in a frame.
   */
  lemma ReplyFits(totalLen: nat, p: seq<byte>, srcMac: seq<byte>, netMac: seq<byte>)
    requires HDR + ETH <= totalLen <= 4096 && |srcMac| == |netMac| == 6
    requires var len := PacketLen(totalLen) - ETH;
             len >= 0 && IsEcho(p, len) && Consistent(p, len)
    ensures |p| >= 28 && 28 <= TotalLength(p) <= |p|
    ensures HDR + |ReplyFrame(p, srcMac, netMac)| == HDR + ETH + TotalLength(p) <= totalLen
  {
  }
}
