/** Echo frames of kernel/src/drivers/net/net.c: how they are built and which replies are accepted. */
module Ping {
  import opened Bytes
  import opened Checksum

  const ETH_MIN: nat := 14
  const IPV4_MIN: nat := 20
  const ICMP_MIN: nat := 8
  const PAYLOAD: nat := 24
  const PING_ID: nat := 0x4D58

  /** A station on the link: its hardware address and its IP address. */
  datatype Host = Host(mac: seq<byte>, ip: seq<byte>)

  predicate ProperHost(h: Host) {
    |h.mac| == 6 && |h.ip| == 4
  }

  function PayloadByte(i: nat): byte {
    'A' as int + i % 26
  }

  function Payload(): (s: seq<byte>)
    ensures |s| == PAYLOAD
  {
    seq(PAYLOAD, i => if i >= 0 then PayloadByte(i) else 0)
  }

  /** An ICMP echo message of a type, its checksum field zero. */
  function Icmp(kind: byte, seqNo: nat): (s: seq<byte>)
    requires seqNo <= 0xFFFF
    ensures |s| == ICMP_MIN + PAYLOAD && s[2] == 0 && s[3] == 0
  {
    [kind, 0, 0, 0, PING_ID / 256, PING_ID % 256, seqNo / 256, seqNo % 256] + Payload()
  }

  /** An IPv4 header, its checksum field zero. */
  function Header(src: seq<byte>, dst: seq<byte>, seqNo: nat): (s: seq<byte>)
    requires seqNo <= 0xFFFF && |src| == 4 && |dst| == 4
    ensures |s| == IPV4_MIN && s[10] == 0 && s[11] == 0
  {
    [0x45, 0, 0, IPV4_MIN + ICMP_MIN + PAYLOAD, seqNo / 256, seqNo % 256, 0x40, 0, 64, 1, 0, 0] + src + dst
  }

  function Checked(p: seq<byte>, at: nat): (r: seq<byte>)
    requires at + 1 < |p|
    ensures |r| == |p|
  {
    Stored(p, at, InternetChecksum(p))
  }

  /** The frame that carries an echo message of a type from one host to another. */
  function Frame(from: Host, to: Host, kind: byte, seqNo: nat): (f: seq<byte>)
    requires ProperHost(from) && ProperHost(to) && seqNo <= 0xFFFF
    ensures |f| == ETH_MIN + IPV4_MIN + ICMP_MIN + PAYLOAD
  {
    to.mac + from.mac + [0x08, 0x00] + Checked(Header(from.ip, to.ip, seqNo), 10) + Checked(Icmp(kind, seqNo), 2)
  }

  // ---- Building ----------------------------------------------------------------------------

  method IcmpBuildEcho(seqNo: nat) returns (icmp: array<byte>)
    requires seqNo <= 0xFFFF
    ensures fresh(icmp) && icmp[..] == Checked(Icmp(8, seqNo), 2)
  {
    hide InternetChecksum;
    icmp := new byte[ICMP_MIN + PAYLOAD](_ => 0);
    icmp[0] := 8;
    icmp[4] := PING_ID / 256;
    icmp[5] := PING_ID % 256;
    icmp[6] := seqNo / 256;
    icmp[7] := seqNo % 256;
    for i := 0 to PAYLOAD
      invariant icmp[..8] == Icmp(8, seqNo)[..8]
      invariant forall k: nat | k < i :: icmp[ICMP_MIN + k] == PayloadByte(k)
    {
      icmp[ICMP_MIN + i] := PayloadByte(i);
    }
    ghost var plain := Icmp(8, seqNo);
    assert icmp[..] == plain;
    NoOverflow(plain);
    var c := IpChecksum(icmp[..]);
    icmp[2] := c / 256;
    icmp[3] := c % 256;
  }

  method BuildEchoFrame(me: Host, peer: Host, seqNo: nat) returns (f: seq<byte>)
    requires ProperHost(me) && ProperHost(peer) && seqNo <= 0xFFFF
    ensures f == Frame(me, peer, 8, seqNo)
  {
    hide InternetChecksum, Icmp, Header, Stored;
    var icmp := IcmpBuildEcho(seqNo);
    var header := Header(me.ip, peer.ip, seqNo);
    NoOverflow(header);
    var c := IpChecksum(header);
    return peer.mac + me.mac + [0x08, 0x00] + Stored(header, 10, c) + icmp[..];
  }

  // ---- Checking ------------------------------------------------------------------------------

  predicate MacValid(m: seq<byte>) {
    (exists i | 0 <= i < |m| :: m[i] != 0) && (exists i | 0 <= i < |m| :: m[i] != 0xFF)
  }

  /** The tests of ipv4_reply_ok, the payload test included. */
  ghost predicate ReplyOk(f: seq<byte>, me: Host, peerIp: seq<byte>, seqNo: nat) {
    && ETH_MIN + IPV4_MIN + ICMP_MIN <= |f| && f[12..14] == [0x08, 0x00]
    && var ip := f[ETH_MIN..];
       && ip[0] == 0x45 && ip[9] == 1
       && Word(ip[2], ip[3]) == IPV4_MIN + ICMP_MIN + PAYLOAD <= |ip|
       && Word(ip[6], ip[7]) % 0x2000 == 0 && Word(ip[6], ip[7]) / 0x2000 % 2 == 0
       && InternetChecksum(ip[..IPV4_MIN]) == 0
       && ip[12..16] == peerIp && ip[16..20] == me.ip
       && var icmp := ip[IPV4_MIN..IPV4_MIN + ICMP_MIN + PAYLOAD];
          && icmp[0] == 0 && icmp[1] == 0 && icmp[4] == PING_ID / 256 && icmp[5] == PING_ID % 256
          && Word(icmp[6], icmp[7]) == seqNo && InternetChecksum(icmp) == 0
          && (forall i: nat | i < PAYLOAD :: icmp[ICMP_MIN + i] == PayloadByte(i))
          && f[..6] == me.mac && MacValid(f[6..12])
  }

  // ---- Theorems --------------------------------------------------------------------------------

  /** Both checksums of every frame built verify. */
  lemma ChecksumsPass(from: Host, to: Host, kind: byte, seqNo: nat)
    requires ProperHost(from) && ProperHost(to) && seqNo <= 0xFFFF
    ensures var f := Frame(from, to, kind, seqNo);
      InternetChecksum(f[ETH_MIN..ETH_MIN + IPV4_MIN]) == 0 && InternetChecksum(f[ETH_MIN + IPV4_MIN..]) == 0
  {
    hide InternetChecksum, Stored;
    var h, m := Header(from.ip, to.ip, seqNo), Icmp(kind, seqNo);
    StoredVerifies(h, 10);
    StoredVerifies(m, 2);
    hide Header, Icmp;
    var f := Frame(from, to, kind, seqNo);
    assert f[ETH_MIN..ETH_MIN + IPV4_MIN] == Checked(h, 10);
    assert f[ETH_MIN + IPV4_MIN..] == Checked(m, 2);
  }

  /** A header as the tests want it; type of service, identification, time to live and the other flags are free. */
  predicate ReplyHeader(h: seq<byte>, src: seq<byte>, dst: seq<byte>) {
    && |h| == IPV4_MIN && h[0] == 0x45 && h[9] == 1 && Word(h[2], h[3]) == IPV4_MIN + ICMP_MIN + PAYLOAD
    && Word(h[6], h[7]) % 0x2000 == 0 && Word(h[6], h[7]) / 0x2000 % 2 == 0
    && InternetChecksum(h) == 0 && h[12..16] == src && h[16..20] == dst
  }

  /**
   An echo reply, as RFC 792 describes it, to a request built here is accepted, under any such
   header and whatever padding follows, exactly when its sender has a proper hardware address.
   */
  lemma ReplyAccepted(me: Host, peer: Host, seqNo: nat, h: seq<byte>, pad: seq<byte>)
    requires ProperHost(me) && ProperHost(peer) && seqNo <= 0xFFFF && ReplyHeader(h, peer.ip, me.ip)
    ensures var f := me.mac + peer.mac + [0x08, 0x00] + h + Checked(Icmp(0, seqNo), 2) + pad;
      ReplyOk(f, me, peer.ip, seqNo) <==> MacValid(peer.mac)
  {
    hide InternetChecksum, Stored, MacValid;
    var m := Checked(Icmp(0, seqNo), 2);
    var f := me.mac + peer.mac + [0x08, 0x00] + h + m + pad;
    IcmpFields(seqNo);
    StoredVerifies(Icmp(0, seqNo), 2);
    assert |m| == ICMP_MIN + PAYLOAD;
    hide Checked, Icmp, PayloadByte;
    var ip := f[ETH_MIN..];
    assert ip == h + m + pad && f[6..12] == peer.mac && f[..6] == me.mac && f[12..14] == [0x08, 0x00];
    assert |ip| == IPV4_MIN + ICMP_MIN + PAYLOAD + |pad|;
    assert ip[..IPV4_MIN] == h;
    assert ip[IPV4_MIN..IPV4_MIN + ICMP_MIN + PAYLOAD] == m;
    assert ip[12..16] == h[12..16] && ip[16..20] == h[16..20];
  }

  /** The station a frame is addressed to, and the one it comes from. */
  function Receiver(f: seq<byte>): Host
    requires |f| >= ETH_MIN + IPV4_MIN
  {
    Host(f[..6], f[ETH_MIN + 16..ETH_MIN + 20])
  }

  function Sender(f: seq<byte>): Host
    requires |f| >= ETH_MIN + IPV4_MIN
  {
    Host(f[6..12], f[ETH_MIN + 12..ETH_MIN + 16])
  }

  /**
   A request reaches the peer it was built for: a responder that answers as itself to the sender it
   reads in the frame, with the sequence number it reads there, has its reply accepted.
   */
  lemma RequestAnswered(me: Host, peer: Host, seqNo: nat, pad: seq<byte>)
    requires ProperHost(me) && ProperHost(peer) && MacValid(peer.mac) && seqNo <= 0xFFFF
    ensures var f := Frame(me, peer, 8, seqNo);
      var asked := Word(f[ETH_MIN + IPV4_MIN + 6], f[ETH_MIN + IPV4_MIN + 7]);
      && Receiver(f) == peer && Sender(f) == me && f[12..14] == [0x08, 0x00] && asked == seqNo
      && ReplyOk(Frame(Receiver(f), Sender(f), 0, asked) + pad, me, peer.ip, seqNo)
  {
    hide InternetChecksum, Stored, MacValid, ReplyOk, ReplyHeader;
    FrameFields(me, peer, 8, seqNo);
    var reply := Checked(Header(peer.ip, me.ip, seqNo), 10);
    OwnHeader(peer.ip, me.ip, seqNo);
    ReplyAccepted(me, peer, seqNo, reply, pad);
  }

  lemma FrameFields(from: Host, to: Host, kind: byte, seqNo: nat)
    requires ProperHost(from) && ProperHost(to) && seqNo <= 0xFFFF
    ensures var f := Frame(from, to, kind, seqNo);
      && Receiver(f) == to && Sender(f) == from && f[12..14] == [0x08, 0x00]
      && Word(f[ETH_MIN + IPV4_MIN + 6], f[ETH_MIN + IPV4_MIN + 7]) == seqNo
  {
    hide InternetChecksum;
    var f := Frame(from, to, kind, seqNo);
    var h, m := Checked(Header(from.ip, to.ip, seqNo), 10), Checked(Icmp(kind, seqNo), 2);
    HeaderFields(from.ip, to.ip, seqNo);
    assert m[6] == seqNo / 256 && m[7] == seqNo % 256;
    hide Checked, Header, Icmp;
    assert f[ETH_MIN + 12..ETH_MIN + 16] == h[12..16] && f[ETH_MIN + 16..ETH_MIN + 20] == h[16..20];
    assert f[ETH_MIN + IPV4_MIN + 6] == m[6] && f[ETH_MIN + IPV4_MIN + 7] == m[7];
  }

  /** The header this code would send in such a reply is one of them. */
  lemma OwnHeader(src: seq<byte>, dst: seq<byte>, seqNo: nat)
    requires seqNo <= 0xFFFF && |src| == 4 && |dst| == 4
    ensures ReplyHeader(Checked(Header(src, dst, seqNo), 10), src, dst)
  {
    hide InternetChecksum, Stored;
    HeaderFields(src, dst, seqNo);
    StoredVerifies(Header(src, dst, seqNo), 10);
  }

  lemma HeaderFields(src: seq<byte>, dst: seq<byte>, seqNo: nat)
    requires seqNo <= 0xFFFF && |src| == 4 && |dst| == 4
    ensures var h := Checked(Header(src, dst, seqNo), 10);
      && h[0] == 0x45 && h[9] == 1 && Word(h[2], h[3]) == IPV4_MIN + ICMP_MIN + PAYLOAD && Word(h[6], h[7]) == 0x4000
      && h[12..16] == src && h[16..20] == dst
  {
    hide InternetChecksum;
  }

  lemma IcmpFields(seqNo: nat)
    requires seqNo <= 0xFFFF
    ensures var m := Checked(Icmp(0, seqNo), 2);
      && m[0] == 0 && m[1] == 0 && m[4] == PING_ID / 256 && m[5] == PING_ID % 256 && Word(m[6], m[7]) == seqNo
      && (forall i: nat | i < PAYLOAD :: m[ICMP_MIN + i] == PayloadByte(i))
  {
    hide InternetChecksum;
    var m, plain := Checked(Icmp(0, seqNo), 2), Icmp(0, seqNo);
    forall i: nat | i < PAYLOAD ensures m[ICMP_MIN + i] == PayloadByte(i) {
      assert m[ICMP_MIN + i] == plain[ICMP_MIN + i] == Payload()[i];
    }
  }
}
