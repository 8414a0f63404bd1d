/**
 * The TCP client, its receive path first: one connection record with a 64 KiB buffer that is filled by
 * arriving segments and drained by reads. It refines the peer's byte stream: whatever the network
 * loses, repeats or reorders, the buffer is a prefix of the stream and every acknowledgement sent
 * before the peer's FIN names exactly the bytes that are in it. What it sends tells the same truth about
 * the bytes of its own program.
 */
module TcpReceive {
  import opened Basics

  type Port = n: nat | n < 0x1_0000
  type Word = n: nat | n < 0x1_0000_0000
  type Flags = n: nat | n < 64

  /** What an IP packet can carry: its length is 16 bits. */
  type Payload = p: seq<Byte> | |p| < 0x1_0000

  const SPAN := 0x1_0000_0000
  const CAPACITY := 65536
  const MAX_PAYLOAD := 1460
  const FIN: Flags := 0x01
  const SYN: Flags := 0x02
  const PSH: Flags := 0x08
  const ACK: Flags := 0x10

  // ----- Segments and their bytes -----

  datatype Segment = Segment(srcPort: Port, dstPort: Port, seqno: Word, ackno: Word, flags: Flags, data: seq<Byte>)

  predicate HasFin(f: Flags) { f % 2 == 1 }
  predicate HasSyn(f: Flags) { f / 2 % 2 == 1 }
  predicate HasAck(f: Flags) { f / 16 % 2 == 1 }

  /** The flags are bits 0, 1, 3 and 4, each read whatever the others are. */
  lemma FlagBits(f: Flags)
    ensures FIN == 1 && SYN == 2 && PSH == 8 && ACK == 16
    ensures HasFin(f) <==> f % 2 == 1
    ensures HasSyn(f) <==> f % 4 >= 2
    ensures HasAck(f) <==> f % 32 >= 16
  {
  }

  function Be16(p: seq<Byte>, i: nat): Port
    requires i + 2 <= |p|
  {
    p[i] as nat * 0x100 + p[i + 1] as nat
  }

  function Be32(p: seq<Byte>, i: nat): Word
    requires i + 4 <= |p|
  {
    Be16(p, i) as nat * 0x1_0000 + Be16(p, i + 2) as nat
  }

  function Bytes16(v: Port): (b: seq<Byte>)
    ensures |b| == 2 && Be16(b, 0) == v
  {
    [v / 0x100, v % 0x100]
  }

  function Bytes32(v: Word): (b: seq<Byte>)
    ensures |b| == 4 && Be32(b, 0) == v
  {
    Bytes16(v / 0x1_0000) + Bytes16(v % 0x1_0000)
  }

  /** The fields `tcp_handle` reads, or nothing for a segment that is too short for its own header. */
  function Parse(p: seq<Byte>): Option<Segment> {
    if |p| < 20 then None else
    var offsetFlags := Be16(p, 12);
    var header := offsetFlags / 0x1000 * 4;
    if header < 20 || |p| < header then None else
    Some(Segment(Be16(p, 0), Be16(p, 2), Be32(p, 4), Be32(p, 8), offsetFlags % 64, p[header..]))
  }

  /** The packet `tcp_send_segment` builds, its checksum left open. */
  function Packet(s: Segment, checksum: Port): seq<Byte> {
    Bytes16(s.srcPort) + Bytes16(s.dstPort) + Bytes32(s.seqno) + Bytes32(s.ackno) +
    Bytes16(5 * 0x1000 + s.flags) + Bytes16(4096) + Bytes16(checksum) + Bytes16(0) + s.data
  }

  /** Where each field is read from: ports, numbers and flags with the highest byte first, and the length of
      the header, options among it, in the upper half of byte 12, counted in words. */
  lemma ParseBytes(p: seq<Byte>)
    ensures Parse(p).Some? <==> |p| >= 20 && p[12] >= 0x50 && |p| >= 4 * (p[12] / 16)
    ensures Parse(p).Some? ==>
      var s := Parse(p).value;
      && s.srcPort == 0x100 * p[0] as nat + p[1] as nat && s.dstPort == 0x100 * p[2] as nat + p[3] as nat
      && s.seqno == 0x100_0000 * p[4] as nat + 0x1_0000 * p[5] as nat + 0x100 * p[6] as nat + p[7] as nat
      && s.ackno == 0x100_0000 * p[8] as nat + 0x1_0000 * p[9] as nat + 0x100 * p[10] as nat + p[11] as nat
      && s.flags == p[13] % 64 && s.data == p[4 * (p[12] / 16)..]
  {
    if |p| >= 20 {
      var hi: nat, lo: nat := p[12], p[13];
      assert Be16(p, 12) == 0x100 * hi + lo;
      assert (0x100 * hi + lo) / 0x1000 == hi / 16 && (0x100 * hi + lo) % 64 == lo % 64;
    }
  }

  /** The fields of a packet that `Parse` does not read: its window is 4096 bytes, its header five words. */
  lemma PacketBytes(s: Segment, checksum: Port)
    ensures var p := Packet(s, checksum);
      && |p| == 20 + |s.data| && p[12] == 0x50 && p[13] == s.flags
      && p[14] == 0x10 && p[15] == 0 && p[16] == checksum / 0x100 && p[17] == checksum % 0x100 && p[18] == p[19] == 0
  {
  }

  /** What one end of this stack sends, the other end reads back. */
  lemma PacketRoundTrip(s: Segment, checksum: Port)
    ensures Parse(Packet(s, checksum)) == Some(s)
  {
    var p := Packet(s, checksum);
    assert p[0..2] == Bytes16(s.srcPort) && p[2..4] == Bytes16(s.dstPort);
    assert p[4..8] == Bytes32(s.seqno) && p[8..12] == Bytes32(s.ackno);
    assert p[12..14] == Bytes16(5 * 0x1000 + s.flags);
    assert p[20..] == s.data;
  }

  // ----- Sequence numbers -----

  /** The sequence number `n` places after `isn`. */
  function SeqAt(isn: Word, n: nat): Word {
    (isn + n) % SPAN
  }

  /** The place in the peer's stream a sequence number stands for: the SYN takes up the first number. */
  function Offset(isn: Word, seqno: Word): nat {
    (seqno - isn - 1) % SPAN
  }

  lemma OffsetExact(isn: Word, seqno: Word, n: nat)
    requires n < SPAN
    ensures Offset(isn, seqno) == n <==> seqno == SeqAt(isn, 1 + n)
  {
  }

  lemma SeqAtAdd(isn: Word, a: nat, b: nat)
    ensures SeqAt(SeqAt(isn, a), b) == SeqAt(isn, a + b)
  {
  }

  // ----- Truthful peers -----

  datatype Peer = Peer(ip: Word, port: Port, local: Port, stream: seq<Byte>, isn: Word) {
    ghost predicate Sends(s: Segment, ip: Word) {
      ip == this.ip && s.srcPort == port && s.dstPort == local
    }

    /**
     * What the peer itself sends is true: a SYN carries its initial number, and data is the part of
     * its stream that the sequence number stands for. Nothing is asked of anyone else's segments, nor
     * of the order, the number of copies, the acknowledgements or the FIN.
     */
    ghost predicate Truthful(s: Segment, ip: Word) {
      Sends(s, ip) ==>
        && (HasSyn(s.flags) ==> s.seqno == isn)
        && (!HasSyn(s.flags) && s.data != [] ==>
            var o := Offset(isn, s.seqno);
            o + |s.data| <= |stream| && s.data == stream[o..o + |s.data|])
    }
  }

  lemma StreamGrows(stream: seq<Byte>, len: nat, data: seq<Byte>, kept: seq<Byte>)
    requires len + |data| <= |stream| && data == stream[len..len + |data|] && kept <= data
    ensures len + |kept| <= |stream| && stream[..len + |kept|] == stream[..len] + kept
  {
    assert forall i :: 0 <= i < |kept| ==> kept[i] == data[i] == stream[len + i];
  }

  lemma SliceJoined(s: seq<Byte>, a: nat, b: nat, c: nat)
    requires a <= b <= c <= |s|
    ensures s[a..b] + s[b..c] == s[a..c]
  {
  }

  /** How much is held after `n` bytes from place `o` arrive while `len` are held. */
  function Grown(len: nat, o: nat, n: nat): (r: nat)
    requires len <= CAPACITY
    ensures len <= r <= CAPACITY
  {
    if o == len then Min(len + n, CAPACITY) else len
  }

  /** How much is held after a segment arrives. */
  ghost function Held(s: Segment, ip: Word, p: Peer, receiving: bool, len: nat): nat
    requires len <= CAPACITY
  {
    if receiving && p.Sends(s, ip) then Grown(len, Offset(p.isn, s.seqno), |s.data|) else len
  }

  /** A segment that asks for no answer: from someone else, or one of the peer's that takes up no number. */
  ghost predicate Quiet(s: Segment, ip: Word, p: Peer) {
    p.Sends(s, ip) ==> s.data == [] && !HasFin(s.flags)
  }

  ghost predicate Ends(s: Segment, ip: Word, p: Peer) {
    p.Sends(s, ip) && HasFin(s.flags)
  }

  /** The answer to the SYN: from the peer, with both flags, and acknowledging it. */
  ghost predicate Answers(s: Segment, ip: Word, p: Peer, sndNxt: Word) {
    HasSyn(s.flags) && HasAck(s.flags) && p.Sends(s, ip) && s.ackno == sndNxt
  }

  /** How much of its data a segment with a FIN still has when the FIN is looked at. */
  ghost function Left(s: Segment, p: Peer, len: nat): nat
    requires len <= CAPACITY
  {
    if Offset(p.isn, s.seqno) == len then Min(|s.data|, CAPACITY - len) else |s.data|
  }

  /**
   * The FIN comes right after the bytes held: the segment starts where they end and there is room for all
   * of it, or it ends where they end.
   */
  ghost predicate FinInPlace(s: Segment, p: Peer, len: nat) {
    || (Offset(p.isn, s.seqno) == len && len + |s.data| <= CAPACITY)
    || (Offset(p.isn, s.seqno) + |s.data|) % SPAN == len
  }

  /** The next number wanted is the one after the FIN, and every byte before the FIN is held. */
  ghost predicate FinTaken(s: Segment, p: Peer, rcvNxt: Word, len: nat) {
    rcvNxt == SeqAt(s.seqno, |s.data| + 1) && (Offset(p.isn, s.seqno) + |s.data|) % SPAN == len
  }

  /** The answer to a FIN that came when `held` bytes were held, `len` being held now. */
  ghost predicate FinAnswered(s: Segment, p: Peer, rcvNxt: Word, len: nat, held: nat)
    requires held <= CAPACITY
  {
    rcvNxt == SeqAt(s.seqno, Left(s, p, held) + 1) && (FinTaken(s, p, rcvNxt, len) <==> FinInPlace(s, p, held))
  }

  lemma FinTakenExactly(s: Segment, p: Peer, len: nat)
    requires len <= CAPACITY && |s.data| < 0x1_0000
    ensures FinTaken(s, p, SeqAt(s.seqno, Left(s, p, len) + 1), Grown(len, Offset(p.isn, s.seqno), |s.data|)) <==>
            FinInPlace(s, p, len)
  {
    SeqAtPeriod(s.seqno, Left(s, p, len) + 1, |s.data| + 1);
    Shifted(Offset(p.isn, s.seqno) + |s.data|, Grown(len, Offset(p.isn, s.seqno), |s.data|));
  }

  lemma SeqAtPeriod(isn: Word, a: nat, b: nat)
    ensures SeqAt(isn, a) == SeqAt(isn, b) <==> (a - b) % SPAN == 0
  {
  }

  lemma Shifted(x: nat, len: nat)
    requires len < SPAN
    ensures (x - len) % SPAN == 0 <==> x % SPAN == len
  {
  }

  // ----- What is sent -----

  /** How many numbers a segment takes up. */
  function Takes(s: Segment): nat {
    if HasSyn(s.flags) || HasFin(s.flags) then 1 else |s.data|
  }

  /** The data of the segment is the part of `out` from `o` on, and its number says so. */
  ghost predicate IsPart(s: Segment, isn: Word, out: seq<Byte>, o: nat) {
    o + |s.data| <= |out| && s.seqno == SeqAt(isn, 1 + o) && s.data == out[o..o + |s.data|]
  }

  ghost predicate Says(s: Segment, isn: Word, out: seq<Byte>) {
    && (HasSyn(s.flags) ==> s.seqno == isn) && (HasSyn(s.flags) || HasFin(s.flags) ==> s.data == [])
    && (s.data != [] ==> exists o: nat :: IsPart(s, isn, out, o))
  }

  /** Every segment from `since` on carries a part of `out` under its number. */
  ghost predicate AllSay(sent: seq<Segment>, since: nat, isn: Word, out: seq<Byte>) {
    since <= |sent| && forall i :: since <= i < |sent| ==> Says(sent[i], isn, out)
  }

  lemma SaysMore(s: Segment, isn: Word, out: seq<Byte>, more: seq<Byte>)
    requires Says(s, isn, out)
    ensures Says(s, isn, out + more)
  {
    if s.data != [] {
      var o: nat :| IsPart(s, isn, out, o);
      assert IsPart(s, isn, out + more, o);
    }
  }

  lemma AllSayMore(sent: seq<Segment>, since: nat, isn: Word, out: seq<Byte>, more: seq<Byte>, s: Segment)
    requires AllSay(sent, since, isn, out) && Says(s, isn, out + more)
    ensures AllSay(sent + [s], since, isn, out + more)
  {
    forall i | since <= i < |sent| ensures Says(sent[i], isn, out + more) {
      SaysMore(sent[i], isn, out, more);
    }
  }

  /** Data under the number that follows all of `out` makes it longer. */
  lemma NextPart(sent: seq<Segment>, since: nat, isn: Word, out: seq<Byte>, s: Segment)
    requires AllSay(sent, since, isn, out) && s.seqno == SeqAt(isn, 1 + |out|) && !HasSyn(s.flags) && !HasFin(s.flags)
    ensures AllSay(sent + [s], since, isn, out + s.data)
    ensures SeqAt(s.seqno, Takes(s)) == SeqAt(isn, 1 + |out + s.data|)
  {
    assert IsPart(s, isn, out + s.data, |out|);
    AllSayMore(sent, since, isn, out, s.data, s);
    SeqAtAdd(isn, 1 + |out|, |s.data|);
  }

  /** What has been acknowledged, and whether there is more to wait for, after a segment arrives. */
  function Acknowledged(una: Word, nxt: Word, waiting: bool, s: Segment): (Word, bool) {
    if !HasAck(s.flags) then (una, waiting)
    else (if s.ackno > una then s.ackno else una, waiting && s.ackno < nxt)
  }

  /**
   * Numbers are compared as they are. Of `total` numbers sent, the acknowledgement of the first `n` ends the
   * waiting exactly when it is all of them or when the numbers start again at zero between the two.
   */
  lemma AckExactly(una: Word, isn: Word, total: nat, s: Segment, n: nat)
    requires n <= total < n + SPAN && HasAck(s.flags) && s.ackno == SeqAt(isn, n)
    ensures !Acknowledged(una, SeqAt(isn, total), true, s).1 <==> n == total || (isn + n) / SPAN < (isn + total) / SPAN
  {
  }

  /** The answer to a SYN, come again after four bytes were sent, ends the waiting for them. */
  lemma AckWrapped()
    ensures var isn := 0xFFFF_FFFE;
      var s := Segment(80, 1024, 0, SeqAt(isn, 1), SYN + ACK, []);
      Acknowledged(SeqAt(isn, 1), SeqAt(isn, 1 + 4), true, s) == (0xFFFF_FFFF, false)
  {
  }

  // ----- The connection -----

  datatype Phase = Closed | SynSent | Established | FinWait | CloseWait

  class Connection {
    var state: Phase
    var destIp: Word
    var destPort: Port
    var srcPort: Port
    var sndNxt: Word
    var sndUna: Word
    var rcvNxt: Word
    const recvBuf: array<Byte>
    var recvLen: nat
    var recvRead: nat
    var lastPayload: seq<Byte>
    var lastLen: nat
    var lastFlags: Flags
    var lastSeq: Word
    var waitingAck: bool
    /** Everything handed to the IP layer so far. */
    var sent: seq<Segment>
    /** The bytes the program has sent since it connected, the number before them, whether a FIN followed
        them, and how many segments had been sent before. */
    ghost var out: seq<Byte>
    ghost var isn: Word
    ghost var ended: bool
    ghost var since: nat

    ghost predicate Valid()
      reads this
    {
      recvBuf.Length == CAPACITY && recvRead <= recvLen <= CAPACITY && lastLen <= |lastPayload| <= MAX_PAYLOAD
    }

    predicate Receiving()
      reads this
    {
      state == Established || state == FinWait
    }

    /** The connection is to this peer and holds a prefix of its stream. */
    ghost predicate Follows(p: Peer)
      reads this, recvBuf
    {
      && Valid() && p.ip == destIp && p.port == destPort && p.local == srcPort
      && recvLen <= |p.stream| && recvBuf[..recvLen] == p.stream[..recvLen]
      && (state == SynSent ==> recvLen == 0)
      && (Receiving() ==> rcvNxt == SeqAt(p.isn, 1 + recvLen))
    }

    /** What is kept for sending again is the segment sent last, and the next number follows it. */
    ghost predicate Recalls()
      reads `sent, `since, `srcPort, `destPort, `sndNxt, `lastFlags, `lastSeq, `lastLen, `lastPayload
    {
      && since < |sent|
      && var last := sent[|sent| - 1];
      && last.srcPort == srcPort && last.dstPort == destPort && lastFlags == last.flags && lastSeq == last.seqno
      && lastLen == |last.data| <= |lastPayload| && lastPayload[..lastLen] == last.data
      && sndNxt == SeqAt(last.seqno, Takes(last))
    }

    /** Every segment sent since the connect tells the truth about `out`, and the next number follows it. */
    ghost predicate Tells()
      reads `sent, `since, `srcPort, `destPort, `sndNxt, `lastFlags, `lastSeq, `lastLen, `lastPayload, `isn, `out, `ended
    {
      Recalls() && AllSay(sent, since, isn, out) && sndNxt == SeqAt(isn, 1 + |out| + if ended then 1 else 0)
    }

    /** So it is, and the FIN has not been sent while the program may still send. */
    ghost predicate Speaking()
      reads `sent, `since, `srcPort, `destPort, `sndNxt, `lastFlags, `lastSeq, `lastLen, `lastPayload, `isn, `out, `ended
      reads `state
    {
      Tells() && (state == SynSent || state == Established ==> !ended)
    }

    /** `net_init`, as far as the connection goes. */
    constructor ()
      ensures Valid() && state == Closed && recvLen == 0 && sent == [] && fresh(recvBuf)
    {
      state, destIp, destPort, srcPort := Closed, 0, 0, 0;
      sndNxt, sndUna, rcvNxt := 0, 0, 0;
      recvBuf := new Byte[CAPACITY](_ => 0);
      recvLen, recvRead := 0, 0;
      lastPayload, lastLen, lastFlags, lastSeq, waitingAck := [], 0, 0, 0, false;
      sent := [];
      out, isn, ended, since := [], 0, false, 0;
    }

    /** `tcp_send_segment`: the packet it builds has room for what every caller passes. */
    method SendSegment(flags: Flags, data: seq<Byte>)
      requires |data| <= MAX_PAYLOAD && |lastPayload| <= MAX_PAYLOAD
      modifies `sndNxt, `lastPayload, `lastLen, `lastFlags, `lastSeq, `waitingAck, `sent
      ensures lastLen <= |lastPayload| <= MAX_PAYLOAD
      ensures sent == old(sent) + [Segment(srcPort, destPort, old(sndNxt), rcvNxt, flags, data)]
      ensures sndNxt == SeqAt(old(sndNxt), if HasSyn(flags) || HasFin(flags) then 1 else |data|)
      ensures waitingAck == (old(waitingAck) || HasSyn(flags) || HasFin(flags) || data != [])
      ensures since <= |old(sent)| ==> Recalls()
    {
      sent := sent + [Segment(srcPort, destPort, sndNxt, rcvNxt, flags, data)];
      lastFlags, lastSeq, lastLen := flags, sndNxt, |data|;
      if |data| > 0 {
        lastPayload := data;
      }
      if HasSyn(flags) || HasFin(flags) {
        sndNxt := SeqAt(sndNxt, 1);
      } else {
        sndNxt := SeqAt(sndNxt, |data|);
      }
      if HasSyn(flags) || HasFin(flags) || |data| > 0 {
        waitingAck := true;
      }
    }

    /** A segment that takes up no number. */
    method Acknowledge()
      requires |lastPayload| <= MAX_PAYLOAD
      modifies `sndNxt, `lastPayload, `lastLen, `lastFlags, `lastSeq, `waitingAck, `sent
      ensures lastLen <= |lastPayload| <= MAX_PAYLOAD && sndNxt == old(sndNxt) && waitingAck == old(waitingAck)
      ensures sent == old(sent) + [Segment(srcPort, destPort, sndNxt, rcvNxt, ACK, [])]
      ensures old(Tells()) ==> Tells()
    {
      if Tells() {
        AllSayMore(sent, since, isn, out, [], Segment(srcPort, destPort, sndNxt, rcvNxt, ACK, []));
        assert out + [] == out;
      }
      SendSegment(ACK, []);
    }

    /** The first segment of a connection. */
    method Open(initial: Word)
      requires |lastPayload| <= MAX_PAYLOAD && state == SynSent && sndNxt == initial
      modifies `sndNxt, `lastPayload, `lastLen, `lastFlags, `lastSeq, `waitingAck, `sent, `out, `isn, `ended, `since
      ensures lastLen <= |lastPayload| <= MAX_PAYLOAD && waitingAck
      ensures sent == old(sent) + [Segment(srcPort, destPort, initial, rcvNxt, SYN, [])]
      ensures Speaking() && out == [] && isn == initial && since == |old(sent)|
    {
      out, isn, ended, since := [], initial, false, |sent|;
      AllSayMore(sent, since, isn, out, [], Segment(srcPort, destPort, sndNxt, rcvNxt, SYN, []));
      assert out + [] == out;
      SendSegment(SYN, []);
    }

    /** The next bytes of the program. */
    method Utter(piece: seq<Byte>)
      requires |piece| <= MAX_PAYLOAD && |lastPayload| <= MAX_PAYLOAD && piece != [] && state == Established
      modifies `sndNxt, `lastPayload, `lastLen, `lastFlags, `lastSeq, `waitingAck, `sent, `out
      ensures lastLen <= |lastPayload| <= MAX_PAYLOAD && waitingAck
      ensures sent == old(sent) + [Segment(srcPort, destPort, old(sndNxt), rcvNxt, ACK + PSH, piece)]
      ensures out == old(out) + piece && (old(Speaking()) ==> Speaking())
    {
      if Speaking() {
        NextPart(sent, since, isn, out, Segment(srcPort, destPort, sndNxt, rcvNxt, ACK + PSH, piece));
      }
      SendSegment(ACK + PSH, piece);
      out := out + piece;
    }

    /** The end of what the program sends. */
    method Finish()
      requires |lastPayload| <= MAX_PAYLOAD && state == Established
      modifies `sndNxt, `lastPayload, `lastLen, `lastFlags, `lastSeq, `waitingAck, `sent, `ended, `state
      ensures lastLen <= |lastPayload| <= MAX_PAYLOAD && waitingAck && state == FinWait
      ensures sent == old(sent) + [Segment(srcPort, destPort, old(sndNxt), rcvNxt, FIN + ACK, [])]
      ensures old(Speaking()) ==> Speaking()
    {
      if Speaking() {
        AllSayMore(sent, since, isn, out, [], Segment(srcPort, destPort, sndNxt, rcvNxt, FIN + ACK, []));
        SeqAtAdd(isn, 1 + |out|, 1);
        assert out + [] == out;
      }
      SendSegment(FIN + ACK, []);
      state, ended := FinWait, true;
    }

    /** The segment sent last, once more. */
    method Repeat(data: seq<Byte>)
      requires |lastPayload| <= MAX_PAYLOAD && |data| <= MAX_PAYLOAD
      requires Speaking() ==> data == sent[|sent| - 1].data && Takes(sent[|sent| - 1]) > 0
      modifies `sndNxt, `lastPayload, `lastLen, `lastFlags, `lastSeq, `waitingAck, `sent
      ensures lastLen <= |lastPayload| <= MAX_PAYLOAD
      ensures sent == old(sent) + [Segment(srcPort, destPort, old(lastSeq), rcvNxt, old(lastFlags), data)]
      ensures old(Speaking()) ==>
        Speaking() && sndNxt == old(sndNxt) && waitingAck && sent == old(sent) + [old(sent)[|old(sent)| - 1].(ackno := rcvNxt)]
    {
      if Speaking() {
        SaidAgain();
      }
      sndNxt := lastSeq;
      SendSegment(lastFlags, data);
    }

    /** `net_tcp_connect`: the record is ready for any peer at that address, whatever it held before. */
    method Connect(up: bool, ip: Word, port: Port, ticks: nat, initial: Word) returns (ok: bool)
      requires Valid()
      modifies this
      ensures Valid() && ok == up
      ensures ok ==> state == SynSent && recvRead == 0 && destIp == ip && destPort == port && srcPort == 1024 + ticks % 40000
      ensures ok ==> forall p: Peer :: p.ip == ip && p.port == port && p.local == srcPort ==> Follows(p)
      ensures ok ==> sent == old(sent) + [Segment(srcPort, port, initial, 0, SYN, [])] && sndUna == initial && waitingAck
      ensures ok ==> Speaking() && out == [] && isn == initial && since == |old(sent)|
      ensures !ok ==> unchanged(this)
    {
      if !up {
        return false;
      }
      Begin(ip, port, 1024 + ticks % 40000, initial);
      return true;
    }

    /** The record set afresh, and the SYN sent. */
    method Begin(ip: Word, port: Port, local: Port, initial: Word)
      requires Valid()
      modifies this
      ensures Valid() && state == SynSent && recvLen == recvRead == 0 && destIp == ip && destPort == port && srcPort == local
      ensures sent == old(sent) + [Segment(local, port, initial, 0, SYN, [])] && sndUna == initial && waitingAck
      ensures Speaking() && out == [] && isn == initial && since == |old(sent)|
    {
      Clear(ip, port, local, initial);
      Open(initial);
    }

    method Clear(ip: Word, port: Port, local: Port, initial: Word)
      modifies `state, `destIp, `destPort, `srcPort, `sndNxt, `sndUna, `rcvNxt, `recvLen, `recvRead, `waitingAck
      ensures state == SynSent && destIp == ip && destPort == port && srcPort == local
      ensures sndNxt == sndUna == initial && rcvNxt == recvLen == recvRead == 0 && !waitingAck
    {
      destIp, destPort, srcPort := ip, port, local;
      sndNxt, sndUna, rcvNxt := initial, initial, 0;
      recvLen, recvRead, waitingAck := 0, 0, false;
      state := SynSent;
    }

    /** The other end has answered the SYN and numbers its bytes from `seqno` on. */
    method Establish(seqno: Word)
      requires |lastPayload| <= MAX_PAYLOAD && state == SynSent
      modifies `state, `rcvNxt, `sndUna, `sndNxt, `lastPayload, `lastLen, `lastFlags, `lastSeq, `waitingAck, `sent
      ensures lastLen <= |lastPayload| <= MAX_PAYLOAD && state == Established && rcvNxt == SeqAt(seqno, 1)
      ensures sndNxt == old(sndNxt) == sndUna && !waitingAck && (old(Speaking()) ==> Speaking())
      ensures sent == old(sent) + [Segment(srcPort, destPort, sndNxt, rcvNxt, ACK, [])]
    {
      rcvNxt := SeqAt(seqno, 1);
      sndUna := sndNxt;
      waitingAck := false;
      state := Established;
      Acknowledge();
    }

    /** The part of `tcp_handle` that waits for the answer to the SYN. */
    method HandleSynSent(s: Segment, ip: Word, ghost p: Peer)
      requires Follows(p) && p.Truthful(s, ip) && state == SynSent
      modifies `state, `rcvNxt, `sndNxt, `sndUna, `lastPayload, `lastLen, `lastFlags, `lastSeq, `waitingAck, `sent
      ensures Follows(p)
      ensures sndNxt == old(sndNxt) && (old(Speaking()) ==> Speaking())
      ensures if state == Established then sndUna == sndNxt && !waitingAck else sndUna == old(sndUna) && waitingAck == old(waitingAck)
      ensures Progress(old(sent), p)
      ensures state == if Answers(s, ip, p, old(sndNxt)) then Established else SynSent
      ensures Replies(old(sent), recvLen)
    {
      if HasSyn(s.flags) && HasAck(s.flags) && ip == destIp && s.srcPort == destPort && s.dstPort == srcPort &&
         s.ackno == sndNxt {
        Establish(s.seqno);
      }
    }

    /** The segments sent since then take up no number, and there are some if more is held now. */
    ghost predicate Replies(before: seq<Segment>, len: nat)
      reads `sent, `recvLen
    {
      && before <= sent && (recvLen > len ==> before != sent)
      && forall i :: |before| <= i < |sent| ==> Takes(sent[i]) == 0
    }

    /** Every segment sent since then names, as the next byte wanted, the end of what is held. */
    ghost predicate Progress(before: seq<Segment>, p: Peer)
      reads this
    {
      before <= sent && forall i :: |before| <= i < |sent| ==> sent[i].ackno == SeqAt(p.isn, 1 + recvLen)
    }

    method HandleAck(s: Segment)
      modifies `sndUna, `waitingAck
      ensures (sndUna, waitingAck) == Acknowledged(old(sndUna), sndNxt, old(waitingAck), s)
      ensures old(Speaking()) ==> Speaking()
    {
      if HasAck(s.flags) {
        if s.ackno > sndUna {
          sndUna := s.ackno;
        }
        if s.ackno >= sndNxt {
          waitingAck := false;
        }
      }
    }

    /** Data is kept exactly when it starts where the buffer ends, as much of it as there is room for. */
    method HandleData(s: Segment, ip: Word, ghost p: Peer) returns (kept: seq<Byte>)
      requires Follows(p) && p.Truthful(s, ip) && p.Sends(s, ip) && Receiving()
      modifies `rcvNxt, `sndNxt, `lastPayload, `lastLen, `lastFlags, `lastSeq, `waitingAck, `sent, `recvLen, recvBuf
      ensures Follows(p) && sndNxt == old(sndNxt) && waitingAck == old(waitingAck) && (old(Speaking()) ==> Speaking())
      ensures recvLen == Grown(old(recvLen), Offset(p.isn, s.seqno), |s.data|)
      ensures Progress(old(sent), p) && Replies(old(sent), old(recvLen))
      ensures kept <= s.data && |kept| == Left(s, p, old(recvLen))
      ensures s.data == [] ==> sent == old(sent)
    {
      kept := s.data;
      OffsetExact(p.isn, s.seqno, recvLen);
      if |kept| > 0 && s.seqno == rcvNxt {
        var space := CAPACITY - recvLen;
        if |kept| > space {
          kept := kept[..space];
        }
        StreamGrows(p.stream, recvLen, s.data, kept);
        Accept(kept, p);
      }
    }

    /** The next bytes of the stream are taken in and acknowledged. */
    method Accept(kept: seq<Byte>, ghost p: Peer)
      requires Follows(p) && Receiving() && recvLen + |kept| <= CAPACITY && recvLen + |kept| <= |p.stream|
      requires p.stream[..recvLen + |kept|] == p.stream[..recvLen] + kept
      modifies `rcvNxt, `sndNxt, `lastPayload, `lastLen, `lastFlags, `lastSeq, `waitingAck, `sent, `recvLen, recvBuf
      ensures Follows(p) && Progress(old(sent), p) && Replies(old(sent), old(recvLen))
      ensures sndNxt == old(sndNxt) && waitingAck == old(waitingAck) && (old(Speaking()) ==> Speaking())
      ensures recvLen == old(recvLen) + |kept|
    {
      Store(kept);
      SeqAtAdd(p.isn, 1 + old(recvLen), |kept|);
      rcvNxt := SeqAt(rcvNxt, |kept|);
      Acknowledge();
    }

    method Store(data: seq<Byte>)
      requires recvBuf.Length == CAPACITY && recvLen + |data| <= CAPACITY
      modifies `recvLen, recvBuf
      ensures recvLen == old(recvLen) + |data| && recvBuf[..recvLen] == old(recvBuf[..recvLen]) + data
    {
      for i := 0 to |data|
        invariant recvLen == old(recvLen) && recvBuf[..recvLen + i] == old(recvBuf[..recvLen]) + data[..i]
      {
        recvBuf[recvLen + i] := data[i];
      }
      recvLen := recvLen + |data|;
    }

    /**
     * A FIN ends the receiving, wherever it stands in the stream. The number acknowledged is the one after
     * what is left of the segment's data, which is right exactly when the FIN comes right after the bytes held.
     */
    method HandleFin(s: Segment, kept: seq<Byte>, ghost p: Peer, ghost held: nat)
      requires Follows(p) && Receiving() && HasFin(s.flags) && |s.data| < 0x1_0000 && held <= CAPACITY
      requires recvLen == Grown(held, Offset(p.isn, s.seqno), |s.data|) && |kept| == Left(s, p, held)
      modifies `state, `rcvNxt, `sndNxt, `lastPayload, `lastLen, `lastFlags, `lastSeq, `waitingAck, `sent
      ensures Follows(p) && sndNxt == old(sndNxt) && waitingAck == old(waitingAck) && (old(Tells()) ==> Tells())
      ensures state == if old(state) == Established then CloseWait else Closed
      ensures FinAnswered(s, p, rcvNxt, recvLen, held)
      ensures Replies(old(sent), recvLen)
    {
      FinTakenExactly(s, p, held);
      rcvNxt := SeqAt(s.seqno, |kept| + 1);
      Acknowledge();
      if state == Established {
        state := CloseWait;
      } else {
        state := Closed;
      }
    }

    /** The part of `tcp_handle` for a segment of the peer while the connection is open. */
    method HandleOpen(s: Segment, ip: Word, ghost p: Peer)
      requires Follows(p) && p.Truthful(s, ip) && p.Sends(s, ip) && Receiving() && |s.data| < 0x1_0000
      modifies `state, `rcvNxt, `sndNxt, `sndUna, `lastPayload, `lastLen, `lastFlags, `lastSeq, `waitingAck, `sent, `recvLen, recvBuf
      ensures Follows(p) && Replies(old(sent), old(recvLen))
      ensures sndNxt == old(sndNxt) && (old(Speaking()) ==> Speaking())
      ensures (sndUna, waitingAck) == Acknowledged(old(sndUna), sndNxt, old(waitingAck), s)
      ensures recvLen == Grown(old(recvLen), Offset(p.isn, s.seqno), |s.data|)
      ensures s.data == [] && !HasFin(s.flags) ==> sent == old(sent)
      ensures Receiving() <==> !HasFin(s.flags)
      ensures HasFin(s.flags) ==> FinAnswered(s, p, rcvNxt, recvLen, old(recvLen))
      ensures Receiving() ==> Progress(old(sent), p)
    {
      ghost var held := recvLen;
      OffsetExact(p.isn, s.seqno, recvLen);
      HandleAck(s);
      var kept := HandleData(s, ip, p);
      if HasFin(s.flags) {
        HandleFin(s, kept, p, held);
      }
    }

    /** `tcp_handle`: any payload from anyone. */
    method Handle(payload: Payload, ip: Word, ghost p: Peer)
      requires Follows(p) && (Parse(payload).Some? ==> p.Truthful(Parse(payload).value, ip))
      modifies `state, `rcvNxt, `sndNxt, `sndUna, `lastPayload, `lastLen, `lastFlags, `lastSeq, `waitingAck, `sent, `recvLen, recvBuf
      ensures Follows(p) && Replies(old(sent), old(recvLen))
      ensures sndNxt == old(sndNxt) && (old(Speaking()) ==> Speaking())
      ensures old(Receiving()) ==>
                (sndUna, waitingAck) ==
                  if Parse(payload).Some? && p.Sends(Parse(payload).value, ip)
                  then Acknowledged(old(sndUna), sndNxt, old(waitingAck), Parse(payload).value)
                  else (old(sndUna), old(waitingAck))
      ensures old(Receiving()) && (Parse(payload).None? || Quiet(Parse(payload).value, ip, p)) ==> sent == old(sent)
      ensures recvLen == if Parse(payload).None? then old(recvLen)
                         else Held(Parse(payload).value, ip, p, old(Receiving()), old(recvLen))
      ensures Parse(payload).Some? && old(Receiving()) && Ends(Parse(payload).value, ip, p) ==> !Receiving()
      ensures Parse(payload).Some? && old(Receiving()) && Ends(Parse(payload).value, ip, p) ==>
                FinAnswered(Parse(payload).value, p, rcvNxt, recvLen, old(recvLen))
      ensures old(state) == SynSent ==>
                (state == Established <==> Parse(payload).Some? && Answers(Parse(payload).value, ip, p, old(sndNxt)))
      ensures Receiving() ==> Progress(old(sent), p)
      ensures old(Receiving()) && (Parse(payload).Some? ==> !Ends(Parse(payload).value, ip, p)) ==> Receiving()
    {
      var parsed := Parse(payload);
      if parsed.None? {
        return;
      }
      var s := parsed.value;
      if state == SynSent {
        HandleSynSent(s, ip, p);
      } else if Receiving() {
        if ip != destIp || s.srcPort != destPort || s.dstPort != srcPort {
          return;
        }
        HandleOpen(s, ip, p);
      }
    }

    /** `net_tcp_recv`: the next bytes of the stream, as many as are held and asked for. */
    method Recv(max: nat, ghost p: Peer) returns (out: seq<Byte>)
      requires Follows(p)
      modifies `recvRead
      ensures Follows(p) && recvRead == old(recvRead) + Min(max, recvLen - old(recvRead))
      ensures out == p.stream[old(recvRead)..recvRead]
    {
      var available := recvLen - recvRead;
      if available > max {
        available := max;
      }
      ghost var held := recvBuf[..recvLen];
      out := recvBuf[recvRead..recvRead + available];
      assert forall i :: 0 <= i < available ==> out[i] == held[recvRead + i] == p.stream[recvRead + i];
      recvRead := recvRead + available;
    }

    /** `net_tcp_send`. */
    method Send(data: seq<Byte>, ghost p: Peer) returns (ok: bool)
      requires Follows(p)
      modifies `sndNxt, `lastPayload, `lastLen, `lastFlags, `lastSeq, `waitingAck, `sent, `out
      ensures Follows(p)
      ensures ok <==> state == Established && data != []
      ensures Receiving() ==> Progress(old(sent), p)
      ensures if ok then sent == old(sent) + [Segment(srcPort, destPort, old(sndNxt), rcvNxt, ACK + PSH, data[..Min(|data|, 1460)])] && waitingAck
              else sent == old(sent) && waitingAck == old(waitingAck)
      ensures old(Speaking()) ==> Speaking() && out == old(out) + if ok then data[..Min(|data|, 1460)] else []
    {
      if state != Established || |data| == 0 {
        return false;
      }
      Utter(data[..Min(|data|, MAX_PAYLOAD)]);
      return true;
    }

    /** `net_tcp_close`. */
    method Close(ghost p: Peer)
      requires Follows(p)
      modifies `sndNxt, `lastPayload, `lastLen, `lastFlags, `lastSeq, `waitingAck, `sent, `ended, `state
      ensures Follows(p)
      ensures state == if old(state) == Established then FinWait else old(state)
      ensures Receiving() ==> Progress(old(sent), p)
      ensures if old(state) == Established
              then sent == old(sent) + [Segment(srcPort, destPort, old(sndNxt), rcvNxt, FIN + ACK, [])] && waitingAck
              else sent == old(sent) && waitingAck == old(waitingAck)
      ensures old(Speaking()) ==> Speaking()
    {
      if state == Established {
        Finish();
      }
    }

    /**
     * The resending half of `net_poll`; `late` says that a second has gone by. The segment sent last goes out
     * again, with what is wanted now. When that one took up no number, nothing does, whatever is waited for.
     */
    method Poll(late: bool, ghost p: Peer)
      requires Follows(p)
      modifies `sndNxt, `lastPayload, `lastLen, `lastFlags, `lastSeq, `waitingAck, `sent
      ensures Follows(p)
      ensures Receiving() ==> Progress(old(sent), p)
      ensures old(sent) <= sent
      ensures old(Speaking()) ==>
                && Speaking() && sndNxt == old(sndNxt)
                && var last := old(sent)[|old(sent)| - 1];
                if late && (state == SynSent || old(waitingAck)) && Takes(last) > 0
                then sent == old(sent) + [last.(ackno := rcvNxt)] && waitingAck
                else sent == old(sent) && waitingAck == old(waitingAck)
    {
      if (state == SynSent || waitingAck) && late {
        if HasSyn(lastFlags) || HasFin(lastFlags) {
          Repeat([]);
        } else if lastLen > 0 {
          Repeat(lastPayload[..lastLen]);
        }
      }
    }

    lemma SaidAgain()
      requires Speaking()
      ensures
        var again := sent[|sent| - 1].(ackno := rcvNxt);
        AllSay(sent + [again], since, isn, out) && Says(sent[|sent| - 1], isn, out)
    {
      var last := sent[|sent| - 1];
      var again := last.(ackno := rcvNxt);
      if last.data != [] {
        var o: nat :| IsPart(last, isn, out, o);
        assert IsPart(again, isn, out, o);
      }
      assert out + [] == out;
      AllSayMore(sent, since, isn, out, [], again);
    }

    /** What this end sends is what the receiving half asks of its peer, for the first 2^32 bytes. */
    lemma SpeaksTruth(own: Word, i: nat)
      requires Speaking() && since <= i < |sent| && |out| <= SPAN
      ensures Peer(own, sent[i].srcPort, sent[i].dstPort, out, isn).Truthful(sent[i], own)
    {
      if sent[i].data != [] {
        var o: nat :| IsPart(sent[i], isn, out, o);
        OffsetExact(isn, sent[i].seqno, o);
      }
    }

    // ----- Whole runs -----

    /** Any mixture of arrivals, reads, writes, closing and polling; `read` is all that the reads returned,
        `told` all that the writes took. */
    method Run(events: seq<Event>, ghost p: Peer) returns (read: seq<Byte>, told: seq<Byte>)
      requires Follows(p) && AllTruthful(events, p)
      modifies this, recvBuf
      ensures Follows(p) && recvLen >= old(recvLen) && recvRead >= old(recvRead)
      ensures read == p.stream[old(recvRead)..recvRead] && Accepted(told, events)
      ensures isn == old(isn) && since == old(since) && (old(Speaking()) ==> Speaking() && out == old(out) + told)
    {
      read, told := [], [];
      for i := 0 to |events|
        invariant Follows(p) && old(recvLen) <= recvLen && old(recvRead) <= recvRead
        invariant read == p.stream[old(recvRead)..recvRead] && Accepted(told, events[..i])
        invariant isn == old(isn) && since == old(since) && (old(Speaking()) ==> Speaking() && out == old(out) + told)
      {
        ghost var was := recvRead;
        var more, took := Step(events[i], p);
        assert read + more == p.stream[old(recvRead)..recvRead] by {
          SliceJoined(p.stream, old(recvRead), was, recvRead);
        }
        AcceptedMore(told, events, i, took);
        read, told := read + more, told + took;
      }
      assert events[..|events|] == events;
    }

    /** One of them. */
    method Step(event: Event, ghost p: Peer) returns (more: seq<Byte>, took: seq<Byte>)
      requires Follows(p) && AllTruthful([event], p)
      modifies this, recvBuf
      ensures Follows(p) && recvLen >= old(recvLen) && recvRead >= old(recvRead)
      ensures more == p.stream[old(recvRead)..recvRead] && IsTaken(took, event)
      ensures isn == old(isn) && since == old(since) && (old(Speaking()) ==> Speaking() && out == old(out) + took)
    {
      more, took := [], [];
      match event
      case Arrives(payload, ip) =>
        assert event == [event][0];
        Handle(payload, ip, p);
      case Reads(max) => more := Recv(max, p);
      case Writes(data) =>
        var ok := Send(data, p);
        if ok {
          took := data[..Min(|data|, MAX_PAYLOAD)];
        }
      case Shuts => Close(p);
      case Polls(late) => Poll(late, p);
    }

    /** A whole session from the connect on: what the program reads is the start of what the peer wrote. */
    method Session(ip: Word, port: Port, ticks: nat, initial: Word, events: seq<Event>, ghost stream: seq<Byte>, ghost isn: Word)
      returns (read: seq<Byte>, told: seq<Byte>)
      requires Valid() && AllTruthful(events, Peer(ip, port, 1024 + ticks % 40000, stream, isn))
      modifies this, recvBuf
      ensures read <= stream && |read| <= recvLen <= CAPACITY
      ensures recvLen <= |stream| && recvBuf[..recvLen] == stream[..recvLen]
      ensures Receiving() ==> rcvNxt == SeqAt(isn, 1 + recvLen)
      ensures Speaking() && out == told && this.isn == initial && since == |old(sent)| && Accepted(told, events)
    {
      var _ := Connect(true, ip, port, ticks, initial);
      ghost var p := Peer(ip, port, 1024 + ticks % 40000, stream, isn);
      read, told := Run(events, p);
    }

    /** A run of segments none of which is the peer's FIN. */
    method HandleAll(arrivals: seq<Arrival>, ghost p: Peer)
      requires Follows(p) && Receiving() && AllPlain(arrivals, p)
      modifies this, recvBuf
      ensures Follows(p) && Receiving()
      ensures recvLen == HeldAfter(old(recvLen), Spans(arrivals, p))
    {
      ghost var len := recvLen;
      ghost var spans := Spans(arrivals, p);
      for i := 0 to |arrivals|
        invariant Follows(p) && Receiving()
        invariant recvLen == HeldAfter(len, spans[..i])
      {
        Handle(arrivals[i].payload, arrivals[i].ip, p);
        assert spans[..i + 1][..i] == spans[..i];
      }
      assert spans[..|arrivals|] == spans;
    }

    /** When the pieces of a stream that fits in the buffer arrive once in order, the buffer is the stream. */
    method ReceiveWhole(arrivals: seq<Arrival>, ghost p: Peer, ghost cuts: seq<nat>)
      requires Follows(p) && Receiving() && recvLen == 0 && AllPlain(arrivals, p)
      requires Cuts(cuts) && cuts[|cuts| - 1] == |p.stream|
      requires Pieces(Spans(arrivals, p), cuts) && InOrder(Spans(arrivals, p), cuts, |cuts| - 1)
      modifies this, recvBuf
      ensures Follows(p) && Receiving() && recvBuf[..recvLen] == p.stream
    {
      HandleAll(arrivals, p);
      ghost var i := Delivered(Spans(arrivals, p), cuts, |cuts| - 1);
      assert p.stream[..recvLen] == p.stream;
    }
  }

  /**
   * A stream one byte longer than the buffer, its last byte sent with the FIN: that byte is acknowledged
   * although it is not held, and the FIN is not.
   */
  method FullBufferFin() returns (c: Connection, ghost p: Peer)
    ensures fresh(c) && c.Follows(p) && !c.Receiving() && c.recvLen == CAPACITY && |p.stream| == CAPACITY + 1
    ensures c.rcvNxt == SeqAt(p.isn, 1 + |p.stream|)
  {
    c, p := FullBuffer(seq(CAPACITY + 1, _ => 0));
    Deliver(c, Segment(80, c.srcPort, 1 + CAPACITY, 0, FIN + ACK, [0]), p);
  }

  method FullBuffer(ghost stream: seq<Byte>) returns (c: Connection, ghost p: Peer)
    requires |stream| > CAPACITY && forall i :: 0 <= i < |stream| ==> stream[i] == 0
    ensures fresh(c) && fresh(c.recvBuf) && c.Follows(p) && c.Receiving() && c.recvLen == CAPACITY
    ensures p == Peer(1, 80, c.srcPort, stream, 0)
  {
    c, p := Dial(stream);
    var half: seq<Byte> := seq(32768, _ => 0);
    DeliverHalf(c, half, p, 0);
    DeliverHalf(c, half, p, 32768);
  }

  method DeliverHalf(c: Connection, half: seq<Byte>, ghost p: Peer, from: nat)
    requires c.Follows(p) && c.Receiving() && c.recvLen == from <= 32768 == |half| && from + 32768 <= |p.stream|
    requires p == Peer(1, 80, c.srcPort, p.stream, 0) && half == p.stream[from..from + 32768]
    modifies c, c.recvBuf
    ensures c.Follows(p) && c.Receiving() && c.recvLen == from + 32768 && c.srcPort == old(c.srcPort)
  {
    Deliver(c, Segment(80, c.srcPort, 1 + from, 0, ACK, half), p);
  }

  /** A connection to port 80 of a peer, just established. */
  method Dial(ghost stream: seq<Byte>) returns (c: Connection, ghost p: Peer)
    ensures fresh(c) && fresh(c.recvBuf) && c.Follows(p) && c.state == Established && c.recvLen == 0
    ensures p == Peer(1, 80, c.srcPort, stream, 0) && c.Speaking() && c.out == [] && c.isn == 0
  {
    c := new Connection();
    var _ := c.Connect(true, 1, 80, 0, 0);
    p := Peer(1, 80, c.srcPort, stream, 0);
    Deliver(c, Segment(80, c.srcPort, 0, c.sndNxt, SYN + ACK, []), p);
  }

  /**
   * A byte is sent, and before it is acknowledged one of the peer's arrives. Its acknowledgement takes the
   * place of what is kept for sending again: a late poll sends nothing, although the byte is waited for.
   */
  method ForgottenByte() returns (c: Connection, ghost p: Peer)
    ensures fresh(c) && c.Follows(p) && c.Speaking() && c.out == [7] && c.waitingAck
    ensures Takes(c.sent[|c.sent| - 1]) == 0
  {
    c, p := SentByte([9]);
    Deliver(c, Segment(80, c.srcPort, 1, 0, ACK, [9]), p);
    c.Poll(true, p);
  }

  method SentByte(ghost stream: seq<Byte>) returns (c: Connection, ghost p: Peer)
    ensures fresh(c) && fresh(c.recvBuf) && c.Follows(p) && c.state == Established && c.recvLen == 0
    ensures p == Peer(1, 80, c.srcPort, stream, 0) && c.Speaking() && c.out == [7] && c.sndNxt == 2 && c.waitingAck
  {
    c, p := Dial(stream);
    var _ := c.Send([7], p);
  }

  /** The segment arrives from the peer. */
  method Deliver(c: Connection, s: Segment, ghost p: Peer)
    requires c.Follows(p) && p.Truthful(s, p.ip) && p.Sends(s, p.ip) && |s.data| < 0x1_0000 - 20
    modifies c, c.recvBuf
    ensures c.Follows(p) && c.srcPort == old(c.srcPort) && c.recvLen == Held(s, p.ip, p, old(c.Receiving()), old(c.recvLen))
    ensures c.out == old(c.out) && c.isn == old(c.isn) && c.sndNxt == old(c.sndNxt) && c.Replies(old(c.sent), old(c.recvLen))
    ensures old(c.Speaking()) ==> c.Speaking()
    ensures old(c.Receiving()) ==>
      (c.sndUna, c.waitingAck) == Acknowledged(old(c.sndUna), c.sndNxt, old(c.waitingAck), s)
    ensures old(c.state) == SynSent ==> (c.state == Established <==> Answers(s, p.ip, p, old(c.sndNxt)))
    ensures old(c.Receiving()) ==> (c.Receiving() <==> !HasFin(s.flags))
    ensures old(c.Receiving()) && HasFin(s.flags) ==> c.rcvNxt == SeqAt(s.seqno, Left(s, p, old(c.recvLen)) + 1)
  {
    PacketRoundTrip(s, 0);
    c.Handle(Packet(s, 0), c.destIp, p);
  }

  datatype Event = Arrives(payload: Payload, ip: Word) | Reads(max: nat) | Writes(data: seq<Byte>) | Shuts | Polls(late: bool)

  ghost predicate AllTruthful(events: seq<Event>, p: Peer) {
    forall i :: 0 <= i < |events| && events[i].Arrives? && Parse(events[i].payload).Some? ==>
      p.Truthful(Parse(events[i].payload).value, events[i].ip)
  }

  /** What an event takes to be sent: of a write at most what a segment carries, or nothing. */
  ghost predicate IsTaken(took: seq<Byte>, event: Event) {
    took == [] || (event.Writes? && took == event.data[..Min(|event.data|, 1460)])
  }

  /** The bytes are those of some of the writes, in turn. */
  ghost predicate Accepted(told: seq<Byte>, events: seq<Event>)
    decreases |events|
  {
    if events == [] then told == []
    else
      var n := |events| - 1;
      exists k: nat :: k <= |told| && IsTaken(told[k..], events[n]) && Accepted(told[..k], events[..n])
  }

  lemma AcceptedMore(told: seq<Byte>, events: seq<Event>, i: nat, took: seq<Byte>)
    requires i < |events| && Accepted(told, events[..i]) && IsTaken(took, events[i])
    ensures Accepted(told + took, events[..i + 1])
  {
    assert events[..i + 1][..i] == events[..i];
    assert (told + took)[..|told|] == told && (told + took)[|told|..] == took;
  }

  // ----- Delivery -----

  datatype Arrival = Arrival(payload: Payload, ip: Word)

  ghost predicate AllPlain(arrivals: seq<Arrival>, p: Peer) {
    forall i :: 0 <= i < |arrivals| && Parse(arrivals[i].payload).Some? ==>
      var s := Parse(arrivals[i].payload).value;
      p.Truthful(s, arrivals[i].ip) && !Ends(s, arrivals[i].ip, p)
  }

  /** The part of the stream a segment carries. */
  datatype Span = Span(from: nat, size: nat)

  ghost function SpanOf(a: Arrival, p: Peer): Span {
    var s := Parse(a.payload);
    if s.Some? && p.Sends(s.value, a.ip) then Span(Offset(p.isn, s.value.seqno), |s.value.data|) else Span(0, 0)
  }

  ghost function Spans(arrivals: seq<Arrival>, p: Peer): seq<Span> {
    seq(|arrivals|, i requires 0 <= i < |arrivals| => SpanOf(arrivals[i], p))
  }

  /** How much is held after the spans arrive in turn. */
  function HeldAfter(len: nat, spans: seq<Span>): (r: nat)
    requires len <= CAPACITY
    ensures len <= r <= CAPACITY
  {
    if spans == [] then len else
    var n := |spans| - 1;
    Grown(HeldAfter(len, spans[..n]), spans[n].from, spans[n].size)
  }

  /** The peer cuts its stream at these places, always the same, and they fit in the buffer. */
  ghost predicate Cuts(cuts: seq<nat>) {
    && |cuts| > 0 && cuts[0] == 0
    && (forall i, j :: 0 <= i < j < |cuts| ==> cuts[i] < cuts[j])
    && cuts[|cuts| - 1] <= CAPACITY
  }

  /** Each span is one of the pieces between cuts, or empty. */
  ghost predicate Pieces(spans: seq<Span>, cuts: seq<nat>) {
    forall i :: 0 <= i < |spans| ==> spans[i].size == 0 || exists k :: IsPiece(spans[i], cuts, k)
  }

  ghost predicate IsPiece(s: Span, cuts: seq<nat>, k: int) {
    0 <= k < |cuts| - 1 && s.from == cuts[k] && s.from + s.size == cuts[k + 1]
  }

  /** Among the spans, the first `k` pieces arrive one after the other. */
  ghost predicate InOrder(spans: seq<Span>, cuts: seq<nat>, k: nat)
    decreases |spans|
  {
    k == 0 || (spans != [] &&
               var n := |spans| - 1;
               || InOrder(spans[..n], cuts, k)
               || (IsPiece(spans[n], cuts, k - 1) && InOrder(spans[..n], cuts, k - 1)))
  }

  /** One more piece moves the end of what is held from one cut to the next, or leaves it. */
  lemma NextCut(s: Span, cuts: seq<nat>, i: nat) returns (j: nat)
    requires Cuts(cuts) && i < |cuts| && cuts[i] <= CAPACITY && (s.size == 0 || exists k :: IsPiece(s, cuts, k))
    ensures i <= j < |cuts| && Grown(cuts[i], s.from, s.size) == cuts[j]
    ensures IsPiece(s, cuts, i) ==> j == i + 1
  {
    j := i;
    if s.size > 0 && s.from == cuts[i] {
      var k :| IsPiece(s, cuts, k);
      assert k == i;
      j := i + 1;
    }
  }

  /**
   * If, among any losses, copies and strays, the pieces of the stream arrive once in order, then all of
   * them are held: nothing that came between can do harm.
   */
  lemma {:induction false} Delivered(spans: seq<Span>, cuts: seq<nat>, k: nat) returns (i: nat)
    requires Cuts(cuts) && Pieces(spans, cuts) && InOrder(spans, cuts, k)
    ensures k <= i < |cuts| && HeldAfter(0, spans) == cuts[i]
    decreases |spans|
  {
    if spans == [] {
      i := 0;
    } else {
      var n := |spans| - 1;
      var now := k > 0 && !InOrder(spans[..n], cuts, k);
      var before := Delivered(spans[..n], cuts, if now then k - 1 else k);
      i := NextCut(spans[n], cuts, before);
      assert now && before == k - 1 ==> i == k;
    }
  }
}
