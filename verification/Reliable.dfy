/** Reliable ordered delivery, one endpoint (scripts/pythonlib/prot.py): a retry queue, a
    map of packets that came early, and the two counters between them. */
module Reliable {
  import opened Options
  import opened Bytes

  const RELIABLE_RETRY := 100
  const TIMEOUT_INTERVAL := 1500
  const SEQNUM_LIMIT := 0x1_0000_0000

  // ------------------------------------------------------------ wire format

  /** struct.pack('<I', n) and struct.unpack('<I', d[i:i+4]). */
  function Pack32(n: nat): ByteString
    requires n < SEQNUM_LIMIT
  {
    [n % 256, n / 256 % 256, n / 65536 % 256, n / 16777216]
  }

  function Unpack32(d: ByteString, i: nat): (n: nat)
    requires i + 4 <= |d|
    ensures n < SEQNUM_LIMIT
  {
    (d[i] as int) + 256 * (d[i + 1] as int) + 65536 * (d[i + 2] as int) + 16777216 * (d[i + 3] as int)
  }

  function Frame(sn: nat, payload: ByteString): ByteString
    requires sn < SEQNUM_LIMIT
  {
    [0, 3] + Pack32(sn) + payload
  }

  function AckFrame(sn: nat): ByteString
    requires sn < SEQNUM_LIMIT
  {
    [0, 4] + Pack32(sn)
  }

  /** What connect puts on the wire, and the server's answer with the negated key. */
  function ContactFrame(key: nat): ByteString
    requires key < SEQNUM_LIMIT
  {
    [0, 1] + Pack32(key) + [1, 0]
  }

  function AnswerFrame(key: nat): ByteString
    requires key < SEQNUM_LIMIT
  {
    [0, 2] + Pack32(if key == 0 then 0 else SEQNUM_LIMIT - key)
  }

  /** The test the server makes before it answers. */
  predicate IsContact(d: ByteString) {
    |d| == 8 && d[0] == 0 && d[1] == 1 && d[6] == 1 && d[7] == 0
  }

  /** What process_pkt takes a datagram for, as far as the reliable layer goes. */
  datatype Message = Data(sn: nat, payload: ByteString) | Ack(sn: nat) | Other

  function Parse(d: ByteString): Message {
    if |d| >= 6 && d[0] == 0 && d[1] == 3 then Data(Unpack32(d, 2), d[6..])
    else if |d| >= 6 && d[0] == 0 && d[1] == 4 then Ack(Unpack32(d, 2))
    else Other
  }

  /** Datagrams on which process_pkt raises an exception: a core packet without its type,
      or a reliable packet or acknowledgement without its number. */
  predicate Malformed(d: ByteString) {
    d == [] || (d[0] == 0 && (|d| < 2 || (d[1] in {3, 4} && |d| < 6)))
  }

  lemma Digits(n: nat)
    ensures n == n % 256 + 256 * (n / 256 % 256) + 65536 * (n / 65536 % 256) + 16777216 * (n / 16777216)
  {
    var n1, n2, n3 := n / 256, n / 65536, n / 16777216;
    assert n1 == 256 * (n1 / 256) + n1 % 256 && n1 / 256 == n2;
    assert n2 == 256 * (n2 / 256) + n2 % 256 && n2 / 256 == n3;
  }

  lemma PackRoundTrip(n: nat, before: ByteString, after: ByteString)
    requires n < SEQNUM_LIMIT
    ensures Unpack32(before + Pack32(n) + after, |before|) == n
  {
    var d := before + Pack32(n) + after;
    Digits(n);
    assert d[|before|] == n % 256 && d[|before| + 1] == n / 256 % 256;
    assert d[|before| + 2] == n / 65536 % 256 && d[|before| + 3] == n / 16777216;
  }

  lemma FrameRoundTrip(sn: nat, payload: ByteString)
    requires sn < SEQNUM_LIMIT
    ensures Parse(Frame(sn, payload)) == Data(sn, payload)
    ensures Parse(AckFrame(sn)) == Ack(sn)
  {
    PackRoundTrip(sn, [0, 3], payload);
    PackRoundTrip(sn, [0, 4], []);
    assert [0, 4] + Pack32(sn) + [] == AckFrame(sn);
    assert Frame(sn, payload)[6..] == payload;
  }

  /** The four bytes of d from i on are n, the least significant first. */
  predicate Holds32(d: ByteString, i: nat, n: int) {
    && i + 4 <= |d|
    && n == (d[i] as int) + 256 * (d[i + 1] as int) + 256 * 256 * (d[i + 2] as int) + 256 * 256 * 256 * (d[i + 3] as int)
  }

  lemma PackHolds(n: nat, before: ByteString, after: ByteString)
    requires n < SEQNUM_LIMIT
    ensures Holds32(before + Pack32(n) + after, |before|, n)
  {
    var d := before + Pack32(n) + after;
    Digits(n);
    assert d[|before|] == n % 256 && d[|before| + 1] == n / 256 % 256;
    assert d[|before| + 2] == n / 65536 % 256 && d[|before| + 3] == n / 16777216;
  }

  /** The bytes of the four kinds of transport packet: their types, their numbers, and the
      server's answer to a key, which makes zero with it. */
  lemma FramesAre(n: nat, payload: ByteString)
    requires n < SEQNUM_LIMIT
    ensures Frame(n, payload)[..2] == [0, 3] && Holds32(Frame(n, payload), 2, n) && Frame(n, payload)[6..] == payload
    ensures AckFrame(n)[..2] == [0, 4] && Holds32(AckFrame(n), 2, n) && |AckFrame(n)| == 6
    ensures ContactFrame(n)[..2] == [0, 1] && Holds32(ContactFrame(n), 2, n) && ContactFrame(n)[6..] == [1, 0]
    ensures AnswerFrame(n)[..2] == [0, 2] && |AnswerFrame(n)| == 6
    ensures exists m: nat :: Holds32(AnswerFrame(n), 2, m) && (n + m) % 0x1_0000_0000 == 0
  {
    PackHolds(n, [0, 3], payload);
    PackHolds(n, [0, 4], []);
    PackHolds(n, [0, 1], [1, 0]);
    var m := if n == 0 then 0 else SEQNUM_LIMIT - n;
    PackHolds(m, [0, 2], []);
    assert [0, 4] + Pack32(n) + [] == AckFrame(n) && [0, 2] + Pack32(m) + [] == AnswerFrame(n);
    assert Holds32(AnswerFrame(n), 2, m);
  }

  /** Data the reliable layer itself does not react to when it is handed on: application
      packets, and core packets other than those of the transport. */
  predicate Plain(d: ByteString) {
    d != [] && (d[0] != 0 || (|d| > 1 && d[1] !in {2, 3, 4, 7, 9, 10, 14}))
  }

  // --------------------------------------------------------------- endpoint

  datatype Pkt = Pkt(data: ByteString, lastRetry: int, reliable: bool, seqnum: Option<nat>)

  /** `wire` is every datagram sent so far, `sent` the reliable payloads in the order they
      were sent, `delivered` those handed on by the in-queue. */
  datatype Conn = Conn(
    c2sn: nat, s2cn: nat, outq: seq<Pkt>, inq: map<nat, Pkt>, connected: bool, lastRecv: int,
    wire: seq<ByteString>, sent: seq<ByteString>, delivered: seq<ByteString>)

  const FRESH_CONN := Conn(0, 0, [], map[], false, 0, [], [], [])

  /** send with rel=1; struct.pack raises once the counter no longer fits 32 bits. */
  function SendReliable(c: Conn, data: ByteString): Conn {
    if c.c2sn >= SEQNUM_LIMIT then c
    else c.(outq := c.outq + [Pkt(Frame(c.c2sn, data), 0, true, Some(c.c2sn))],
            c2sn := c.c2sn + 1, sent := c.sent + [data])
  }

  /** Pkt without a number of its own: data that is itself a reliable frame is marked
      reliable with the number in it, and data too short for the question raises. */
  function NewPkt(data: ByteString): Option<Pkt> {
    if data == [] || (data[0] == 0 && |data| < 2) then None
    else if data[0] == 0 && data[1] == 3 then
      if |data| < 6 then None else Some(Pkt(data, 0, true, Some(Unpack32(data, 2))))
    else Some(Pkt(data, 0, false, None))
  }

  /** send with rel=0. */
  function SendPlain(c: Conn, data: ByteString): Conn {
    match NewPkt(data)
    case Some(pkt) => c.(outq := c.outq + [pkt])
    case None => c
  }

  function RemoveAt<T>(s: seq<T>, i: nat): seq<T>
    requires i < |s|
  {
    s[..i] + s[i + 1..]
  }

  /** handle_ack from index i on: removing from the list that is being iterated makes the
      loop skip the element after the removed one. */
  function Acked(outq: seq<Pkt>, sn: nat, i: nat): seq<Pkt>
    decreases |outq| - i
  {
    if i >= |outq| then outq
    else if outq[i].seqnum == Some(sn) then Acked(RemoveAt(outq, i), sn, i + 1)
    else Acked(outq, sn, i + 1)
  }

  /** try_sending_outqueue from index i on: what is left in the queue and what went out.
      The same skip happens after an unreliable packet. */
  function Flushed(outq: seq<Pkt>, now: int, i: nat): (seq<Pkt>, seq<ByteString>)
    decreases |outq| - i
  {
    if i >= |outq| then (outq, [])
    else if now - outq[i].lastRetry <= RELIABLE_RETRY then Flushed(outq, now, i + 1)
    else
      var rest := if outq[i].reliable then outq[i := outq[i].(lastRetry := now)] else RemoveAt(outq, i);
      var (outq', out) := Flushed(rest, now, i + 1);
      (outq', [outq[i].data] + out)
  }

  /** try_sending_outqueue, once the peer has not timed out. */
  function Flush(c: Conn, now: int): Conn {
    if !c.connected then c
    else
      var (outq, out) := Flushed(c.outq, now, 0);
      c.(outq := outq, wire := c.wire + out)
  }

  /** process_pkt on one datagram: acknowledge every reliable packet, keep the ones not
      delivered yet, and take acknowledged packets off the retry queue. */
  function Receive(c: Conn, d: ByteString): Conn {
    match Parse(d)
    case Data(sn, _) =>
      c.(wire := c.wire + [AckFrame(Unpack32(d, 2))],
         inq := if sn >= c.s2cn then c.inq[sn := Pkt(d, 0, true, Some(sn))] else c.inq)
    case Ack(sn) => c.(outq := Acked(c.outq, sn, 0))
    case Other => if |d| > 1 && d[0] == 0 && d[1] == 2 then c.(connected := true) else c
  }

  /** try_process_inqueue: hand on everything that is in order. */
  function Drain(c: Conn): Conn
    decreases |c.inq|
  {
    if c.s2cn in c.inq && |c.inq[c.s2cn].data| >= 6 then
      Drain(c.(inq := c.inq - {c.s2cn}, s2cn := c.s2cn + 1,
               delivered := c.delivered + [c.inq[c.s2cn].data[6..]]))
    else c
  }

  /** try_read on one datagram: only a whole turn leaves the in-queue drained. */
  function Read(c: Conn, d: ByteString, now: int): Conn {
    if d == [] then c
    else if Malformed(d) then c.(lastRecv := now)
    else Drain(Receive(c.(lastRecv := now), d))
  }

  /** connect, which starts over whatever was connected before. */
  function Contact(c: Conn, key: nat): Conn
    requires key < SEQNUM_LIMIT
  {
    c.(wire := c.wire + [ContactFrame(key)], connected := false)
  }

  /** The contacted side answers at once and may send from then on. */
  function Answer(c: Conn, contact: ByteString): Conn
    requires IsContact(contact)
  {
    c.(wire := c.wire + [AnswerFrame(Unpack32(contact, 2))], connected := true)
  }

  // --------------------------------------------------------------- in place

  class Connection {
    var c2sn: nat
    var s2cn: nat
    var outq: seq<Pkt>
    var inq: map<nat, Pkt>
    var connected: bool
    var lastRecv: int
    var wire: seq<ByteString>
    ghost var sent: seq<ByteString>
    ghost var delivered: seq<ByteString>

    ghost function Snapshot(): Conn
      reads this
    {
      Conn(c2sn, s2cn, outq, inq, connected, lastRecv, wire, sent, delivered)
    }

    constructor ()
      ensures Snapshot() == FRESH_CONN
    {
      c2sn, s2cn, outq, inq := 0, 0, [], map[];
      connected, lastRecv, wire, sent, delivered := false, 0, [], [], [];
    }

    method Connect(key: nat)
      requires key < SEQNUM_LIMIT
      modifies this`wire, this`connected
      ensures Snapshot() == Contact(old(Snapshot()), key)
    {
      wire := wire + [[0, 1] + Pack32(key) + [1, 0]];
      connected := false;
    }

    /** send; false is an exception: a counter that no longer fits, or data for which
        Pkt cannot tell whether it is reliable. */
    method Send(data: ByteString, rel: bool) returns (ok: bool)
      modifies this`c2sn, this`outq, this`sent
      ensures ok <==> if rel then old(c2sn) < SEQNUM_LIMIT else NewPkt(data).Some?
      ensures Snapshot() == if rel then SendReliable(old(Snapshot()), data) else SendPlain(old(Snapshot()), data)
      ensures ok ==> |outq| == |old(outq)| + 1 && outq[..|old(outq)|] == old(outq)
      ensures ok && !rel ==> outq[|outq| - 1].data == data
    {
      ok := true;
      if rel {
        if c2sn >= SEQNUM_LIMIT { return false; }
        var pkt := Pkt(Frame(c2sn, data), 0, true, Some(c2sn));
        c2sn := c2sn + 1;
        sent := sent + [data];
        outq := outq + [pkt];
      } else {
        if data == [] || (data[0] == 0 && |data| < 2) { return false; }
        var reliable := data[0] == 0 && data[1] == 3;
        if reliable && |data| < 6 { return false; }
        var seqnum := if reliable then Some(Unpack32(data, 2)) else None;
        outq := outq + [Pkt(data, 0, reliable, seqnum)];
      }
    }

    method HandleAck(sn: nat)
      modifies this`outq
      ensures outq == Acked(old(outq), sn, 0)
    {
      var i := 0;
      while i < |outq|
        invariant 0 <= i
        invariant Acked(outq, sn, i) == Acked(old(outq), sn, 0)
        decreases |outq| - i
      {
        if outq[i].seqnum == Some(sn) {
          outq := outq[..i] + outq[i + 1..];
        }
        i := i + 1;
      }
    }

    /** try_sending_outqueue; false is the Disconnected exception. */
    method TrySendingOutqueue(now: int) returns (up: bool)
      modifies this`outq, this`wire
      ensures up <==> now - lastRecv <= 1500
      ensures Snapshot() == if up then Flush(old(Snapshot()), now) else old(Snapshot())
    {
      up := now - lastRecv <= TIMEOUT_INTERVAL;
      if !up || !connected { return; }
      ghost var final := Flushed(outq, now, 0);
      var i := 0;
      while i < |outq|
        invariant 0 <= i
        invariant Flushed(outq, now, i).0 == final.0
        invariant wire + Flushed(outq, now, i).1 == old(wire) + final.1
        decreases |outq| - i
      {
        var p := outq[i];
        if now - p.lastRetry > RELIABLE_RETRY {
          assert forall out: seq<ByteString> :: wire + ([p.data] + out) == wire + [p.data] + out;
          wire := wire + [p.data];
          if p.reliable {
            outq := outq[i := p.(lastRetry := now)];
          } else {
            outq := outq[..i] + outq[i + 1..];
          }
        }
        i := i + 1;
      }
    }

    /** process_pkt for one datagram of the reliable layer; false is an exception. */
    method ProcessPkt(d: ByteString) returns (ok: bool)
      modifies this`outq, this`inq, this`wire, this`connected
      ensures ok <==> !Malformed(d)
      ensures Snapshot() == Receive(old(Snapshot()), d)
    {
      ok := d != [] && (d[0] != 0 || (|d| > 1 && (d[1] !in {3, 4} || |d| >= 6)));
      if |d| >= 6 && d[0] == 0 && d[1] == 3 {
        var sn := Unpack32(d, 2);
        wire := wire + [AckFrame(sn)];
        if sn >= s2cn {
          inq := inq[sn := Pkt(d, 0, true, Some(sn))];
        }
      } else if |d| >= 6 && d[0] == 0 && d[1] == 4 {
        HandleAck(Unpack32(d, 2));
      } else if |d| > 1 && d[0] == 0 && d[1] == 2 {
        connected := true;
      }
    }

    method TryProcessInqueue()
      modifies this`inq, this`s2cn, this`delivered
      ensures Snapshot() == Drain(old(Snapshot()))
    {
      while s2cn in inq && |inq[s2cn].data| >= 6
        invariant Drain(Snapshot()) == Drain(old(Snapshot()))
        decreases |inq|
      {
        var pkt := inq[s2cn];
        inq := inq - {s2cn};
        s2cn := s2cn + 1;
        delivered := delivered + [pkt.data[6..]];
      }
    }

    /** try_read with what the socket gave; false is an exception. */
    method TryRead(d: ByteString, now: int) returns (ok: bool)
      modifies this
      ensures ok <==> d == [] || !Malformed(d)
      ensures Snapshot() == Read(old(Snapshot()), d, now)
    {
      if d == [] { return true; }
      lastRecv := now;
      ok := ProcessPkt(d);
      if ok { TryProcessInqueue(); }
    }
  }
}
