/** Reliable ordered delivery, two endpoints over a network that drops, duplicates and
    reorders: what every step keeps and what that means for what is delivered. */
module Delivery {
  import opened Options
  import opened Bytes
  import opened Reliable

  /** Two endpoints. Everything either has put on the wire may be delivered to the other
      at any time, any number of times, or never. */
  datatype World = World(a: Conn, b: Conn)

  datatype Step =
    | Sends(byA: bool, data: ByteString, rel: bool)
    | Flushes(byA: bool, now: int)
    | Arrives(byA: bool, index: nat, now: int)
    | Contacts(byA: bool, key: nat)
    | Answers(byA: bool, index: nat)

  function Other(w: World, isA: bool): Conn { if isA then w.b else w.a }

  function Self(w: World, isA: bool): Conn { if isA then w.a else w.b }

  /** Applications send plain data; a side that has not timed out may flush; a datagram
      that arrives, or is answered, is one the peer has sent. Either side may contact the
      other at any time. */
  predicate CanAct(self: Conn, peer: Conn, step: Step) {
    match step
    case Sends(_, data, _) => Plain(data)
    case Flushes(_, now) => now - self.lastRecv <= TIMEOUT_INTERVAL
    case Arrives(_, i, _) => i < |peer.wire|
    case Contacts(_, key) => key < SEQNUM_LIMIT
    case Answers(_, i) => i < |peer.wire| && IsContact(peer.wire[i])
  }

  /** What the side that takes the step becomes. */
  function Acts(self: Conn, peer: Conn, step: Step): Conn
    requires CanAct(self, peer, step)
  {
    match step
    case Sends(_, data, rel) => if rel then SendReliable(self, data) else SendPlain(self, data)
    case Flushes(_, now) => Flush(self, now)
    case Arrives(_, i, now) => Read(self, peer.wire[i], now)
    case Contacts(_, key) => Contact(self, key)
    case Answers(_, i) => Answer(self, peer.wire[i])
  }

  predicate Enabled(w: World, step: Step) {
    CanAct(Self(w, step.byA), Other(w, step.byA), step)
  }

  function Apply(w: World, step: Step): World
    requires Enabled(w, step)
  {
    var c := Acts(Self(w, step.byA), Other(w, step.byA), step);
    if step.byA then World(c, w.b) else World(w.a, c)
  }

  ghost predicate Runs(w: World, steps: seq<Step>, w': World)
    decreases |steps|
  {
    if steps == [] then w == w'
    else Enabled(w, steps[0]) && Runs(Apply(w, steps[0]), steps[1..], w')
  }

  ghost predicate Leads(w: World, w': World) {
    exists steps :: Runs(w, steps, w')
  }

  ghost predicate Reachable(w: World) {
    Leads(World(FRESH_CONN, FRESH_CONN), w)
  }

  // -------------------------------------------------------------- invariant

  predicate Received(rx: Conn, sn: nat) { sn < rx.s2cn || sn in rx.inq }

  predicate Queued(outq: seq<Pkt>, sn: nat) { exists i :: 0 <= i < |outq| && outq[i].seqnum == Some(sn) }

  /** The data in a datagram is what was sent under its number, and an acknowledgement is
      for a packet that has been received. */
  predicate DatagramOk(d: ByteString, sent: seq<ByteString>, self: Conn) {
    match Parse(d)
    case Data(sn, payload) => sn < |sent| && payload == sent[sn]
    case Ack(sn) => Received(self, sn)
    case Other => true
  }

  predicate PktOk(p: Pkt, sent: seq<ByteString>) {
    match p.seqnum
    case Some(sn) => p.reliable && sn < |sent| && |sent| <= SEQNUM_LIMIT && p.data == Frame(sn, sent[sn])
    case None => !p.reliable && Parse(p.data).Other?
  }

  /** One endpoint by itself. */
  ghost predicate SenderOk(c: Conn) {
    && c.c2sn == |c.sent| <= SEQNUM_LIMIT
    && QueueOk(c.outq, c.sent) && Distinct(c.outq)
    && (forall d | d in c.wire :: DatagramOk(d, c.sent, c))
  }

  /** One direction: what rx has is what tx sent, in order, and nothing tx has stopped
      retrying is missing. */
  ghost predicate ChannelOk(tx: Conn, rx: Conn) {
    && rx.s2cn <= |tx.sent| && rx.delivered == tx.sent[..rx.s2cn]
    && (forall sn :: sn in rx.inq ==> rx.s2cn <= sn < |tx.sent| && Parse(rx.inq[sn].data) == Data(sn, tx.sent[sn]))
    && (forall sn: nat :: sn < |tx.sent| ==> Queued(tx.outq, sn) || Received(rx, sn))
  }

  ghost predicate Inv(w: World) { PairOk(w.a, w.b) }

  ghost predicate PairOk(self: Conn, peer: Conn) {
    && SenderOk(self) && ChannelOk(self, peer) && Drained(self)
    && SenderOk(peer) && ChannelOk(peer, self) && Drained(peer)
  }

  /** Between two steps nothing that is in order waits. */
  predicate Drained(c: Conn) { c.s2cn !in c.inq }

  // -------------------------------------------------------------- the queue

  predicate Distinct(outq: seq<Pkt>) {
    forall j, k | 0 <= j < k < |outq| && outq[j].seqnum.Some? :: outq[j].seqnum != outq[k].seqnum
  }

  lemma RemovedAt(outq: seq<Pkt>, i: nat)
    requires i < |outq| && Distinct(outq)
    ensures var rest := RemoveAt(outq, i);
            && Distinct(rest)
            && (forall j | 0 <= j < |rest| :: rest[j] == outq[if j < i then j else j + 1])
            && (forall p :: p in outq <==> p == outq[i] || p in rest)
            && (outq[i].seqnum.Some? ==> forall j | 0 <= j < |rest| :: rest[j].seqnum != outq[i].seqnum)
  {
  }

  /** With distinct numbers, removing while iterating removes exactly the acknowledged
      packet, skip or no skip. */
  lemma {:induction false} AckedRemovesOne(outq: seq<Pkt>, sn: nat, i: nat)
    requires Distinct(outq)
    requires forall j | 0 <= j < i && j < |outq| :: outq[j].seqnum != Some(sn)
    ensures Distinct(Acked(outq, sn, i))
    ensures forall p :: p in Acked(outq, sn, i) <==> p in outq && p.seqnum != Some(sn)
    decreases |outq| - i
  {
    if i < |outq| {
      if outq[i].seqnum == Some(sn) {
        RemovedAt(outq, i);
        NoMore(RemoveAt(outq, i), sn, i + 1);
      } else {
        AckedRemovesOne(outq, sn, i + 1);
      }
    }
  }

  lemma {:induction false} NoMore(outq: seq<Pkt>, sn: nat, i: nat)
    requires forall j | 0 <= j < |outq| :: outq[j].seqnum != Some(sn)
    ensures Acked(outq, sn, i) == outq
    decreases |outq| - i
  {
    if i < |outq| { NoMore(outq, sn, i + 1); }
  }

  predicate QueueOk(outq: seq<Pkt>, sent: seq<ByteString>) {
    forall p :: p in outq ==> PktOk(p, sent)
  }

  /** What flushing one packet leaves of the queue. */
  function AfterOne(outq: seq<Pkt>, now: int, i: nat): seq<Pkt>
    requires i < |outq|
  {
    if outq[i].reliable then outq[i := outq[i].(lastRetry := now)] else RemoveAt(outq, i)
  }

  lemma FlushedOne(outq: seq<Pkt>, now: int, i: nat, sent: seq<ByteString>)
    requires i < |outq| && Distinct(outq) && QueueOk(outq, sent)
    ensures var rest := AfterOne(outq, now, i);
            && Distinct(rest) && QueueOk(rest, sent)
            && (forall sn: nat :: Queued(outq, sn) ==> Queued(rest, sn))
  {
    var p := outq[i];
    assert PktOk(p, sent);
    var rest := AfterOne(outq, now, i);
    if p.reliable {
      assert PktOk(p.(lastRetry := now), sent);
      assert forall q :: q in rest ==> q in outq || q == p.(lastRetry := now);
      forall sn: nat | Queued(outq, sn) ensures Queued(rest, sn) {
        var j :| 0 <= j < |outq| && outq[j].seqnum == Some(sn);
        assert rest[j].seqnum == Some(sn);
      }
    } else {
      RemovedAt(outq, i);
      forall sn: nat | Queued(outq, sn) ensures Queued(rest, sn) {
        var j :| 0 <= j < |outq| && outq[j].seqnum == Some(sn);
        assert rest[if j < i then j else j - 1].seqnum == Some(sn);
      }
    }
  }

  /** A flush keeps every reliable packet, keeps the numbers distinct, and sends only
      what was in the queue. */
  lemma {:induction false} FlushedKeeps(outq: seq<Pkt>, now: int, i: nat, sent: seq<ByteString>)
    requires Distinct(outq) && QueueOk(outq, sent)
    ensures var (outq', out) := Flushed(outq, now, i);
            && Distinct(outq') && QueueOk(outq', sent)
            && (forall sn: nat :: Queued(outq, sn) ==> Queued(outq', sn))
            && (forall d :: d in out ==> exists p :: PktOk(p, sent) && p.data == d)
    decreases |outq| - i
  {
    if i < |outq| {
      if now - outq[i].lastRetry <= RELIABLE_RETRY {
        FlushedKeeps(outq, now, i + 1, sent);
      } else {
        assert PktOk(outq[i], sent);
        FlushedOne(outq, now, i, sent);
        FlushedKeeps(AfterOne(outq, now, i), now, i + 1, sent);
      }
    }
  }

  // --------------------------------------------------------------- the steps

  lemma PlainIsOther(d: ByteString)
    requires Plain(d)
    ensures Parse(d).Other?
  {
  }

  lemma PktParses(p: Pkt, sent: seq<ByteString>, self: Conn)
    requires PktOk(p, sent)
    ensures DatagramOk(p.data, sent, self)
  {
    if p.seqnum.Some? { FrameRoundTrip(p.seqnum.value, sent[p.seqnum.value]); }
  }

  /** Facts about received packets only grow. */
  ghost predicate Grows(c: Conn, c': Conn) {
    forall sn: nat :: Received(c, sn) ==> Received(c', sn)
  }

  lemma WireKept(c: Conn, c': Conn)
    requires forall d | d in c.wire :: DatagramOk(d, c.sent, c)
    requires c.sent <= c'.sent && Grows(c, c')
    ensures forall d | d in c.wire :: DatagramOk(d, c'.sent, c')
  {
  }

  lemma SendKeeps(c: Conn, data: ByteString, rel: bool)
    requires SenderOk(c) && Plain(data)
    ensures SenderOk(if rel then SendReliable(c, data) else SendPlain(c, data))
  {
    var c' := if rel then SendReliable(c, data) else SendPlain(c, data);
    PlainIsOther(data);
    WireKept(c, c');
    forall p | p in c'.outq ensures PktOk(p, c'.sent) {
      if p in c.outq { assert PktOk(p, c.sent); }
    }
    forall j | 0 <= j < |c.outq| ensures c.outq[j].seqnum != Some(c.c2sn) {
      assert PktOk(c.outq[j], c.sent);
    }
    assert Distinct(c'.outq);
  }

  lemma FlushKeeps(c: Conn, now: int)
    requires SenderOk(c)
    ensures SenderOk(Flush(c, now))
    ensures forall sn: nat :: Queued(c.outq, sn) ==> Queued(Flush(c, now).outq, sn)
  {
    FlushedKeeps(c.outq, now, 0, c.sent);
    var c' := Flush(c, now);
    forall d | d in c'.wire ensures DatagramOk(d, c'.sent, c') {
      if d in c.wire {
        assert DatagramOk(d, c.sent, c);
      } else {
        var p :| PktOk(p, c.sent) && p.data == d;
        PktParses(p, c.sent, c');
      }
    }
  }

  lemma AckedQueue(outq: seq<Pkt>, sn: nat, k: nat)
    requires Distinct(outq) && Queued(outq, k) && k != sn
    ensures Queued(Acked(outq, sn, 0), k)
  {
    AckedRemovesOne(outq, sn, 0);
    var i :| 0 <= i < |outq| && outq[i].seqnum == Some(k);
    assert outq[i] in Acked(outq, sn, 0);
    var j :| 0 <= j < |Acked(outq, sn, 0)| && Acked(outq, sn, 0)[j] == outq[i];
  }

  lemma ReceiveKeeps(c: Conn, d: ByteString)
    requires SenderOk(c)
    ensures SenderOk(Receive(c, d))
    ensures Grows(c, Receive(c, d)) && Receive(c, d).sent == c.sent
    ensures Receive(c, d).delivered == c.delivered && Receive(c, d).s2cn == c.s2cn
  {
    var c' := Receive(c, d);
    WireKept(c, c');
    match Parse(d)
    case Data(sn, _) =>
      FrameRoundTrip(sn, []);
      assert Received(c', sn);
    case Ack(sn) => AckedRemovesOne(c.outq, sn, 0);
    case Other =>
  }

  function HandOn(c: Conn): Conn
    requires c.s2cn in c.inq && |c.inq[c.s2cn].data| >= 6
  {
    c.(inq := c.inq - {c.s2cn}, s2cn := c.s2cn + 1, delivered := c.delivered + [c.inq[c.s2cn].data[6..]])
  }

  lemma HandOnKeeps(tx: Conn, c: Conn)
    requires ChannelOk(tx, c) && c.s2cn in c.inq
    ensures |c.inq[c.s2cn].data| >= 6 && ChannelOk(tx, HandOn(c)) && Grows(c, HandOn(c))
  {
    assert Parse(c.inq[c.s2cn].data).Data?;
    var c1 := HandOn(c);
    forall sn: nat | Received(c, sn) ensures Received(c1, sn) {
      assert sn == c.s2cn || sn < c.s2cn || sn in c1.inq;
    }
    assert tx.sent[..c1.s2cn] == tx.sent[..c.s2cn] + [tx.sent[c.s2cn]];
  }

  /** Draining hands on exactly the packets that are in order, which stay received. */
  lemma {:induction false} DrainKeeps(tx: Conn, c: Conn)
    requires ChannelOk(tx, c)
    ensures ChannelOk(tx, Drain(c)) && Grows(c, Drain(c))
    ensures Drain(c).sent == c.sent && Drain(c).wire == c.wire && Drain(c).outq == c.outq && Drain(c).c2sn == c.c2sn
    ensures Drained(Drain(c))
    decreases |c.inq|
  {
    if c.s2cn in c.inq {
      HandOnKeeps(tx, c);
      DrainKeeps(tx, HandOn(c));
    }
  }

  // --------------------------------------------------- the two directions

  /** The direction a sender sends in, when he sends or flushes. */
  lemma SenderMoves(tx: Conn, tx': Conn, rx: Conn)
    requires ChannelOk(tx, rx)
    requires tx.sent <= tx'.sent
    requires forall sn: nat :: Queued(tx.outq, sn) ==> Queued(tx'.outq, sn)
    requires forall sn: nat | |tx.sent| <= sn < |tx'.sent| :: Queued(tx'.outq, sn)
    ensures ChannelOk(tx', rx)
  {
  }

  /** The other direction, in which he receives. */
  lemma ReceiverSame(tx: Conn, rx: Conn, rx': Conn)
    requires ChannelOk(tx, rx)
    requires rx'.inq == rx.inq && rx'.s2cn == rx.s2cn && rx'.delivered == rx.delivered
    ensures ChannelOk(tx, rx')
  {
  }

  lemma SendsKeeps(self: Conn, peer: Conn, data: ByteString, rel: bool)
    requires PairOk(self, peer) && Plain(data)
    ensures PairOk(if rel then SendReliable(self, data) else SendPlain(self, data), peer)
  {
    var c' := if rel then SendReliable(self, data) else SendPlain(self, data);
    SendKeeps(self, data, rel);
    forall sn: nat | Queued(self.outq, sn) ensures Queued(c'.outq, sn) {
      var i :| 0 <= i < |self.outq| && self.outq[i].seqnum == Some(sn);
      assert c'.outq[i].seqnum == Some(sn);
    }
    if rel && self.c2sn < SEQNUM_LIMIT {
      assert c'.outq[|self.outq|].seqnum == Some(self.c2sn);
    }
    SenderMoves(self, c', peer);
    ReceiverSame(peer, self, c');
  }

  /** A datagram arrives: its data joins the in-queue if it is new, and an
      acknowledgement only takes off the queue what the peer has received. */
  lemma ArrivesKeeps(self: Conn, peer: Conn, d: ByteString)
    requires SenderOk(self) && SenderOk(peer) && ChannelOk(self, peer) && ChannelOk(peer, self) && d in peer.wire
    ensures SenderOk(Receive(self, d)) && ChannelOk(Receive(self, d), peer) && ChannelOk(peer, Receive(self, d))
  {
    var c' := Receive(self, d);
    assert DatagramOk(d, peer.sent, peer);
    ReceiveKeeps(self, d);
    match Parse(d)
    case Data(sn, payload) =>
      SenderMoves(self, c', peer);
    case Ack(sn) =>
      forall k: nat | k < |self.sent| ensures Queued(c'.outq, k) || Received(peer, k) {
        if k != sn && Queued(self.outq, k) { AckedQueue(self.outq, sn, k); }
      }
    case Other =>
  }

  lemma FlushesKeeps(self: Conn, peer: Conn, now: int)
    requires PairOk(self, peer)
    ensures PairOk(Flush(self, now), peer)
  {
    FlushKeeps(self, now);
    SenderMoves(self, Flush(self, now), peer);
    ReceiverSame(peer, self, Flush(self, now));
  }

  lemma ReadKeeps(self: Conn, peer: Conn, d: ByteString, now: int)
    requires PairOk(self, peer) && d in peer.wire
    ensures PairOk(Read(self, d, now), peer)
  {
    var c := self.(lastRecv := now);
    assert Grows(self, c);
    WireKept(self, c);
    SenderMoves(self, c, peer);
    ReceiverSame(peer, self, c);
    if !Malformed(d) {
      ArrivesKeeps(c, peer, d);
      var c1 := Receive(c, d);
      DrainKeeps(peer, c1);
      WireKept(c1, Drain(c1));
      SenderMoves(c1, Drain(c1), peer);
    }
  }

  /** Contacting and answering put a datagram on the wire that is neither data nor an
      acknowledgement. */
  lemma GreetingKeeps(self: Conn, peer: Conn, d: ByteString, connected: bool)
    requires PairOk(self, peer) && Parse(d).Other?
    ensures PairOk(self.(wire := self.wire + [d], connected := connected), peer)
  {
    var c' := self.(wire := self.wire + [d], connected := connected);
    assert Grows(self, c');
    WireKept(self, c');
    SenderMoves(self, c', peer);
    ReceiverSame(peer, self, c');
  }

  lemma ActsKeeps(self: Conn, peer: Conn, step: Step)
    requires PairOk(self, peer) && CanAct(self, peer, step)
    ensures PairOk(Acts(self, peer, step), peer)
  {
    match step
    case Sends(_, data, rel) => SendsKeeps(self, peer, data, rel);
    case Flushes(_, now) => FlushesKeeps(self, peer, now);
    case Arrives(_, i, now) => ReadKeeps(self, peer, peer.wire[i], now);
    case Contacts(_, key) => GreetingKeeps(self, peer, ContactFrame(key), false);
    case Answers(_, i) => GreetingKeeps(self, peer, AnswerFrame(Unpack32(peer.wire[i], 2)), true);
  }

  lemma StepKeeps(w: World, step: Step)
    requires Inv(w) && Enabled(w, step)
    ensures Inv(Apply(w, step))
  {
    var isA := step.byA;
    ActsKeeps(Self(w, isA), Other(w, isA), step);
  }

  lemma {:induction false} RunKeeps(w: World, steps: seq<Step>, w': World)
    requires Inv(w) && Runs(w, steps, w')
    ensures Inv(w')
    decreases |steps|
  {
    if steps != [] {
      StepKeeps(w, steps[0]);
      RunKeeps(Apply(w, steps[0]), steps[1..], w');
    }
  }

  lemma ReachableOk(w: World)
    requires Reachable(w)
    ensures Inv(w)
  {
    var steps :| Runs(World(FRESH_CONN, FRESH_CONN), steps, w);
    RunKeeps(World(FRESH_CONN, FRESH_CONN), steps, w);
  }

  // ----------------------------------------------------------- main results

  /** Whatever the network does, each side has handed on a prefix of what the other side
      sent reliably: in order, nothing twice, nothing left out. */
  lemma DeliveredIsPrefix(w: World)
    requires Reachable(w)
    ensures w.b.delivered <= w.a.sent && |w.b.delivered| == w.b.s2cn
    ensures w.a.delivered <= w.b.sent && |w.a.delivered| == w.a.s2cn
  {
    ReachableOk(w);
  }

  /** Nothing is lost, in either direction: every packet sent is still being retried, is
      waiting in the in-queue with the data it was sent with, or has been handed on. */
  lemma NothingIsLost(w: World, isA: bool, sn: nat)
    requires Reachable(w) && sn < |Self(w, isA).sent|
    ensures var tx, rx := Self(w, isA), Other(w, isA);
            || Queued(tx.outq, sn)
            || (sn in rx.inq && Parse(rx.inq[sn].data) == Data(sn, tx.sent[sn]))
            || (sn < |rx.delivered| && rx.delivered[sn] == tx.sent[sn])
  {
    ReachableOk(w);
    assert ChannelOk(Self(w, isA), Other(w, isA));
  }

  /** Once a retry queue holds no reliable packet, everything has been handed on. */
  lemma QuietMeansDelivered(w: World, isA: bool)
    requires Reachable(w) && forall i | 0 <= i < |Self(w, isA).outq| :: !Self(w, isA).outq[i].reliable
    ensures Other(w, isA).delivered == Self(w, isA).sent
  {
    ReachableOk(w);
    QuietIsDone(Self(w, isA), Other(w, isA));
  }

  lemma QuietIsDone(tx: Conn, rx: Conn)
    requires PairOk(tx, rx) && forall i | 0 <= i < |tx.outq| :: !tx.outq[i].reliable
    ensures rx.delivered == tx.sent
  {
    forall i | 0 <= i < |tx.outq| ensures tx.outq[i].seqnum.None? {
      assert PktOk(tx.outq[i], tx.sent);
    }
    assert !Received(rx, rx.s2cn);
    assert rx.s2cn == |tx.sent|;
  }
}
