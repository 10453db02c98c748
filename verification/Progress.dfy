/** What the retries are for: from every reachable state the network can still get
    everything through, so the states the safety theorems speak of include every
    exchange of data. */
module Progress {
  import opened Options
  import opened Bytes
  import opened Reliable
  import opened Delivery

  lemma {:induction false} RunsOn(w: World, steps: seq<Step>, w1: World, more: seq<Step>, w2: World)
    requires Runs(w, steps, w1) && Runs(w1, more, w2)
    ensures Runs(w, steps + more, w2)
    decreases |steps|
  {
    if steps == [] {
      assert steps + more == more;
    } else {
      RunsOn(Apply(w, steps[0]), steps[1..], w1, more, w2);
      assert (steps + more)[1..] == steps[1..] + more;
    }
  }

  lemma LeadsOn(w: World, w1: World, w2: World)
    requires Leads(w, w1) && Leads(w1, w2)
    ensures Leads(w, w2)
  {
    var steps :| Runs(w, steps, w1);
    var more :| Runs(w1, more, w2);
    RunsOn(w, steps, w1, more, w2);
  }

  lemma NoStep(w: World)
    ensures Leads(w, w)
  {
    assert Runs(w, [], w);
  }

  /** One more step at the end of a run. */
  lemma Then(w: World, w1: World, step: Step) returns (w2: World)
    requires Leads(w, w1) && Inv(w1) && Enabled(w1, step)
    ensures w2 == Apply(w1, step) && Leads(w, w2) && Inv(w2)
  {
    w2 := Apply(w1, step);
    assert Runs(w2, [], w2);
    assert [step][1..] == [];
    assert Runs(w1, [step], w2);
    LeadsOn(w, w1, w2);
    StepKeeps(w1, step);
  }

  // ------------------------------------------------ runs in which nobody sends

  ghost predicate NoSends(steps: seq<Step>) { forall i | 0 <= i < |steps| :: !steps[i].Sends? }

  /** A run in which the application hands over nothing more. */
  ghost predicate Retries(w: World, w': World) {
    exists steps :: Runs(w, steps, w') && NoSends(steps)
  }

  lemma RetriesOn(w: World, w1: World, w2: World)
    requires Retries(w, w1) && Retries(w1, w2)
    ensures Retries(w, w2)
  {
    var steps :| Runs(w, steps, w1) && NoSends(steps);
    var more :| Runs(w1, more, w2) && NoSends(more);
    RunsOn(w, steps, w1, more, w2);
    assert NoSends(steps + more);
  }

  lemma NoRetry(w: World)
    ensures Retries(w, w)
  {
    assert Runs(w, [], w) && NoSends([]);
  }

  lemma RetriesLead(w: World, w': World)
    requires Retries(w, w')
    ensures Leads(w, w')
  {
  }

  /** One more step at the end of such a run. */
  lemma ThenRetries(w: World, w1: World, step: Step) returns (w2: World)
    requires Retries(w, w1) && Inv(w1) && Enabled(w1, step) && !step.Sends?
    ensures w2 == Apply(w1, step) && Retries(w, w2) && Inv(w2)
  {
    w2 := Apply(w1, step);
    assert Runs(w2, [], w2);
    assert [step][1..] == [];
    assert Runs(w1, [step], w2) && NoSends([step]);
    RetriesOn(w, w1, w2);
    StepKeeps(w1, step);
  }

  // -------------------------------------------------------------- connecting

  /** A is connected, and the answer it got can arrive once more. */
  predicate Up(w: World, i: nat) {
    w.a.connected && i < |w.b.wire| && w.b.wire[i] == AnswerFrame(0)
  }

  lemma ContactIsAnswered(key: nat)
    requires key < SEQNUM_LIMIT
    ensures IsContact(ContactFrame(key)) && Unpack32(ContactFrame(key), 2) == key
  {
    PackRoundTrip(key, [0, 1], [1, 0]);
  }

  /** Reading an answer connects and does nothing else. */
  lemma AnswerConnects(c: Conn, key: nat, now: int)
    requires Drained(c) && key < SEQNUM_LIMIT
    ensures Read(c, AnswerFrame(key), now) == c.(lastRecv := now, connected := true)
  {
  }

  /** A contacts B, B answers, and the answer arrives. */
  lemma Handshake(w: World) returns (w': World, i: nat)
    requires Inv(w)
    ensures Retries(w, w') && Inv(w') && Up(w', i)
    ensures w'.a.sent == w.a.sent && w'.a.outq == w.a.outq && w'.b.sent == w.b.sent && w'.b.outq == w.b.outq
  {
    NoRetry(w);
    var w1 := ThenRetries(w, w, Contacts(true, 0));
    ContactIsAnswered(0);
    assert w1.a.wire[|w.a.wire|] == ContactFrame(0);
    var w2 := ThenRetries(w, w1, Answers(false, |w.a.wire|));
    i := |w.b.wire|;
    assert w2.b.wire[i] == AnswerFrame(0);
    w' := ThenRetries(w, w2, Arrives(true, i, 0));
    AnswerConnects(w2.a, 0, 0);
  }

  // ---------------------------------------------------------- one retry turn

  /** A time at which every packet in the queue is due. */
  function Due(outq: seq<Pkt>): (now: int)
    ensures forall p | p in outq :: now - p.lastRetry > RELIABLE_RETRY
  {
    if outq == [] then 0
    else
      var rest := Due(outq[1..]);
      if rest - outq[0].lastRetry > RELIABLE_RETRY then rest else outq[0].lastRetry + RELIABLE_RETRY + 1
  }

  lemma {:induction false} FlushedFirst(outq: seq<Pkt>, now: int, i: nat)
    requires i > 0
    ensures |Flushed(outq, now, i).0| <= |outq|
    ensures outq != [] ==> Flushed(outq, now, i).0 != [] && Flushed(outq, now, i).0[0] == outq[0]
    decreases |outq| - i
  {
    if i < |outq| {
      if now - outq[i].lastRetry <= RELIABLE_RETRY {
        FlushedFirst(outq, now, i + 1);
      } else {
        FlushedFirst(AfterOne(outq, now, i), now, i + 1);
      }
    }
  }

  /** A flush when everything is due sends the first packet; it stays first in the queue
      if it is reliable and is gone otherwise. */
  lemma FlushSendsFirst(outq: seq<Pkt>, now: int)
    requires outq != [] && now - outq[0].lastRetry > RELIABLE_RETRY
    ensures var (outq', out) := Flushed(outq, now, 0);
            && out != [] && out[0] == outq[0].data
            && if outq[0].reliable then |outq'| <= |outq| && outq' != [] && outq'[0] == outq[0].(lastRetry := now)
               else |outq'| < |outq|
  {
    FlushedFirst(AfterOne(outq, now, 0), now, 1);
  }

  lemma {:induction false} AckedShorter(outq: seq<Pkt>, sn: nat, i: nat)
    ensures |Acked(outq, sn, i)| <= |outq|
    ensures i < |outq| && outq[i].seqnum == Some(sn) ==> |Acked(outq, sn, i)| < |outq|
    decreases |outq| - i
  {
    if i < |outq| {
      AckedShorter(if outq[i].seqnum == Some(sn) then RemoveAt(outq, i) else outq, sn, i + 1);
    }
  }

  /** Draining leaves everything but the in-queue and what came of it. */
  lemma {:induction false} DrainLeaves(c: Conn)
    ensures Drain(c) == c.(inq := Drain(c).inq, s2cn := Drain(c).s2cn, delivered := Drain(c).delivered)
    decreases |c.inq|
  {
    if c.s2cn in c.inq && |c.inq[c.s2cn].data| >= 6 { DrainLeaves(HandOn(c)); }
  }

  /** Reading a reliable packet puts an acknowledgement on the wire. */
  lemma PacketIsAcked(c: Conn, sn: nat, data: ByteString, now: int)
    requires sn < SEQNUM_LIMIT
    ensures var c' := Read(c, Frame(sn, data), now);
            c'.wire == c.wire + [AckFrame(sn)] && c'.sent == c.sent && c'.outq == c.outq
  {
    FrameRoundTrip(sn, data);
    DrainLeaves(Receive(c.(lastRecv := now), Frame(sn, data)));
  }

  lemma AckIsRead(c: Conn, sn: nat, now: int)
    requires sn < SEQNUM_LIMIT && Drained(c)
    ensures Read(c, AckFrame(sn), now) == c.(lastRecv := now, outq := Acked(c.outq, sn, 0))
  {
    FrameRoundTrip(sn, []);
  }

  /** A hears from B and flushes: the first packet of the queue is on the wire. */
  lemma FirstIsSent(w: World, i: nat) returns (w': World, now: int)
    requires Inv(w) && Up(w, i) && w.a.outq != []
    ensures Retries(w, w') && Inv(w') && Up(w', i) && w'.a.sent == w.a.sent && w'.b == w.b
    ensures |w'.a.wire| > |w.a.wire| && w'.a.wire[|w.a.wire|] == w.a.outq[0].data
    ensures if w.a.outq[0].reliable then |w'.a.outq| <= |w.a.outq| && w'.a.outq != []
                                         && w'.a.outq[0] == w.a.outq[0].(lastRetry := now)
            else |w'.a.outq| < |w.a.outq|
  {
    NoRetry(w);
    now := Due(w.a.outq);
    var w1 := ThenRetries(w, w, Arrives(true, i, now));
    AnswerConnects(w.a, 0, now);
    w' := ThenRetries(w, w1, Flushes(true, now));
    FlushSendsFirst(w.a.outq, now);
  }

  /** One turn of the retry machinery with a network that loses nothing: the first packet
      goes out, arrives, is acknowledged, and leaves the queue. */
  lemma OneTurn(w: World, i: nat) returns (w': World)
    requires Inv(w) && Up(w, i) && w.a.outq != []
    ensures Retries(w, w') && Inv(w') && Up(w', i) && w'.a.sent == w.a.sent && |w'.a.outq| < |w.a.outq|
    ensures w'.b.sent == w.b.sent && w'.b.outq == w.b.outq
  {
    var p := w.a.outq[0];
    assert PktOk(p, w.a.sent);
    var w1, now := FirstIsSent(w, i);
    w' := w1;
    if p.reliable {
      var sn := p.seqnum.value;
      var w2 := ThenRetries(w, w1, Arrives(false, |w.a.wire|, now));
      PacketIsAcked(w1.b, sn, w.a.sent[sn], now);
      w' := ThenRetries(w, w2, Arrives(true, |w1.b.wire|, now));
      AckIsRead(w2.a, sn, now);
      AckedShorter(w1.a.outq, sn, 0);
    }
  }

  /** Turn by turn the queue runs empty. */
  lemma {:induction false} QueueEmpties(w: World, i: nat) returns (w': World)
    requires Inv(w) && Up(w, i)
    ensures Retries(w, w') && Inv(w') && w'.a.sent == w.a.sent && w'.a.outq == []
    ensures w'.b.sent == w.b.sent && w'.b.outq == w.b.outq
    decreases |w.a.outq|
  {
    if w.a.outq == [] {
      NoRetry(w);
      return w;
    }
    var w1 := OneTurn(w, i);
    w' := QueueEmpties(w1, i);
    RetriesOn(w, w1, w');
  }

  // --------------------------------------------------------- the other side

  function Swap(w: World): World { World(w.b, w.a) }

  function SwapStep(step: Step): Step {
    match step
    case Sends(byA, data, rel) => Sends(!byA, data, rel)
    case Flushes(byA, now) => Flushes(!byA, now)
    case Arrives(byA, i, now) => Arrives(!byA, i, now)
    case Contacts(byA, key) => Contacts(!byA, key)
    case Answers(byA, i) => Answers(!byA, i)
  }

  /** Neither side is special. */
  lemma {:induction false} RunsSwapped(w: World, steps: seq<Step>, w': World) returns (steps': seq<Step>)
    requires Runs(w, steps, w')
    ensures Runs(Swap(w), steps', Swap(w')) && (NoSends(steps) ==> NoSends(steps'))
    decreases |steps|
  {
    if steps == [] {
      steps' := [];
    } else {
      var rest := RunsSwapped(Apply(w, steps[0]), steps[1..], w');
      StepSwapped(w, steps[0]);
      assert NoSends(steps) ==> NoSends(steps[1..]) && !steps[0].Sends?;
      steps' := [SwapStep(steps[0])] + rest;
    }
  }

  lemma StepSwapped(w: World, step: Step)
    requires Enabled(w, step)
    ensures Enabled(Swap(w), SwapStep(step)) && Apply(Swap(w), SwapStep(step)) == Swap(Apply(w, step))
  {
  }

  lemma RetriesSwapped(w: World, w': World)
    requires Retries(w, w')
    ensures Retries(Swap(w), Swap(w'))
  {
    var steps :| Runs(w, steps, w') && NoSends(steps);
    var steps' := RunsSwapped(w, steps, w');
  }

  lemma LeadsSwapped(w: World, w': World)
    requires Leads(w, w')
    ensures Leads(Swap(w), Swap(w'))
  {
    var steps :| Runs(w, steps, w');
    var steps' := RunsSwapped(w, steps, w');
  }

  /** A's queue runs empty, and B's stays as it is. */
  lemma OneSideEmpties(w: World) returns (w': World)
    requires Inv(w)
    ensures Retries(w, w') && Inv(w') && w'.a.sent == w.a.sent && w'.a.outq == []
    ensures w'.b.sent == w.b.sent && w'.b.outq == w.b.outq
  {
    var w1, i := Handshake(w);
    w' := QueueEmpties(w1, i);
    RetriesOn(w, w1, w');
  }

  lemma BothSidesEmpty(w: World) returns (w': World)
    requires Inv(w)
    ensures Retries(w, w') && Inv(w') && w'.a.sent == w.a.sent && w'.b.sent == w.b.sent && w'.a.outq == w'.b.outq == []
  {
    var w1 := OneSideEmpties(w);
    var w2 := OneSideEmpties(Swap(w1));
    w' := Swap(w2);
    RetriesSwapped(Swap(w1), w2);
    RetriesOn(w, w1, w');
  }

  // ----------------------------------------------------------- main results

  /** From every reachable state there is a continuation, in which nothing more is sent,
      that hands on everything either side has sent and leaves neither anything to retry. */
  lemma EverythingGetsThrough(w: World) returns (w': World)
    requires Reachable(w)
    ensures Retries(w, w') && Reachable(w')
    ensures w'.a.sent == w.a.sent && w'.b.delivered == w.a.sent && w'.a.outq == []
    ensures w'.b.sent == w.b.sent && w'.a.delivered == w.b.sent && w'.b.outq == []
  {
    ReachableOk(w);
    w' := BothSidesEmpty(w);
    RetriesLead(w, w');
    LeadsOn(World(FRESH_CONN, FRESH_CONN), w, w');
    QuietIsDone(w'.a, w'.b);
    QuietIsDone(w'.b, w'.a);
  }

  lemma {:induction false} SendAll(w: World, payloads: seq<ByteString>) returns (w': World)
    requires Inv(w) && |w.a.sent| + |payloads| <= SEQNUM_LIMIT && forall d | d in payloads :: Plain(d)
    ensures Leads(w, w') && Inv(w') && w'.a.sent == w.a.sent + payloads && w'.b == w.b
    decreases |payloads|
  {
    NoStep(w);
    if payloads == [] { return w; }
    var w1 := Then(w, w, Sends(true, payloads[0], true));
    w' := SendAll(w1, payloads[1..]);
    assert w.a.sent + payloads == w1.a.sent + payloads[1..];
    LeadsOn(w, w1, w');
  }

  /** The safety theorems are about real traffic: whatever plain data the numbers have
      room for, some reachable state has had exactly that handed on both ways, in that
      order, with every packet acknowledged. */
  lemma AnythingCanBeDelivered(fromA: seq<ByteString>, fromB: seq<ByteString>) returns (w: World)
    requires |fromA| <= SEQNUM_LIMIT && forall d | d in fromA :: Plain(d)
    requires |fromB| <= SEQNUM_LIMIT && forall d | d in fromB :: Plain(d)
    ensures Reachable(w) && w.a.sent == fromA == w.b.delivered && w.b.sent == fromB == w.a.delivered
    ensures w.a.outq == w.b.outq == []
  {
    var start := World(FRESH_CONN, FRESH_CONN);
    assert Inv(start);
    var w1 := SendAll(start, fromA);
    assert start.a.sent + fromA == fromA && start.b.sent + fromB == fromB;
    var w2 := SendAll(Swap(w1), fromB);
    LeadsSwapped(Swap(w1), w2);
    LeadsOn(start, w1, Swap(w2));
    w := EverythingGetsThrough(Swap(w2));
  }
}
