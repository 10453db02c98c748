/** Unreliable data: every piece that is handed over goes on the wire at most once, and
    none disappears from the queue in any other way. Also what a flush may send. */
module Unreliable {
  import opened Options
  import opened Bytes
  import opened Reliable
  import opened Delivery
  import opened Progress

  // ---------------------------------------------------------------- counting

  /** The unreliable data still in the queue, with multiplicity. */
  function Waiting(outq: seq<Pkt>): multiset<ByteString> {
    if outq == [] then multiset{}
    else (if outq[0].reliable then multiset{} else multiset{outq[0].data}) + Waiting(outq[1..])
  }

  /** The datagrams among these that are neither reliable packets nor acknowledgements. */
  function Loose(ds: seq<ByteString>): multiset<ByteString> {
    if ds == [] then multiset{}
    else (if Parse(ds[0]).Other? then multiset{ds[0]} else multiset{}) + Loose(ds[1..])
  }

  lemma {:induction false} WaitingConcat(a: seq<Pkt>, b: seq<Pkt>)
    ensures Waiting(a + b) == Waiting(a) + Waiting(b)
    decreases |a|
  {
    if a == [] {
      assert a + b == b;
    } else {
      assert (a + b)[1..] == a[1..] + b;
      WaitingConcat(a[1..], b);
    }
  }

  lemma WaitingOne(p: Pkt)
    ensures Waiting([p]) == if p.reliable then multiset{} else multiset{p.data}
  {
    assert [p][1..] == [];
  }

  lemma WaitingThree(a: seq<Pkt>, b: seq<Pkt>, c: seq<Pkt>)
    ensures Waiting(a + (b + c)) == Waiting(a) + Waiting(b) + Waiting(c)
  {
    WaitingConcat(a, b + c);
    WaitingConcat(b, c);
  }

  lemma WaitingAt(outq: seq<Pkt>, i: nat)
    requires i < |outq|
    ensures Waiting(outq) == Waiting(outq[..i]) + Waiting([outq[i]]) + Waiting(outq[i + 1..])
  {
    CutAt(outq, i);
    WaitingThree(outq[..i], [outq[i]], outq[i + 1..]);
  }

  lemma CutAt<T>(s: seq<T>, i: nat)
    requires i < |s|
    ensures s == s[..i] + ([s[i]] + s[i + 1..])
  {
  }

  lemma WaitingRemoved(outq: seq<Pkt>, i: nat)
    requires i < |outq|
    ensures Waiting(outq) == Waiting(RemoveAt(outq, i)) + Waiting([outq[i]])
  {
    WaitingAt(outq, i);
    WaitingConcat(outq[..i], outq[i + 1..]);
  }

  lemma WaitingTouched(outq: seq<Pkt>, i: nat, p: Pkt)
    requires i < |outq| && outq[i].reliable && p.reliable
    ensures Waiting(outq[i := p]) == Waiting(outq)
  {
    var outq' := outq[i := p];
    WaitingAt(outq, i);
    WaitingAt(outq', i);
    WaitingOne(p);
    WaitingOne(outq[i]);
    assert outq'[..i] == outq[..i] && outq'[i + 1..] == outq[i + 1..];
  }

  /** Packets that are marked as what they are, with a number exactly if they are reliable. */
  ghost predicate Marked(outq: seq<Pkt>) {
    forall p :: p in outq ==> (p.reliable <==> !Parse(p.data).Other?) && (p.reliable <==> p.seqnum.Some?)
  }

  lemma QueueIsMarked(outq: seq<Pkt>, sent: seq<ByteString>)
    requires QueueOk(outq, sent)
    ensures Marked(outq)
  {
    forall p | p in outq ensures (p.reliable <==> !Parse(p.data).Other?) && (p.reliable <==> p.seqnum.Some?) {
      assert PktOk(p, sent);
      if p.seqnum.Some? { FrameRoundTrip(p.seqnum.value, sent[p.seqnum.value]); }
    }
  }

  lemma RemovedMarked(outq: seq<Pkt>, i: nat)
    requires i < |outq| && Marked(outq)
    ensures Marked(RemoveAt(outq, i))
  {
  }

  lemma LooseFirst(d: ByteString, out: seq<ByteString>)
    ensures Loose([d] + out) == (if Parse(d).Other? then multiset{d} else multiset{}) + Loose(out)
  {
    assert ([d] + out)[1..] == out;
  }

  /** A flush sends exactly the unreliable data it takes off the queue. */
  lemma {:induction false} FlushAccounts(outq: seq<Pkt>, now: int, i: nat)
    requires Marked(outq)
    ensures var (outq', out) := Flushed(outq, now, i); Waiting(outq) == Waiting(outq') + Loose(out)
    decreases |outq| - i
  {
    if i < |outq| {
      var p := outq[i];
      if now - p.lastRetry <= RELIABLE_RETRY {
        FlushAccounts(outq, now, i + 1);
      } else {
        var rest := AfterOne(outq, now, i);
        var (outq', out) := Flushed(rest, now, i + 1);
        WaitingOne(p);
        LooseFirst(p.data, out);
        if p.reliable {
          WaitingTouched(outq, i, p.(lastRetry := now));
        } else {
          WaitingRemoved(outq, i);
          RemovedMarked(outq, i);
        }
        FlushAccounts(rest, now, i + 1);
      }
    }
  }

  /** An acknowledgement takes no unreliable data off the queue. */
  lemma {:induction false} AckAccounts(outq: seq<Pkt>, sn: nat, i: nat)
    requires Marked(outq)
    ensures Waiting(Acked(outq, sn, i)) == Waiting(outq)
    decreases |outq| - i
  {
    if i < |outq| {
      if outq[i].seqnum == Some(sn) {
        WaitingOne(outq[i]);
        WaitingRemoved(outq, i);
        RemovedMarked(outq, i);
        AckAccounts(RemoveAt(outq, i), sn, i + 1);
      } else {
        AckAccounts(outq, sn, i + 1);
      }
    }
  }

  // --------------------------------------------------------------- the steps

  /** What the application hands over unreliably in this step. */
  function HandedOver(step: Step, isA: bool): multiset<ByteString> {
    if step.Sends? && step.byA == isA && !step.rel then multiset{step.data} else multiset{}
  }

  /** What a side puts on the wire in this step, if it is a flush of its own. */
  function FlushedBy(w: World, step: Step, isA: bool): seq<ByteString>
    requires Enabled(w, step)
  {
    var before, after := Self(w, isA).wire, Self(Apply(w, step), isA).wire;
    if step.Flushes? && step.byA == isA && |before| <= |after| then after[|before|..] else []
  }

  lemma SendAccounts(c: Conn, data: ByteString)
    requires Plain(data)
    ensures Waiting(SendPlain(c, data).outq) == Waiting(c.outq) + multiset{data}
    ensures Waiting(SendReliable(c, data).outq) == Waiting(c.outq)
  {
    WaitingConcat(c.outq, [Pkt(data, 0, false, None)]);
    WaitingOne(Pkt(data, 0, false, None));
    if c.c2sn < SEQNUM_LIMIT {
      WaitingConcat(c.outq, [Pkt(Frame(c.c2sn, data), 0, true, Some(c.c2sn))]);
      WaitingOne(Pkt(Frame(c.c2sn, data), 0, true, Some(c.c2sn)));
    }
  }

  lemma ReadAccounts(c: Conn, d: ByteString, now: int)
    requires Marked(c.outq)
    ensures Waiting(Read(c, d, now).outq) == Waiting(c.outq)
  {
    if d != [] && !Malformed(d) {
      var c1 := Receive(c.(lastRecv := now), d);
      DrainLeaves(c1);
      match Parse(d)
      case Ack(sn) => AckAccounts(c.outq, sn, 0);
      case _ =>
    }
  }

  lemma StepAccounts(w: World, step: Step, isA: bool)
    requires Inv(w) && Enabled(w, step)
    ensures Waiting(Self(w, isA).outq) + HandedOver(step, isA)
            == Waiting(Self(Apply(w, step), isA).outq) + Loose(FlushedBy(w, step, isA))
  {
    var c := Self(w, isA);
    QueueIsMarked(c.outq, c.sent);
    if step.byA == isA {
      match step
      case Sends(_, data, _) => SendAccounts(c, data);
      case Flushes(_, now) =>
        FlushAccounts(c.outq, now, 0);
        var out := Flushed(c.outq, now, 0).1;
        assert (c.wire + out)[|c.wire|..] == out && c.wire[|c.wire|..] == [];
      case Arrives(_, i, now) => ReadAccounts(c, Delivery.Other(w, isA).wire[i], now);
      case _ =>
    }
  }

  // ---------------------------------------------------------------- whole runs

  function HandedOverIn(steps: seq<Step>, isA: bool): multiset<ByteString> {
    if steps == [] then multiset{} else HandedOver(steps[0], isA) + HandedOverIn(steps[1..], isA)
  }

  ghost predicate CanRun(w: World, steps: seq<Step>)
    decreases |steps|
  {
    steps == [] || (Enabled(w, steps[0]) && CanRun(Apply(w, steps[0]), steps[1..]))
  }

  /** Everything a side's flushes put on the wire in a run. */
  ghost function FlushedIn(w: World, steps: seq<Step>, isA: bool): multiset<ByteString>
    requires CanRun(w, steps)
    decreases |steps|
  {
    if steps == [] then multiset{}
    else Loose(FlushedBy(w, steps[0], isA)) + FlushedIn(Apply(w, steps[0]), steps[1..], isA)
  }

  lemma Chained<T>(w: multiset<T>, h: multiset<T>, w1: multiset<T>, f: multiset<T>, h1: multiset<T>, w2: multiset<T>, f1: multiset<T>)
    requires w + h == w1 + f && w1 + h1 == w2 + f1
    ensures w + (h + h1) == w2 + (f + f1)
  {
    assert w + (h + h1) == (w + h) + h1;
    assert w2 + (f + f1) == (w2 + f1) + f;
  }

  lemma {:induction false} RunAccounts(w: World, steps: seq<Step>, w': World, isA: bool)
    requires Inv(w) && Runs(w, steps, w')
    ensures CanRun(w, steps)
    ensures Waiting(Self(w, isA).outq) + HandedOverIn(steps, isA)
            == Waiting(Self(w', isA).outq) + FlushedIn(w, steps, isA)
    decreases |steps|
  {
    if steps != [] {
      var step, rest, w1 := steps[0], steps[1..], Apply(w, steps[0]);
      StepKeeps(w, step);
      StepAccounts(w, step, isA);
      RunAccounts(w1, rest, w', isA);
      Chained(Waiting(Self(w, isA).outq), HandedOver(step, isA), Waiting(Self(w1, isA).outq), Loose(FlushedBy(w, step, isA)),
              HandedOverIn(rest, isA), Waiting(Self(w', isA).outq), FlushedIn(w1, rest, isA));
    }
  }

  /** Over every run from the start: the unreliable data a side was handed, each piece as
      often as it was handed over, are exactly those still in its queue and those its
      flushes have put on the wire. So each goes out at most once, and none vanishes. */
  lemma SentAtMostOnce(steps: seq<Step>, w: World, isA: bool)
    requires Runs(World(FRESH_CONN, FRESH_CONN), steps, w)
    ensures CanRun(World(FRESH_CONN, FRESH_CONN), steps)
    ensures HandedOverIn(steps, isA) == Waiting(Self(w, isA).outq) + FlushedIn(World(FRESH_CONN, FRESH_CONN), steps, isA)
  {
    assert Inv(World(FRESH_CONN, FRESH_CONN));
    RunAccounts(World(FRESH_CONN, FRESH_CONN), steps, w, isA);
  }

  lemma {:induction false} NoSendsHandOver(steps: seq<Step>, isA: bool)
    requires NoSends(steps)
    ensures HandedOverIn(steps, isA) == multiset{}
  {
    if steps != [] { NoSendsHandOver(steps[1..], isA); }
  }

  /** And from every reachable state a run in which nothing more is handed over puts exactly
      what is still waiting, on either side, on the wire. */
  lemma EverythingGoesOut(w: World) returns (steps: seq<Step>, w': World)
    requires Reachable(w)
    ensures Runs(w, steps, w') && NoSends(steps) && CanRun(w, steps)
    ensures FlushedIn(w, steps, true) == Waiting(w.a.outq) && FlushedIn(w, steps, false) == Waiting(w.b.outq)
    ensures w'.a.outq == w'.b.outq == []
  {
    ReachableOk(w);
    w' := EverythingGetsThrough(w);
    steps :| Runs(w, steps, w') && NoSends(steps);
    AllGoesOut(w, steps, w', true);
    AllGoesOut(w, steps, w', false);
  }

  lemma AllGoesOut(w: World, steps: seq<Step>, w': World, isA: bool)
    requires Inv(w) && Runs(w, steps, w') && NoSends(steps) && Self(w', isA).outq == []
    ensures CanRun(w, steps) && FlushedIn(w, steps, isA) == Waiting(Self(w, isA).outq)
  {
    RunAccounts(w, steps, w', isA);
    NoSendsHandOver(steps, isA);
    Emptied(Waiting(Self(w, isA).outq), HandedOverIn(steps, isA), Waiting(Self(w', isA).outq), FlushedIn(w, steps, isA));
  }

  lemma Emptied<T>(w: multiset<T>, h: multiset<T>, w': multiset<T>, f: multiset<T>)
    requires w + h == w' + f && h == multiset{} && w' == multiset{}
    ensures f == w
  {
    assert w + multiset{} == w && multiset{} + f == f;
  }

  // ------------------------------------------------------- what a flush sends

  /** Not sent within the last 100 ticks. */
  predicate IsDue(p: Pkt, now: int) { now - p.lastRetry > 100 }

  /** Where a packet in the queue after a flush comes from: it was there, and if it was sent
      again it was due, is reliable, and is not due for another 100 ticks. */
  ghost predicate ComesFrom(outq: seq<Pkt>, now: int, p: Pkt) {
    p in outq || exists q :: q in outq && q.reliable && IsDue(q, now) && p == q.(lastRetry := now)
  }

  ghost predicate DueIn(outq: seq<Pkt>, now: int, d: ByteString) {
    exists q :: q in outq && IsDue(q, now) && q.data == d
  }

  lemma AfterOneFrom(outq: seq<Pkt>, now: int, i: nat, p: Pkt)
    requires i < |outq| && IsDue(outq[i], now) && p in AfterOne(outq, now, i)
    ensures ComesFrom(outq, now, p)
  {
    assert outq[i] in outq;
  }

  lemma {:induction false} FlushOnlyDue(outq: seq<Pkt>, now: int, i: nat)
    ensures forall p | p in Flushed(outq, now, i).0 :: ComesFrom(outq, now, p)
    ensures forall d | d in Flushed(outq, now, i).1 :: DueIn(outq, now, d)
    decreases |outq| - i
  {
    if i < |outq| {
      if now - outq[i].lastRetry <= RELIABLE_RETRY {
        FlushOnlyDue(outq, now, i + 1);
      } else {
        var rest := AfterOne(outq, now, i);
        FlushOnlyDue(rest, now, i + 1);
        forall p | p in Flushed(rest, now, i + 1).0 ensures ComesFrom(outq, now, p) { FromEarlier(outq, now, i, p); }
        forall d | d in Flushed(rest, now, i + 1).1 ensures DueIn(outq, now, d) { DueEarlier(outq, now, i, d); }
        assert DueIn(outq, now, outq[i].data);
      }
    }
  }

  lemma FromEarlier(outq: seq<Pkt>, now: int, i: nat, p: Pkt)
    requires i < |outq| && IsDue(outq[i], now) && ComesFrom(AfterOne(outq, now, i), now, p)
    ensures ComesFrom(outq, now, p)
  {
    var rest := AfterOne(outq, now, i);
    if p in rest {
      AfterOneFrom(outq, now, i, p);
    } else {
      var q :| q in rest && q.reliable && IsDue(q, now) && p == q.(lastRetry := now);
      AfterOneFrom(outq, now, i, q);
    }
  }

  lemma DueEarlier(outq: seq<Pkt>, now: int, i: nat, d: ByteString)
    requires i < |outq| && IsDue(outq[i], now) && DueIn(AfterOne(outq, now, i), now, d)
    ensures DueIn(outq, now, d)
  {
    var q :| q in AfterOne(outq, now, i) && IsDue(q, now) && q.data == d;
    AfterOneFrom(outq, now, i, q);
  }

  /** One flush: a side that is not connected sends nothing; otherwise only packets go out
      that have not gone out for 100 ticks, and what stays is unchanged but for the time. */
  lemma FlushSendsOnlyDue(w: World, isA: bool, now: int)
    requires Reachable(w) && Enabled(w, Flushes(isA, now))
    ensures var c, c' := Self(w, isA), Self(Apply(w, Flushes(isA, now)), isA);
            && c.wire <= c'.wire && (!c.connected ==> c' == c)
            && (forall i | |c.wire| <= i < |c'.wire| :: DueIn(c.outq, now, c'.wire[i]))
            && (forall p | p in c'.outq :: ComesFrom(c.outq, now, p))
            && c' == c.(outq := c'.outq, wire := c'.wire)
  {
    var c := Self(w, isA);
    FlushOnlyDue(c.outq, now, 0);
  }

  /** The data of the packets that are due, in order. */
  function DueData(outq: seq<Pkt>, now: int): seq<ByteString> {
    if outq == [] then []
    else (if IsDue(outq[0], now) then [outq[0].data] else []) + DueData(outq[1..], now)
  }

  /** With nothing but reliable packets in the queue every one that is due goes out, in
      order, and is not due again until 100 ticks later. */
  lemma {:induction false} FlushSendsAllDue(outq: seq<Pkt>, now: int, i: nat)
    requires i <= |outq| && forall j | 0 <= j < |outq| :: outq[j].reliable
    ensures var (outq', out) := Flushed(outq, now, i);
            && out == DueData(outq[i..], now) && |outq'| == |outq|
            && forall j | 0 <= j < |outq| ::
                 outq'[j] == if i <= j && IsDue(outq[j], now) then outq[j].(lastRetry := now) else outq[j]
    decreases |outq| - i
  {
    if i < |outq| {
      assert outq[i..][0] == outq[i] && outq[i..][1..] == outq[i + 1..];
      if now - outq[i].lastRetry <= RELIABLE_RETRY {
        FlushSendsAllDue(outq, now, i + 1);
      } else {
        var rest := outq[i := outq[i].(lastRetry := now)];
        assert rest[i + 1..] == outq[i + 1..];
        FlushSendsAllDue(rest, now, i + 1);
      }
    }
  }
}
