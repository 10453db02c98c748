/** What each step does to the side that takes it, in every reachable world, said by the
    bytes alone. */
module DeliverySteps {
  import opened Options
  import opened Bytes
  import opened Reliable
  import opened Delivery
  import opened Progress

  /** The side after one more step. */
  function Moved(w: World, step: Step): Conn
    requires Enabled(w, step)
  {
    Self(Apply(w, step), step.byA)
  }

  /** Only the side that takes the step changes. */
  lemma OtherSideStays(w: World, step: Step)
    requires Enabled(w, step)
    ensures Delivery.Other(Apply(w, step), step.byA) == Delivery.Other(w, step.byA)
  {
  }

  /** A send puts one packet at the end of the queue, to go out at once: the data as they
      are, or in a frame with the next number, which is then used up; with all numbers used
      up, nothing. */
  lemma SendsDoes(w: World, isA: bool, data: ByteString, rel: bool)
    requires Reachable(w) && Enabled(w, Sends(isA, data, rel))
    ensures var c, c' := Self(w, isA), Moved(w, Sends(isA, data, rel));
            if !rel then c' == c.(outq := c.outq + [Pkt(data, 0, false, None)])
            else if |c.sent| == 0x1_0000_0000 then c' == c
            else
              && |c'.outq| == |c.outq| + 1
              && var p := c'.outq[|c.outq|];
                 && p == Pkt(p.data, 0, true, Some(|c.sent|))
                 && |p.data| == |data| + 6 && p.data[..2] == [0, 3] && Holds32(p.data, 2, |c.sent|) && p.data[6..] == data
                 && c' == c.(outq := c.outq + [p], c2sn := c.c2sn + 1, sent := c.sent + [data])
  {
    ReachableOk(w);
    var c := Self(w, isA);
    if rel && c.c2sn < SEQNUM_LIMIT { FramesAre(c.c2sn, data); }
  }

  /** A contact goes out with the key, and the side is not connected until it is answered. */
  lemma ContactsDoes(w: World, isA: bool, key: nat)
    requires Enabled(w, Contacts(isA, key))
    ensures var c, c' := Self(w, isA), Moved(w, Contacts(isA, key));
            && |c'.wire| == |c.wire| + 1 && c' == c.(wire := c.wire + [c'.wire[|c.wire|]], connected := false)
            && var d := c'.wire[|c.wire|]; |d| == 8 && d[..2] == [0, 1] && Holds32(d, 2, key) && d[6..] == [1, 0]
  {
    FramesAre(key, []);
  }

  /** A contact is answered with what makes zero with its key, and from then on the side is
      connected. */
  lemma AnswersDoes(w: World, isA: bool, i: nat)
    requires Enabled(w, Answers(isA, i))
    ensures var c, c', contact := Self(w, isA), Moved(w, Answers(isA, i)), Delivery.Other(w, isA).wire[i];
            && |c'.wire| == |c.wire| + 1 && c' == c.(wire := c.wire + [c'.wire[|c.wire|]], connected := true)
            && var d := c'.wire[|c.wire|];
               |d| == 6 && d[..2] == [0, 2] && |contact| == 8
               && exists key, n :: Holds32(contact, 2, key) && Holds32(d, 2, n) && (key + n) % 0x1_0000_0000 == 0
  {
    var contact := Delivery.Other(w, isA).wire[i];
    var key := Unpack32(contact, 2);
    FramesAre(key, []);
    assert Holds32(contact, 2, key);
  }

  predicate IsData(d: ByteString, sn: int) { |d| >= 6 && d[0] == 0 && d[1] == 3 && Holds32(d, 2, sn) }

  predicate IsAck(d: ByteString, sn: int) { |d| >= 6 && d[0] == 0 && d[1] == 4 && Holds32(d, 2, sn) }

  predicate IsAnswer(d: ByteString) { |d| >= 2 && d[0] == 0 && d[1] == 2 }

  /** What arrives is noted with its time, whatever it is. */
  lemma ArrivalIsNoted(w: World, isA: bool, i: nat, now: int)
    requires Reachable(w) && Enabled(w, Arrives(isA, i, now))
    ensures var c, c', d := Self(w, isA), Moved(w, Arrives(isA, i, now)), Delivery.Other(w, isA).wire[i];
            d != [] ==> c'.lastRecv == now
    ensures var c, c', d := Self(w, isA), Moved(w, Arrives(isA, i, now)), Delivery.Other(w, isA).wire[i];
            c'.connected == (c.connected || IsAnswer(d)) && c'.sent == c.sent
  {
    var d := Delivery.Other(w, isA).wire[i];
    if d != [] && !Malformed(d) { DrainLeaves(Receive(Self(w, isA).(lastRecv := now), d)); }
  }

  lemma NumberIs(d: ByteString, sn: nat)
    requires Holds32(d, 2, sn)
    ensures Unpack32(d, 2) == sn
  {
  }

  lemma ReadLeaves(c: Conn, d: ByteString, now: int)
    requires d != [] && !Malformed(d)
    ensures var c1 := Receive(c.(lastRecv := now), d); Read(c, d, now).outq == c1.outq && Read(c, d, now).wire == c1.wire
  {
    DrainLeaves(Receive(c.(lastRecv := now), d));
  }

  /** Data are acknowledged with their number, however often they come. */
  lemma DataArrives(w: World, isA: bool, i: nat, now: int, sn: nat)
    requires Enabled(w, Arrives(isA, i, now)) && IsData(Delivery.Other(w, isA).wire[i], sn)
    ensures var c, c' := Self(w, isA), Moved(w, Arrives(isA, i, now));
            && c'.outq == c.outq && |c'.wire| == |c.wire| + 1 && c'.wire[..|c.wire|] == c.wire
            && IsAck(c'.wire[|c.wire|], sn) && |c'.wire[|c.wire|]| == 6
  {
    var d := Delivery.Other(w, isA).wire[i];
    NumberIs(d, sn);
    ReadLeaves(Self(w, isA), d, now);
    FramesAre(sn, []);
  }

  /** An acknowledgement takes exactly the packets with its number off the queue. */
  lemma AckArrives(w: World, isA: bool, i: nat, now: int, sn: nat)
    requires Reachable(w) && Enabled(w, Arrives(isA, i, now)) && IsAck(Delivery.Other(w, isA).wire[i], sn)
    ensures var c, c' := Self(w, isA), Moved(w, Arrives(isA, i, now));
            c'.wire == c.wire && forall p :: p in c'.outq <==> p in c.outq && p.seqnum != Some(sn)
  {
    var d := Delivery.Other(w, isA).wire[i];
    ReachableOk(w);
    NumberIs(d, sn);
    ReadLeaves(Self(w, isA), d, now);
    AckedRemovesOne(Self(w, isA).outq, sn, 0);
  }

  /** Nothing else that comes touches queue or wire. */
  lemma RestArrives(w: World, isA: bool, i: nat, now: int)
    requires Enabled(w, Arrives(isA, i, now))
    requires var d := Delivery.Other(w, isA).wire[i]; !(|d| >= 6 && d[0] == 0 && d[1] in {3, 4})
    ensures var c, c' := Self(w, isA), Moved(w, Arrives(isA, i, now)); c'.outq == c.outq && c'.wire == c.wire
  {
    var d := Delivery.Other(w, isA).wire[i];
    if d != [] && !Malformed(d) { ReadLeaves(Self(w, isA), d, now); }
  }
}
