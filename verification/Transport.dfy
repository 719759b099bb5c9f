/** From the marshaller's calls to the listener's: what arrives, when all of it does, and what a
    wrapped counter, a cut or joined datagram or a rejected packet costs. */
module Transport {
  import opened Codec
  import opened Wire
  import opened Marshalling
  import opened Batching
  import opened Decoder
  import opened Channel

  type Filter = Header -> bool

  /** The filter lets every header of this sender through. */
  ghost predicate AcceptsSource(filter: Filter, src: Source) {
    forall q: uint32, n: byte :: filter(HeaderOf(src, q, n))
  }

  // ------------------------------------------------------------------- one packet

  /** A packet with at most 255 messages is delivered in full and leaves the register cleared,
      whatever its bytes are and whatever follows it in memory. */
  lemma PacketDelivered(filter: Filter, sync: uint32, src: Source, q: uint32, ms: seq<Message>, next: byte)
    requires sync != SYNC && |ms| <= 255
    ensures var h := HeaderOf(src, q, |ms|);
            Decode(filter, sync, PacketOf(src, q, ms), next) ==
            if filter(h) then Outcome(0, [Filtered(h)] + Calls(h, ReceivedAll(ms)), false)
            else Outcome(SYNC, [Filtered(h)], false)
  {
    hide EncodeAll, HeaderOf, ReadBody, Decode, PacketBytes, ReceivedAll, Calls;
    PacketHead(filter, sync, src, q, |ms|, EncodeAll(ms), next);
    BodyReadBack(ms, []);
    assert EncodeAll(ms) + [] == EncodeAll(ms);
    DecodeNothing(filter, 0, next);
    var h := HeaderOf(src, q, |ms|);
    assert [Filtered(h)] + Calls(h, ReceivedAll(ms)) + [] == [Filtered(h)] + Calls(h, ReceivedAll(ms));
  }

  lemma MessagesOfPacket(h: Header, ms: seq<Message>, rest: seq<Event>)
    ensures Messages([Filtered(h)] + Calls(h, ms) + rest) == ms + Messages(rest)
  {
    MessagesConcat([Filtered(h)] + Calls(h, ms), rest);
    MessagesConcat([Filtered(h)], Calls(h, ms));
    MessagesOfCalls(h, ms);
    assert Messages([Filtered(h)]) == [];
  }

  lemma PacketArrives(filter: Filter, sync: uint32, src: Source, q: uint32, ms: seq<Message>, next: byte)
    requires sync != SYNC && |ms| <= 255 && filter(HeaderOf(src, q, |ms|))
    ensures var o := Decode(filter, sync, PacketOf(src, q, ms), next);
            o.sync == 0 && !o.overread && Messages(o.events) == ReceivedAll(ms)
  {
    hide Decode, PacketOf, HeaderOf, Messages, Received;
    PacketDelivered(filter, sync, src, q, ms, next);
    var h := HeaderOf(src, q, |ms|);
    MessagesOfPacket(h, ReceivedAll(ms), []);
    MessagesOfNothing();
    assert [Filtered(h)] + Calls(h, ReceivedAll(ms)) + [] == [Filtered(h)] + Calls(h, ReceivedAll(ms));
    assert ReceivedAll(ms) + [] == ReceivedAll(ms);
  }

  /** With more messages than the counter can hold, the first `n mod 256` are delivered and the
      parser goes hunting in the encodings of the others. */
  lemma WrappedPacket(filter: Filter, sync: uint32, src: Source, q: uint32, ms: seq<Message>, next: byte)
    requires sync != SYNC && filter(HeaderOf(src, q, |ms| % 0x100))
    ensures var c := |ms| % 0x100;
            var o := Decode(filter, 0, EncodeAll(ms[c..]), next);
            var p := Decode(filter, sync, PacketOf(src, q, ms), next);
            p.sync == o.sync && Messages(p.events) == ReceivedAll(ms[..c]) + Messages(o.events)
  {
    hide EncodeAll, HeaderOf, Messages;
    var c := |ms| % 0x100;
    PacketHead(filter, sync, src, q, c, EncodeAll(ms), next);
    assert ms == ms[..c] + ms[c..];
    EncodeAllConcat(ms[..c], ms[c..]);
    BodyReadBack(ms[..c], EncodeAll(ms[c..]));
    MessagesOfPacket(HeaderOf(src, q, c), ReceivedAll(ms[..c]), Decode(filter, 0, EncodeAll(ms[c..]), next).events);
  }

  /** The counter is one byte wide: a flush of `n` messages sends nothing when 256 divides `n` (or when
      the callback throws), and otherwise exactly the first `n mod 256` arrive if the other encodings
      hold no sync word. */
  lemma CountWrap(cback: Callback, s: State, filter: Filter, sync: uint32, src: Source, next: byte)
    requires s.good && sync != SYNC && AcceptsSource(filter, src)
    ensures var c := |s.pending| % 0x100;
            var sent := Flushed(src, cback, s).sent;
            if c == 0 || FlushThrows(src, cback, s) then sent == s.sent
            else
              && sent[..|sent| - 1] == s.sent
              && (forall i: nat :: !OccursAt(SYNC_BYTES, EncodeAll(s.pending[c..]), i)) ==>
                   var p := Decode(filter, sync, sent[|sent| - 1], next);
                   Messages(p.events) == ReceivedAll(s.pending[..c]) && p.sync != SYNC
  {
    hide EncodeAll, HeaderOf, Messages, PacketOf;
    var c := |s.pending| % 0x100;
    var tail := EncodeAll(s.pending[c..]);
    if c > 0 && (forall i: nat :: !OccursAt(SYNC_BYTES, tail, i)) {
      WrappedPacket(filter, sync, src, s.flushes % 0x1_0000_0000, s.pending, next);
      NeverLocksIffAbsent(tail);
      SelfSynchronisation(filter, 0, tail, [], next);
      assert tail[..|tail|] == tail;
      MessagesOfNothing();
    }
  }

  lemma MessagesOfNothing()
    ensures Messages([]) == []
  {
  }

  // ------------------------------------------------------------------ whole streams

  lemma {:induction false} DecodeStreamAppend(filter: Filter, sync: uint32, stream: seq<seq<byte>>, data: seq<byte>,
                                              next: seq<byte>, x: byte)
    requires |next| == |stream|
    ensures var a := DecodeStream(filter, sync, stream, next);
            var b := Decode(filter, a.sync, data, x);
            DecodeStream(filter, sync, stream + [data], next + [x]) ==
            Outcome(b.sync, a.events + b.events, a.overread || b.overread)
    decreases |stream|
  {
    hide Decode;
    var more, nexts := stream + [data], next + [x];
    if stream == [] {
      assert more[0] == data && more[1..] == [] && nexts[1..] == [];
      var b := Decode(filter, sync, data, x);
      assert DecodeStream(filter, b.sync, [], []) == Outcome(b.sync, [], false);
      assert b.events + [] == b.events && [] + b.events == b.events;
    } else {
      var a := Decode(filter, sync, stream[0], next[0]);
      DecodeStreamAppend(filter, a.sync, stream[1..], data, next[1..], x);
      assert more[1..] == stream[1..] + [data] && nexts[1..] == next[1..] + [x];
    }
  }

  /** A callback that never refuses a datagram, though it may throw, keeps the marshaller good. */
  lemma AlwaysGood(src: Source, cback: Callback, ops: seq<Op>)
    requires forall xs :: cback(xs) != Refused
    ensures Run(src, cback, ops).good
  {
    hide *;
    GoodIffNoneRefused(src, cback, ops);
  }

  lemma BatchesOfNothing(src: Source, filter: Filter, sync: uint32)
    ensures Packets(src, []) == [] && ReceivedAll(Flatten([])) == []
    ensures DecodeStream(filter, sync, [], []) == Outcome(sync, [], false)
    ensures Messages([]) == []
  {
  }

  lemma OneMorePacket(filter: Filter, sync: uint32, stream: seq<seq<byte>>, next: seq<byte>,
                      src: Source, q: uint32, ms: seq<Message>, x: byte)
    requires |next| == |stream| && |ms| <= 255 && AcceptsSource(filter, src)
    requires DecodeStream(filter, sync, stream, next).sync != SYNC
    ensures var a := DecodeStream(filter, sync, stream, next);
            var o := DecodeStream(filter, sync, stream + [PacketOf(src, q, ms)], next + [x]);
            && o.sync == 0 && o.overread == a.overread
            && Messages(o.events) == Messages(a.events) + ReceivedAll(ms)
  {
    hide DecodeStream, Decode, PacketOf, Messages, Received;
    var a := DecodeStream(filter, sync, stream, next);
    DecodeStreamAppend(filter, sync, stream, PacketOf(src, q, ms), next, x);
    PacketArrives(filter, a.sync, src, q, ms, x);
    MessagesConcat(a.events, Decode(filter, a.sync, PacketOf(src, q, ms), x).events);
  }

  /** With at most 255 messages to a batch, the packets of the batches arrive complete and in order. */
  lemma {:induction false} BatchesArrive(src: Source, bs: seq<seq<Message>>, filter: Filter, sync: uint32,
                                         next: seq<byte>)
    requires forall b <- bs :: |b| <= 255
    requires AcceptsSource(filter, src) && sync != SYNC
    requires |next| == |Packets(src, bs)|
    ensures var o := DecodeStream(filter, sync, Packets(src, bs), next);
            o.sync != SYNC && !o.overread && Messages(o.events) == ReceivedAll(Flatten(bs))
  {
    hide DecodeStream, PacketOf, ReceivedAll, Messages, AcceptsSource, Packets, Flatten;
    if bs == [] {
      BatchesOfNothing(src, filter, sync);
    } else {
      var init, b := bs[..|bs| - 1], bs[|bs| - 1];
      assert bs == init + [b];
      PacketsStep(src, init, b);
      FlattenAppend(init, b);
      var sent := Packets(src, init);
      if |b| > 0 {
        var x := next[|sent|];
        assert next == next[..|sent|] + [x];
        BatchesArrive(src, init, filter, sync, next[..|sent|]);
        OneMorePacket(filter, sync, sent, next[..|sent|], src, |init| % 0x1_0000_0000, b, x);
        ReceivedAllConcat(Flatten(init), b);
      } else {
        assert Packets(src, bs) == sent;
        BatchesArrive(src, init, filter, sync, next);
        assert Flatten(init) + b == Flatten(init);
      }
    }
  }

  /** End to end: for every run of calls that leaves nothing pending, and every callback that refused
      nothing, parsing the sent datagrams one per call delivers the messages of all calls that did not
      throw, completely and in order. */
  lemma Transparency(src: Source, cback: Callback, ops: seq<Op>, filter: Filter, sync: uint32, next: seq<byte>)
    requires Run(src, cback, ops).good && Run(src, cback, ops).pending == []
    requires forall b <- Closed(Completed(src, cback, ops)) :: |b| <= 255
    requires AcceptsSource(filter, src) && sync != SYNC
    requires |next| == |Run(src, cback, ops).sent|
    ensures Messages(DecodeStream(filter, sync, Run(src, cback, ops).sent, next).events)
            == ReceivedAll(AllWritten(Completed(src, cback, ops)))
  {
    hide Decode, PacketOf, Received, Run, Completed, Packets;
    var done := Completed(src, cback, ops);
    RunIsBatched(src, cback, ops);
    BatchesArrive(src, Closed(done), filter, sync, next);
    NothingLost(done);
    assert Flatten(Closed(done)) + [] == Flatten(Closed(done));
  }

  // --------------------------------------------------- transparency, exactly when

  ghost function DeliveredBytes(events: seq<Event>): nat {
    |EncodeAll(Messages(events))|
  }

  lemma DeliveredBytesConcat(a: seq<Event>, b: seq<Event>)
    ensures DeliveredBytes(a + b) == DeliveredBytes(a) + DeliveredBytes(b)
  {
    MessagesConcat(a, b);
    EncodeAllConcat(Messages(a), Messages(b));
  }

  lemma {:induction false} BodyBytes(n: nat, data: seq<byte>)
    ensures var b := ReadBody(n, data);
            |EncodeAll(b.messages)| + (if b.Complete? then |b.rest| else 0) <= |data|
    decreases n
  {
    hide Encode;
    if n > 0 && data != [] && ReadMessage(data).Read? {
      var m := ReadMessage(data).message;
      var tail := ReadBody(n - 1, data[MsgSize(m)..]);
      BodyBytes(n - 1, data[MsgSize(m)..]);
      assert ReadBody(n, data) == tail.Cons(m);
      assert ([m] + tail.messages)[1..] == tail.messages;
    }
  }

  lemma PacketBytesBound(filter: Filter, data: seq<byte>, next: byte)
    requires |data| >= HEADER_SIZE
    ensures var p := ReadPacket(filter, data, next);
            DeliveredBytes(p.events) + (if p.complete then |p.rest| else 0) <= if |data| > 29 then |data| - 29 else 0
  {
    hide EncodeAll, ReadHeader, Messages, ReadBody;
    var h := ReadHeader((data + [next])[..29]);
    var n, body := h.nMessages, if |data| == HEADER_SIZE then [] else data[29..];
    BodyBytes(n, body);
    MessagesOfPacket(h, ReadBody(n, body).messages, []);
    MessagesOfPacket(h, [], []);
    MessagesOfNothing();
    EncodeNothing();
    assert [Filtered(h)] + Calls(h, []) + [] == [Filtered(h)];
    var calls := Calls(h, ReadBody(n, body).messages);
    assert [Filtered(h)] + calls + [] == [Filtered(h)] + calls;
    assert ReadBody(n, body).messages + [] == ReadBody(n, body).messages;
  }

  /** Every delivered message was paid for in bytes, and every packet with 29 more. */
  lemma {:induction false} DecodeBytesBound(filter: Filter, sync: uint32, data: seq<byte>, next: byte)
    ensures var d := DeliveredBytes(Decode(filter, sync, data, next).events);
            d == 0 || d <= |data| - (if sync == SYNC then 29 else 30)
    decreases |data|
  {
    hide EncodeAll, ReadPacket, Messages;
    MessagesOfNothing();
    EncodeNothing();
    if data == [] {
    } else if sync != SYNC {
      DecodeBytesBound(filter, Shift(sync, data[0]), data[1..], next);
    } else if |data| >= HEADER_SIZE {
      PacketBytesBound(filter, data, next);
      var p := ReadPacket(filter, data, next);
      if p.complete {
        DecodeBytesBound(filter, 0, p.rest, next);
        DeliveredBytesConcat(p.events, Decode(filter, 0, p.rest, next).events);
      }
    }
  }

  lemma LeadingSequenceByte(src: Source, q: uint32, count: byte, body: seq<byte>)
    requires q < 0x100_0000
    ensures PacketBytes(src, q, count, body)[28] == 0
  {
    BigEndianDigit(q, 4, 0);
    assert Pow256(3) == 0x100_0000 by { assert Pow256(2) == 0x1_0000; }
    assert PacketBytes(src, q, count, body)[28] == BigEndian(q, 4)[0];
  }

  /** The header a locked parser reads from the start of a packet. */
  function ShiftedHeader(packet: seq<byte>): Header
    requires |packet| >= HEADER_OFFS
  {
    ReadHeader(packet[..29])
  }

  /** A parser left locked by an earlier packet takes the sync word for a name: for the first 2^24
      sequence numbers it sees a header without messages, and hunts on from offset 29. */
  lemma LockedPacket(filter: Filter, src: Source, q: uint32, count: byte, body: seq<byte>, next: byte)
    requires q < 0x100_0000
    ensures var packet := PacketBytes(src, q, count, body);
            var h := ShiftedHeader(packet);
            Decode(filter, SYNC, packet, next) ==
            if filter(h) then
              var o := Decode(filter, 0, packet[29..], next);
              Outcome(o.sync, [Filtered(h)] + o.events, o.overread)
            else Outcome(SYNC, [Filtered(h)], false)
  {
    var packet := PacketBytes(src, q, count, body);
    LeadingSequenceByte(src, q, count, body);
    hide PacketBytes;
    assert (packet + [next])[..29] == packet[..29];
    var h := ShiftedHeader(packet);
    assert h.nMessages == 0 by { assert packet[..29][28] == packet[28]; }
    assert [Filtered(h)] + Calls(h, []) == [Filtered(h)];
  }

  lemma SpuriousBytes(src: Source, ms: seq<Message>)
    ensures PacketOf(src, 0x0103_0000, ms)[28] == 1 && PacketOf(src, 0x0103_0000, ms)[29] == TYPE_HEARTBEAT
  {
    hide FixedString, EncodeAll, BigEndian;
    Digits(1, 3, 0, 0);
    assert PacketOf(src, 0x0103_0000, ms)[28..30] == BigEndian(0x0103_0000, 4)[..2];
  }

  /** From sequence number 2^24 on a locked parser may take sequence bytes for messages: here it
      delivers a heartbeat, whatever was written. */
  lemma SpuriousHeartbeat(filter: Filter, src: Source, ms: seq<Message>, next: byte)
    requires forall h :: filter(h)
    ensures var got := Messages(Decode(filter, SYNC, PacketOf(src, 0x0103_0000, ms), next).events);
            got != [] && got[0] == Heartbeat
  {
    hide PacketOf, ReadHeader, Decode, Messages, ReadBody;
    var packet := PacketOf(src, 0x0103_0000, ms);
    SpuriousBytes(src, ms);
    assert (packet + [next])[..29] == packet[..29];
    var h := ShiftedHeader(packet);
    ShiftedCount(packet);
    BodyStep(1, packet[29..], Heartbeat);
    BodyEnd(0, packet[29..][1..]);
    assert [Heartbeat] + [] == [Heartbeat];
    var p := ReadPacket(filter, packet, next);
    assert p.events == [Filtered(h)] + Calls(h, [Heartbeat]);
    DecodeStep(filter, SYNC, packet, next);
    var o := Decode(filter, 0, p.rest, next);
    MessagesOfPacket(h, [Heartbeat], o.events);
  }

  lemma ShiftedCount(packet: seq<byte>)
    requires |packet| >= HEADER_OFFS
    ensures ShiftedHeader(packet).nMessages == packet[28]
  {
  }

  /** No packet delivers more bytes than were written into it, and one whose counter wrapped
      delivers fewer, whatever state the parser is in. */
  lemma PacketDeliveredBytes(filter: Filter, sync: uint32, src: Source, q: uint32, ms: seq<Message>, next: byte)
    requires q < 0x100_0000
    ensures var d := DeliveredBytes(Decode(filter, sync, PacketOf(src, q, ms), next).events);
            d <= |EncodeAll(ms)| && (|ms| > 255 ==> d < |EncodeAll(ms)|)
  {
    hide EncodeAll, Messages, PacketBytes, HeaderOf, ReadHeader, Decode, ReceivedAll;
    var c := |ms| % 0x100;
    var packet := PacketOf(src, q, ms);
    EncodeAllSize(ms);
    MessagesOfNothing();
    EncodeNothing();
    if sync == SYNC {
      LockedPacket(filter, src, q, c, EncodeAll(ms), next);
      var h := ShiftedHeader(packet);
      var o := Decode(filter, 0, packet[29..], next);
      DecodeBytesBound(filter, 0, packet[29..], next);
      DeliveredBytesConcat([Filtered(h)], o.events);
      JustFiltered(h);
    } else {
      var h := HeaderOf(src, q, c);
      if filter(h) {
        WrappedPacket(filter, sync, src, q, ms, next);
        assert ms == ms[..c] + ms[c..];
        EncodeAllConcat(ms[..c], ms[c..]);
        EncodeAllSize(ms[..c]);
        EncodeAllSize(ms[c..]);
        DecodeBytesBound(filter, 0, EncodeAll(ms[c..]), next);
        EncodeAllConcat(ReceivedAll(ms[..c]), Messages(Decode(filter, 0, EncodeAll(ms[c..]), next).events));
      } else {
        PacketHead(filter, sync, src, q, c, EncodeAll(ms), next);
        JustFiltered(h);
      }
    }
  }

  lemma JustFiltered(h: Header)
    ensures Messages([Filtered(h)]) == [] && DeliveredBytes([Filtered(h)]) == 0
  {
  }

  lemma {:induction false} StreamDeliveredBytes(src: Source, bs: seq<seq<Message>>, filter: Filter, sync: uint32,
                                                next: seq<byte>)
    requires |bs| <= 0x100_0000
    requires |next| == |Packets(src, bs)|
    ensures var d := DeliveredBytes(DecodeStream(filter, sync, Packets(src, bs), next).events);
            && d <= |EncodeAll(Flatten(bs))|
            && ((exists b <- bs :: |b| > 255) ==> d < |EncodeAll(Flatten(bs))|)
  {
    hide Decode, PacketOf, EncodeAll, Messages, Packets, DecodeStream, Flatten, DeliveredBytes;
    if bs == [] {
      NoBytes(src, filter, sync);
    } else {
      var k := |bs| - 1;
      var init, b := bs[..k], bs[k];
      assert bs == init + [b];
      PacketsStep(src, init, b);
      FlattenAppend(init, b);
      EncodeAllConcat(Flatten(init), b);
      EncodeAllSize(b);
      assert forall c <- bs :: c in init || c == b;
      var sent := Packets(src, init);
      if |b| % 0x100 > 0 {
        StreamDeliveredBytes(src, init, filter, sync, next[..|sent|]);
        var x := next[|sent|];
        assert next == next[..|sent|] + [x];
        DecodeStreamAppend(filter, sync, sent, PacketOf(src, k, b), next[..|sent|], x);
        var a := DecodeStream(filter, sync, sent, next[..|sent|]);
        PacketDeliveredBytes(filter, a.sync, src, k, b, x);
        DeliveredBytesConcat(a.events, Decode(filter, a.sync, PacketOf(src, k, b), x).events);
      } else {
        assert Packets(src, bs) == sent;
        StreamDeliveredBytes(src, init, filter, sync, next);
      }
    }
  }

  lemma NoBytes(src: Source, filter: Filter, sync: uint32)
    ensures Packets(src, []) == [] && DeliveredBytes(DecodeStream(filter, sync, [], []).events) == 0
  {
    MessagesOfNothing();
    EncodeNothing();
  }

  /** Over the first 2^24 flushes everything written without an exception arrives exactly when no batch
      outgrew the one-byte counter. */
  lemma TransparencyExact(src: Source, cback: Callback, ops: seq<Op>, filter: Filter, sync: uint32, next: seq<byte>)
    requires Run(src, cback, ops).good && Run(src, cback, ops).pending == []
    requires Run(src, cback, ops).flushes <= 0x100_0000
    requires AcceptsSource(filter, src) && sync != SYNC
    requires |next| == |Run(src, cback, ops).sent|
    ensures Messages(DecodeStream(filter, sync, Run(src, cback, ops).sent, next).events)
            == ReceivedAll(AllWritten(Completed(src, cback, ops)))
            <==> forall b <- Closed(Completed(src, cback, ops)) :: |b| <= 255
  {
    hide Decode, PacketOf, Received, EncodeAll, Messages, Run, Completed, Packets;
    var done := Completed(src, cback, ops);
    if forall b <- Closed(done) :: |b| <= 255 {
      Transparency(src, cback, ops, filter, sync, next);
    } else {
      RunIsBatched(src, cback, ops);
      NothingLost(done);
      assert Flatten(Closed(done)) + [] == Flatten(Closed(done));
      StreamDeliveredBytes(src, Closed(done), filter, sync, next);
      EncodeAllSize(AllWritten(done));
    }
  }
}
