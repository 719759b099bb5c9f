/** Datagrams that are cut, joined or rejected. */
module Faults {
  import opened Codec
  import opened Wire
  import opened Decoder
  import opened Channel
  import opened Overread
  import opened Transport

  datatype Packet = Packet(src: Source, sequence: uint32, messages: seq<Message>) {
    function Bytes(): seq<byte> {
      PacketOf(src, sequence, messages)
    }

    function Head(): Header {
      HeaderOf(src, sequence, |messages| % 0x100)
    }
  }

  // ---------------------------------------------------------------------- cut short

  /** How many of the messages have their encodings wholly inside the first `p` bytes. */
  function Whole(ms: seq<Message>, p: nat): nat {
    if ms == [] || MsgSize(ms[0]) > p then 0 else 1 + Whole(ms[1..], p - MsgSize(ms[0]))
  }

  lemma {:induction false} WholeIsLargest(ms: seq<Message>, p: nat)
    ensures Whole(ms, p) <= |ms|
    ensures forall k {:trigger ms[..k]} :: 0 <= k <= |ms| ==> (|EncodeAll(ms[..k])| <= p <==> k <= Whole(ms, p))
  {
    if ms == [] {
    } else {
      hide Encode;
      var m := ms[0];
      if MsgSize(m) <= p {
        WholeIsLargest(ms[1..], p - MsgSize(m));
      }
      forall k | 0 <= k <= |ms| ensures |EncodeAll(ms[..k])| <= p <==> k <= Whole(ms, p) {
        if k > 0 {
          assert ms[..k][1..] == ms[1..][..k - 1];
        }
      }
    }
  }

  lemma CutMessage(m: Message, p: nat)
    requires 0 < p < MsgSize(m)
    ensures ReadMessage(Encode(m)[..p]) == NoMessage
  {
    hide FixedString, BigEndian;
  }

  lemma {:induction false} CutBody(ms: seq<Message>, p: nat)
    requires p < |EncodeAll(ms)|
    ensures Whole(ms, p) < |ms|
    ensures ReadBody(|ms|, EncodeAll(ms)[..p]) == Broken(ReceivedAll(ms[..Whole(ms, p)]))
  {
    hide Encode, ReadMessage, Received, ReadBody;
    var m, size := ms[0], MsgSize(ms[0]);
    var data := EncodeAll(ms)[..p];
    if p < size {
      assert data == Encode(m)[..p];
      if p > 0 {
        CutMessage(m, p);
      }
      BodyEnd(|ms|, data);
    } else {
      var tail := EncodeAll(ms[1..])[..p - size];
      assert data == Encode(m) + tail;
      CutBody(ms[1..], p - size);
      MessageReadBack(m, tail);
      ReceivedSize(m);
      BodyStep(|ms|, data, Received(m));
      var k := Whole(ms[1..], p - size);
      assert ms[..k + 1] == [m] + ms[1..][..k];
      assert ReceivedAll([m] + ms[1..][..k]) == [Received(m)] + ReceivedAll(ms[1..][..k]);
    }
  }

  /** Of an accepted datagram cut to any length exactly the messages that are wholly inside arrive,
      whatever byte follows, and of a rejected one none.  A cut behind the sync word leaves the parser
      locked, with one exception: a packet cut to 32 bytes is read past its end, and a zero there is
      taken for its message count. */
  lemma Truncation(filter: Filter, sync: uint32, p: Packet, cut: nat, next: byte)
    requires sync != SYNC && |p.messages| <= 255
    requires cut <= |p.Bytes()|
    ensures var whole := if cut < HEADER_OFFS || !filter(p.Head()) then 0 else Whole(p.messages, cut - HEADER_OFFS);
            var o := Decode(filter, sync, p.Bytes()[..cut], next);
            && whole <= |p.messages|
            && Messages(o.events) == ReceivedAll(p.messages[..whole])
            && o.overread == (cut == 32)
            && (cut < 4 ==> o.sync == Register(sync, p.Bytes()[..cut]) != SYNC)
            && (4 <= cut < 32 ==> o.sync == SYNC)
            && (cut == 32 ==> o.sync == if filter(HeaderOf(p.src, p.sequence, next)) && next == 0 then 0 else SYNC)
            && (HEADER_OFFS <= cut ==> o.sync == if cut < |p.Bytes()| || !filter(p.Head()) then SYNC else 0)
  {
    hide EncodeAll, PacketBytes, Messages, ReadBody, ReceivedAll, HeaderOf, Decode;
    var ms := p.messages;
    var body := EncodeAll(ms);
    assert ms[..0] == [];
    assert ReceivedAll([]) == [] by { ReceivedNothing(); }
    if cut < HEADER_OFFS {
      CutHeader(filter, sync, p, cut, next);
    } else if !filter(p.Head()) {
      PacketPrefix(p, cut - HEADER_OFFS);
      PacketHead(filter, sync, p.src, p.sequence, |ms|, body[..cut - HEADER_OFFS], next);
      JustFiltered(p.Head());
    } else if cut == |p.Bytes()| {
      assert p.Bytes()[..cut] == p.Bytes();
      PacketArrives(filter, sync, p.src, p.sequence, ms, next);
      WholeIsLargest(ms, |body|);
      assert ms[..|ms|] == ms;
    } else {
      var part := body[..cut - HEADER_OFFS];
      PacketPrefix(p, cut - HEADER_OFFS);
      PacketHead(filter, sync, p.src, p.sequence, |ms|, part, next);
      CutBody(ms, cut - HEADER_OFFS);
      var got := ReceivedAll(ms[..Whole(ms, cut - HEADER_OFFS)]);
      MessagesOfPacket(p.Head(), got, []);
      MessagesOfNothing();
      assert [Filtered(p.Head())] + Calls(p.Head(), got) + [] == [Filtered(p.Head())] + Calls(p.Head(), got);
      assert got + [] == got;
    }
  }

  lemma ReceivedNothing()
    ensures ReceivedAll([]) == []
  {
  }

  lemma PacketPrefix(p: Packet, n: nat)
    requires n <= |EncodeAll(p.messages)|
    ensures p.Bytes()[..HEADER_OFFS + n] ==
            PacketBytes(p.src, p.sequence, |p.messages| % 0x100, EncodeAll(p.messages)[..n])
  {
    hide EncodeAll, Preamble, BigEndian;
  }

  /** A datagram cut inside its header delivers nothing, also when the count is read from behind it. */
  lemma CutHeader(filter: Filter, sync: uint32, p: Packet, cut: nat, next: byte)
    requires sync != SYNC && cut < HEADER_OFFS
    ensures var o := Decode(filter, sync, p.Bytes()[..cut], next);
            && Messages(o.events) == [] && o.overread == (cut == 32)
            && (cut < 4 ==> o.sync == Register(sync, p.Bytes()[..cut]) != SYNC)
            && (4 <= cut < 32 ==> o.sync == SYNC)
            && (cut == 32 ==> o.sync == if filter(HeaderOf(p.src, p.sequence, next)) && next == 0 then 0 else SYNC)
  {
    hide EncodeAll, Decode, Messages, PacketBytes, Register, HeaderOf, ReadHeader;
    var data := p.Bytes()[..cut];
    PacketStart(p);
    SyncLocks(sync);
    var n := if cut < 4 then cut else 4;
    var word := SYNC_BYTES[..n];
    assert data == word + data[n..];
    assert forall k :: 0 <= k < n ==> word[..k] == SYNC_BYTES[..k];
    SkipJunk(filter, sync, word, data[n..], next);
    if cut >= 4 {
      assert word == SYNC_BYTES;
      ShortHeader(filter, data[4..], next);
      if cut == 32 {
        HeaderWithNext(p, next);
      }
    } else {
      assert data == word && data[n..] == [];
      DecodeNothing(filter, Register(sync, word), next);
      MessagesOfNothing();
    }
  }

  /** Cut to 32 bytes, a packet shows the header it would have if the byte behind were its count. */
  lemma HeaderWithNext(p: Packet, next: byte)
    ensures ReadHeader(p.Bytes()[..32][4..] + [next]) == HeaderOf(p.src, p.sequence, next)
    ensures HeaderOf(p.src, p.sequence, next).nMessages == next
  {
    hide EncodeAll, ReadHeader, FixedString, BigEndian;
    HeaderReadBack(p.src, p.sequence, next);
    assert p.Bytes()[..32][4..] + [next] == PacketBytes(p.src, p.sequence, next, [])[4..];
  }

  lemma ShortHeader(filter: Filter, data: seq<byte>, next: byte)
    requires |data| <= HEADER_SIZE
    ensures var o := Decode(filter, SYNC, data, next);
            && Messages(o.events) == [] && o.overread == (|data| == HEADER_SIZE)
            && (|data| < HEADER_SIZE ==> o.sync == SYNC)
            && (|data| == HEADER_SIZE ==>
                  var h := ReadHeader(data + [next]);
                  o.sync == if filter(h) && h.nMessages == 0 then 0 else SYNC)
  {
    hide ReadHeader, Messages, Decode;
    MessagesOfNothing();
    DecodeStep(filter, SYNC, data, next);
    if |data| == HEADER_SIZE {
      assert (data + [next])[..29] == data + [next];
      var h := ReadHeader(data + [next]);
      BodyEnd(h.nMessages, []);
      assert [Filtered(h)] + Calls(h, []) == [Filtered(h)];
      JustFiltered(h);
      DecodeNothing(filter, 0, next);
      var p := ReadPacket(filter, data, next);
      assert p.events == [Filtered(h)] && p.events + [] == p.events;
    }
  }

  lemma PacketStart(p: Packet)
    ensures p.Bytes()[..4] == SYNC_BYTES
  {
    hide EncodeAll;
    HeaderReadBack(p.src, p.sequence, |p.messages| % 0x100);
    assert p.Bytes()[..4] == PacketBytes(p.src, p.sequence, |p.messages| % 0x100, [])[..4];
  }

  // ------------------------------------------------------------------- unknown types

  /** Readable messages in front are read, whatever comes behind them. */
  lemma {:induction false} BodyFront(n: nat, ms: seq<Message>, rest: seq<byte>)
    requires |ms| <= n
    ensures ReadBody(n, EncodeAll(ms) + rest) ==
            match ReadBody(n - |ms|, rest)
            case Complete(more, tail) => Complete(ReceivedAll(ms) + more, tail)
            case Broken(more) => Broken(ReceivedAll(ms) + more)
  {
    hide Encode, ReadMessage, Received, ReadBody;
    if ms == [] {
      assert EncodeAll(ms) + rest == rest && ReceivedAll(ms) == [];
      assert forall more: seq<Message> :: [] + more == more;
    } else {
      var m, tail := ms[0], EncodeAll(ms[1..]) + rest;
      assert EncodeAll(ms) + rest == Encode(m) + tail by { Assoc(Encode(m), EncodeAll(ms[1..]), rest); }
      MessageReadBack(m, tail);
      ReceivedSize(m);
      BodyStep(n, Encode(m) + tail, Received(m));
      BodyFront(n - 1, ms[1..], rest);
      assert ReceivedAll(ms) == [Received(m)] + ReceivedAll(ms[1..]);
      assert forall more: seq<Message> :: ReceivedAll(ms) + more == [Received(m)] + (ReceivedAll(ms[1..]) + more);
    }
  }

  /** An unknown type byte ends the datagram: the messages in front of it are delivered, nothing behind
      it is, and the parser is left locked. */
  lemma UnknownType(filter: Filter, sync: uint32, src: Source, q: uint32, count: byte, ms: seq<Message>, t: byte,
                    rest: seq<byte>, next: byte)
    requires sync != SYNC && filter(HeaderOf(src, q, count)) && |ms| < count
    requires t != 0x01 && t != 0x02 && t != 0x03 && t != 0xFF
    ensures var h := HeaderOf(src, q, count);
            Decode(filter, sync, PacketBytes(src, q, count, EncodeAll(ms) + ([t] + rest)), next)
            == Outcome(SYNC, [Filtered(h)] + Calls(h, ReceivedAll(ms)), false)
  {
    hide EncodeAll, HeaderOf, Decode, PacketBytes, ReceivedAll, ReadBody;
    PacketHead(filter, sync, src, q, count, EncodeAll(ms) + ([t] + rest), next);
    BodyFront(count, ms, [t] + rest);
    BodyEnd(count - |ms|, [t] + rest);
    assert ReceivedAll(ms) + [] == ReceivedAll(ms);
  }

  // ------------------------------------------------------------------- joined in one

  function Join(ps: seq<Packet>): seq<byte> {
    if ps == [] then [] else ps[0].Bytes() + Join(ps[1..])
  }

  function Datagrams(ps: seq<Packet>): (r: seq<seq<byte>>)
    ensures |r| == |ps|
  {
    seq(|ps|, i requires 0 <= i < |ps| => ps[i].Bytes())
  }

  /** One buffer with many packets is the same to the listener as one buffer each. */
  lemma {:induction false} Concatenation(filter: Filter, sync: uint32, ps: seq<Packet>, next: byte, nexts: seq<byte>)
    requires sync != SYNC && |nexts| == |ps|
    requires forall p <- ps :: |p.messages| <= 255 && filter(p.Head())
    ensures Decode(filter, sync, Join(ps), next) == DecodeStream(filter, sync, Datagrams(ps), nexts)
    decreases |ps|
  {
    hide EncodeAll, PacketBytes, ReadBody, HeaderOf, Decode, ReceivedAll, Calls;
    if ps == [] {
      DecodeNothing(filter, sync, next);
    } else {
      var p := ps[0];
      var ms, rest := p.messages, Join(ps[1..]);
      PacketExtend(p, rest);
      PacketHead(filter, sync, p.src, p.sequence, |ms|, EncodeAll(ms) + rest, next);
      BodyReadBack(ms, rest);
      PacketDelivered(filter, sync, p.src, p.sequence, ms, nexts[0]);
      Concatenation(filter, 0, ps[1..], next, nexts[1..]);
      assert Datagrams(ps)[1..] == Datagrams(ps[1..]);
    }
  }

  /** Packets in front of a tail only clear the register for it. */
  lemma {:induction false} OverreadBehind(filter: Filter, sync: uint32, ps: seq<Packet>, tail: seq<byte>, next: byte)
    requires sync != SYNC && forall p <- ps :: |p.messages| <= 255 && filter(p.Head())
    ensures Decode(filter, sync, Join(ps) + tail, next).overread ==
            Decode(filter, if ps == [] then sync else 0, tail, next).overread
    decreases |ps|
  {
    hide EncodeAll, PacketBytes, ReadBody, HeaderOf, Decode, ReceivedAll, Calls;
    if ps == [] {
      assert Join(ps) + tail == tail;
    } else {
      var p := ps[0];
      var ms, rest := p.messages, Join(ps[1..]) + tail;
      assert Join(ps) + tail == p.Bytes() + rest;
      PacketExtend(p, rest);
      PacketHead(filter, sync, p.src, p.sequence, |ms|, EncodeAll(ms) + rest, next);
      BodyReadBack(ms, rest);
      OverreadBehind(filter, 0, ps[1..], tail, next);
    }
  }

  /** Behind any accepted packets and any junk without a sync word, what is left behind the next sync
      word is read past its end exactly if it is 28 bytes. */
  lemma OverreadInStream(filter: Filter, sync: uint32, ps: seq<Packet>, junk: seq<byte>, rest: seq<byte>, next: byte)
    requires sync != SYNC && forall p <- ps :: |p.messages| <= 255 && filter(p.Head())
    requires NeverLocks(if ps == [] then sync else 0, junk)
    requires |rest| < 61 || rest[|rest| - 32..|rest| - 28] != SYNC_BYTES
    ensures !Decode(filter, sync, Join(ps) + junk, next).overread
    ensures Decode(filter, sync, Join(ps) + (junk + SYNC_BYTES + rest), next).overread <==> |rest| == HEADER_SIZE
  {
    hide *;
    OverreadBehind(filter, sync, ps, junk, next);
    OverreadBehind(filter, sync, ps, junk + SYNC_BYTES + rest, next);
    OverreadIff(filter, if ps == [] then sync else 0, junk, rest, next);
  }

  lemma PacketExtend(p: Packet, rest: seq<byte>)
    ensures p.Bytes() + rest == PacketBytes(p.src, p.sequence, |p.messages| % 0x100, EncodeAll(p.messages) + rest)
  {
    hide EncodeAll, Preamble, BigEndian;
  }

  // ------------------------------------------------------------------------ rejected

  /** Behind offset 29 the packet holds no sync word, and the header a locked parser would read
      from it passes the filter. */
  ghost predicate Ordinary(filter: Filter, p: Packet) {
    && p.sequence < 0x100_0000
    && filter(ShiftedHeader(p.Bytes()))
    && forall i: nat :: !OccursAt(SYNC_BYTES, p.Bytes()[29..], i)
  }

  /** An ordinary packet that meets a locked parser is lost and unlocks it. */
  lemma OrdinaryLost(filter: Filter, p: Packet, next: byte)
    requires Ordinary(filter, p)
    ensures var o := Decode(filter, SYNC, p.Bytes(), next);
            && o == Outcome(o.sync, [Filtered(ShiftedHeader(p.Bytes()))], false)
            && o.sync != SYNC && Messages(o.events) == []
  {
    hide EncodeAll, PacketBytes, Decode, ReadHeader, Messages;
    var tail := p.Bytes()[29..];
    LockedPacket(filter, p.src, p.sequence, |p.messages| % 0x100, EncodeAll(p.messages), next);
    NeverLocksIffAbsent(tail);
    SelfSynchronisation(filter, 0, tail, [], next);
    assert tail[..|tail|] == tail;
    JustFiltered(ShiftedHeader(p.Bytes()));
  }

  /** The price of a rejection: the packet behind a rejected one delivers nothing before any sync
      word that occurs in it; when none does, it is lost, and the packet after it arrives in full. */
  lemma RejectionCost(filter: Filter, sync: uint32, rejected: Packet, lost: Packet, third: Packet,
                      x: byte, y: byte, z: byte)
    requires sync != SYNC && |rejected.messages| <= 255 && !filter(rejected.Head())
    requires lost.sequence < 0x100_0000 && filter(ShiftedHeader(lost.Bytes()))
    requires |third.messages| <= 255 && filter(third.Head())
    ensures var a := Decode(filter, sync, rejected.Bytes(), x);
            var b := Decode(filter, a.sync, lost.Bytes(), y);
            var hunt := Decode(filter, 0, lost.Bytes()[29..], y);
            && a.sync == SYNC && Messages(a.events) == []
            && b.events == [Filtered(ShiftedHeader(lost.Bytes()))] + hunt.events && b.sync == hunt.sync
            && (Ordinary(filter, lost) ==>
                  var c := Decode(filter, b.sync, third.Bytes(), z);
                  Messages(b.events) == [] && Messages(c.events) == ReceivedAll(third.messages))
  {
    hide EncodeAll, PacketBytes, Decode, ReadHeader, Messages, HeaderOf, Ordinary, ReceivedAll;
    PacketDelivered(filter, sync, rejected.src, rejected.sequence, rejected.messages, x);
    JustFiltered(rejected.Head());
    LockedPacket(filter, lost.src, lost.sequence, |lost.messages| % 0x100, EncodeAll(lost.messages), y);
    if Ordinary(filter, lost) {
      OrdinaryLost(filter, lost, y);
      var s := Decode(filter, SYNC, lost.Bytes(), y).sync;
      PacketArrives(filter, s, third.src, third.sequence, third.messages, z);
    }
  }

  /** Every packet that meets an unlocked parser has at most 255 messages, every packet that meets a
      locked one is ordinary. */
  ghost predicate Regular(filter: Filter, locked: bool, ps: seq<Packet>)
    decreases |ps|
  {
    ps != [] ==>
      && (if locked then Ordinary(filter, ps[0]) else |ps[0].messages| <= 255)
      && Regular(filter, !locked && !filter(ps[0].Head()), ps[1..])
  }

  /** What survives of a stream of packets. */
  function Surviving(filter: Filter, locked: bool, ps: seq<Packet>): seq<Message>
    decreases |ps|
  {
    if ps == [] then []
    else if locked then Surviving(filter, false, ps[1..])
    else if !filter(ps[0].Head()) then Surviving(filter, true, ps[1..])
    else ReceivedAll(ps[0].messages) + Surviving(filter, false, ps[1..])
  }

  /** What the documentation promises: the messages of all packets the filter lets through. */
  function Promised(filter: Filter, ps: seq<Packet>): seq<Message> {
    if ps == [] then []
    else (if filter(ps[0].Head()) then ReceivedAll(ps[0].messages) else []) + Promised(filter, ps[1..])
  }

  /** Packets are lost behind rejected ones, every other one of them. */
  lemma {:induction false} StreamLaw(filter: Filter, sync: uint32, ps: seq<Packet>, nexts: seq<byte>)
    requires |nexts| == |ps| && Regular(filter, sync == SYNC, ps)
    ensures Messages(DecodeStream(filter, sync, Datagrams(ps), nexts).events) == Surviving(filter, sync == SYNC, ps)
    decreases |ps|
  {
    hide Ordinary, Decode, Messages, ReceivedAll, HeaderOf, PacketOf;
    MessagesOfNothing();
    if ps == [] {
    } else {
      var p := ps[0];
      var a := Decode(filter, sync, p.Bytes(), nexts[0]);
      if sync == SYNC {
        OrdinaryLost(filter, p, nexts[0]);
      } else if filter(p.Head()) {
        PacketArrives(filter, sync, p.src, p.sequence, p.messages, nexts[0]);
      } else {
        PacketDelivered(filter, sync, p.src, p.sequence, p.messages, nexts[0]);
        JustFiltered(p.Head());
      }
      StreamLaw(filter, a.sync, ps[1..], nexts[1..]);
      assert Datagrams(ps)[1..] == Datagrams(ps[1..]);
      MessagesConcat(a.events, DecodeStream(filter, a.sync, Datagrams(ps[1..]), nexts[1..]).events);
    }
  }

  /** The parser is locked when the packets `ps` have gone by. */
  predicate LockedAfter(filter: Filter, locked: bool, ps: seq<Packet>)
    decreases |ps|
  {
    if ps == [] then locked
    else LockedAfter(filter, !locked && !filter(ps[0].Head()), ps[1..])
  }

  /** No accepted packet with messages in it comes when the parser is locked. */
  ghost predicate Lossless(filter: Filter, locked: bool, ps: seq<Packet>) {
    forall i {:trigger ps[..i]} ::
      0 <= i < |ps| && LockedAfter(filter, locked, ps[..i]) && filter(ps[i].Head()) ==> ps[i].messages == []
  }

  /** What survives is what is promised exactly when no accepted packet with messages meets a locked
      parser. */
  lemma {:induction false} PromiseKeptIff(filter: Filter, locked: bool, ps: seq<Packet>)
    ensures |Surviving(filter, locked, ps)| <= |Promised(filter, ps)|
    ensures Surviving(filter, locked, ps) == Promised(filter, ps) <==> Lossless(filter, locked, ps)
    decreases |ps|
  {
    hide ReceivedAll, HeaderOf, LockedAfter, Lossless;
    if ps == [] {
      LosslessNothing(filter, locked);
    } else {
      var after := !locked && !filter(ps[0].Head());
      PromiseKeptIff(filter, after, ps[1..]);
      LosslessStep(filter, locked, ps);
      var r := ReceivedAll(ps[0].messages);
      Cancel(r, Surviving(filter, after, ps[1..]), Promised(filter, ps[1..]));
      Cancel([], Surviving(filter, after, ps[1..]), Promised(filter, ps[1..]));
    }
  }

  /** The parser discards only rejected packets, as documented, exactly when no accepted packet with
      messages meets it locked. */
  lemma OnlyRejectedDiscardedIff(filter: Filter, sync: uint32, ps: seq<Packet>, nexts: seq<byte>)
    requires |nexts| == |ps| && Regular(filter, sync == SYNC, ps)
    ensures Messages(DecodeStream(filter, sync, Datagrams(ps), nexts).events) == Promised(filter, ps)
            <==> Lossless(filter, sync == SYNC, ps)
  {
    hide *;
    StreamLaw(filter, sync, ps, nexts);
    PromiseKeptIff(filter, sync == SYNC, ps);
  }

  lemma LosslessNothing(filter: Filter, locked: bool)
    ensures Lossless(filter, locked, [])
  {
  }

  lemma Cancel(r: seq<Message>, a: seq<Message>, b: seq<Message>)
    ensures r + a == r + b <==> a == b
    ensures |a| <= |b| ==> (a == r + b <==> r == [] && a == b)
  {
    assert (r + a)[|r|..] == a && (r + b)[|r|..] == b;
    assert r == [] ==> r + b == b;
  }

  lemma LosslessStep(filter: Filter, locked: bool, ps: seq<Packet>)
    requires ps != []
    ensures Lossless(filter, locked, ps) <==>
            && (locked && filter(ps[0].Head()) ==> ps[0].messages == [])
            && Lossless(filter, !locked && !filter(ps[0].Head()), ps[1..])
  {
    hide HeaderOf;
    var after := !locked && !filter(ps[0].Head());
    forall i | 0 <= i < |ps| - 1
      ensures LockedAfter(filter, locked, ps[..i + 1]) == LockedAfter(filter, after, ps[1..][..i])
    {
      assert ps[..i + 1][1..] == ps[1..][..i];
    }
    assert ps[..0] == [];
    if Lossless(filter, locked, ps) {
      forall i | 0 <= i < |ps| - 1 && LockedAfter(filter, after, ps[1..][..i]) && filter(ps[1..][i].Head())
        ensures ps[1..][i].messages == []
      {
        assert LockedAfter(filter, locked, ps[..i + 1]);
      }
    }
    if (locked && filter(ps[0].Head()) ==> ps[0].messages == []) && Lossless(filter, after, ps[1..]) {
      forall i | 0 <= i < |ps| && LockedAfter(filter, locked, ps[..i]) && filter(ps[i].Head())
        ensures ps[i].messages == []
      {
        if i > 0 {
          assert LockedAfter(filter, after, ps[1..][..i - 1]);
          assert ps[1..][i - 1] == ps[i];
        }
      }
    }
  }
}
