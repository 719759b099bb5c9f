/** The parser as a function of its register and one datagram. */
module Decoder {
  import opened Codec
  import opened Wire

  datatype Event =
    | Filtered(header: Header)
    | Delivered(header: Header, message: Message)

  /** The register left behind, the listener calls made, and whether the byte behind the
      datagram was read as the message count. */
  datatype Outcome = Outcome(sync: uint32, events: seq<Event>, overread: bool)

  /** One step of the shift register that hunts for the sync word. */
  function Shift(sync: uint32, b: byte): uint32 {
    sync % 0x100_0000 * 0x100 + b
  }

  function ReadHeader(raw: seq<byte>): Header
    requires |raw| == HEADER_SIZE + 1
  {
    Header(CStr(raw[..16]), CStr(raw[16..24]), FromBigEndian32(raw[24..28]), raw[28])
  }

  datatype ReadResult = NoMessage | Read(message: Message)

  /** The message at the head of `data`, if its type is known and it is not cut off. */
  function ReadMessage(data: seq<byte>): (r: ReadResult)
    requires data != []
    ensures r.Read? ==> MsgSize(r.message) <= |data|
  {
    if data[0] == TYPE_POSITION_SENSOR then
      if |data| - 1 < POSITION_SENSOR_SIZE - 1 then NoMessage
      else Read(PositionSensor(CStr(data[1..17]), ToSigned(FromBigEndian32(data[17..21]))))
    else if data[0] == TYPE_SET_DUTY_CYCLE then
      if |data| - 1 < SET_DUTY_CYCLE_SIZE - 1 then NoMessage
      else Read(SetDutyCycle(CStr(data[1..17]), ToSigned(FromBigEndian32(data[17..21]))))
    else if data[0] == TYPE_HEARTBEAT then Read(Heartbeat)
    else if data[0] == TYPE_RESET then Read(Reset)
    else NoMessage
  }

  datatype Body =
    | Complete(messages: seq<Message>, rest: seq<byte>)
    | Broken(messages: seq<Message>)
  {
    function Cons(m: Message): Body {
      this.(messages := [m] + messages)
    }
  }

  /** The `n` messages after a header, or those before the first unreadable one. */
  function ReadBody(n: nat, data: seq<byte>): (r: Body)
    ensures r.Complete? ==> |r.messages| == n && |r.rest| <= |data|
    ensures r.Broken? ==> |r.messages| < n
  {
    if n == 0 then Complete([], data)
    else if data == [] then Broken([])
    else match ReadMessage(data)
      case NoMessage => Broken([])
      case Read(m) => ReadBody(n - 1, data[MsgSize(m)..]).Cons(m)
  }

  lemma BodyStep(n: nat, data: seq<byte>, m: Message)
    requires n > 0 && data != [] && ReadMessage(data) == Read(m)
    ensures ReadBody(n, data) == ReadBody(n - 1, data[MsgSize(m)..]).Cons(m)
  {
  }

  lemma BodyEnd(n: nat, data: seq<byte>)
    ensures n == 0 ==> ReadBody(n, data) == Complete([], data)
    ensures n > 0 && (data == [] || ReadMessage(data).NoMessage?) ==> ReadBody(n, data) == Broken([])
  {
  }

  function Calls(h: Header, ms: seq<Message>): (r: seq<Event>)
    ensures |r| == |ms| && forall i :: 0 <= i < |ms| ==> r[i] == Delivered(h, ms[i])
  {
    seq(|ms|, i requires 0 <= i < |ms| => Delivered(h, ms[i]))
  }

  /** The listener calls of one packet, whether the loop goes on behind it, and where. */
  datatype PacketResult = PacketResult(events: seq<Event>, overread: bool, complete: bool, rest: seq<byte>)

  /** A locked parser reads a header and its messages from `data`. */
  function ReadPacket(filter: Header -> bool, data: seq<byte>, next: byte): (r: PacketResult)
    requires |data| >= HEADER_SIZE
    ensures r.complete ==> |r.rest| < |data|
  {
    var h := ReadHeader((data + [next])[..HEADER_SIZE + 1]);
    var over := |data| == HEADER_SIZE;
    if !filter(h) then PacketResult([Filtered(h)], over, false, [])
    else match ReadBody(h.nMessages, if over then [] else data[HEADER_SIZE + 1..])
      case Broken(ms) => PacketResult([Filtered(h)] + Calls(h, ms), over, false, [])
      case Complete(ms, rest) => PacketResult([Filtered(h)] + Calls(h, ms), over, true, rest)
  }

  lemma OverreadAt28(filter: Header -> bool, data: seq<byte>, next: byte)
    requires |data| >= HEADER_SIZE
    ensures ReadPacket(filter, data, next).overread == (|data| == HEADER_SIZE)
  {
  }

  /** What `parse` does with the datagram `data` that is followed in memory by `next`. */
  function Decode(filter: Header -> bool, sync: uint32, data: seq<byte>, next: byte): Outcome
    decreases |data|
  {
    if data == [] then Outcome(sync, [], false)
    else if sync != SYNC then Decode(filter, Shift(sync, data[0]), data[1..], next)
    else if |data| < HEADER_SIZE then Outcome(SYNC, [], false)
    else
      var p := ReadPacket(filter, data, next);
      if !p.complete then Outcome(SYNC, p.events, p.overread)
      else
        var o := Decode(filter, 0, p.rest, next);
        Outcome(o.sync, p.events + o.events, p.overread || o.overread)
  }

  /** One turn of the parsing loop. */
  lemma DecodeStep(filter: Header -> bool, sync: uint32, data: seq<byte>, next: byte)
    ensures Decode(filter, sync, data, next) ==
            if data == [] then Outcome(sync, [], false)
            else if sync != SYNC then Decode(filter, Shift(sync, data[0]), data[1..], next)
            else if |data| < HEADER_SIZE then Outcome(SYNC, [], false)
            else
              var p := ReadPacket(filter, data, next);
              if !p.complete then Outcome(SYNC, p.events, p.overread)
              else
                var o := Decode(filter, 0, p.rest, next);
                Outcome(o.sync, p.events + o.events, p.overread || o.overread)
  {
  }

  /** A stream of datagrams, one `parse` call each; `next[i]` is the byte after the i-th. */
  function DecodeStream(filter: Header -> bool, sync: uint32, stream: seq<seq<byte>>, next: seq<byte>): Outcome
    requires |next| == |stream|
    decreases |stream|
  {
    if stream == [] then Outcome(sync, [], false)
    else
      var a := Decode(filter, sync, stream[0], next[0]);
      var b := DecodeStream(filter, a.sync, stream[1..], next[1..]);
      Outcome(b.sync, a.events + b.events, a.overread || b.overread)
  }

  /** The messages among the listener calls. */
  function Messages(events: seq<Event>): seq<Message> {
    if events == [] then []
    else (if events[0].Delivered? then [events[0].message] else []) + Messages(events[1..])
  }

  lemma {:induction false} MessagesConcat(a: seq<Event>, b: seq<Event>)
    ensures Messages(a + b) == Messages(a) + Messages(b)
  {
    if a == [] {
      assert a + b == b;
    } else {
      MessagesConcat(a[1..], b);
      assert (a + b)[1..] == a[1..] + b && (a + b)[0] == a[0];
      Assoc(if a[0].Delivered? then [a[0].message] else [], Messages(a[1..]), Messages(b));
    }
  }

  lemma {:induction false} MessagesOfCalls(h: Header, ms: seq<Message>)
    ensures Messages(Calls(h, ms)) == ms
  {
    if ms == [] {
    } else {
      MessagesOfCalls(h, ms[1..]);
      assert Calls(h, ms)[1..] == Calls(h, ms[1..]);
    }
  }

  /** The byte behind the datagram matters only when it is read. */
  lemma {:induction false} NextByteIrrelevant(filter: Header -> bool, sync: uint32, data: seq<byte>, x: byte, y: byte)
    ensures !Decode(filter, sync, data, x).overread ==> Decode(filter, sync, data, x) == Decode(filter, sync, data, y)
    decreases |data|
  {
    if data == [] {
    } else if sync != SYNC {
      NextByteIrrelevant(filter, Shift(sync, data[0]), data[1..], x, y);
    } else if |data| > HEADER_SIZE {
      assert (data + [x])[..HEADER_SIZE + 1] == (data + [y])[..HEADER_SIZE + 1];
      var p := ReadPacket(filter, data, x);
      assert p == ReadPacket(filter, data, y);
      if p.complete {
        NextByteIrrelevant(filter, 0, p.rest, x, y);
      }
    }
  }

  // ------------------------------------------------- the shift register as a window

  /** The register after shifting in all of `data`. */
  function Register(sync: uint32, data: seq<byte>): uint32
    decreases |data|
  {
    if data == [] then sync else Register(Shift(sync, data[0]), data[1..])
  }

  /** The parser never locks while it shifts in `data`. */
  ghost predicate NeverLocks(sync: uint32, data: seq<byte>) {
    forall k {:trigger data[..k]} :: 0 <= k <= |data| ==> Register(sync, data[..k]) != SYNC
  }

  ghost predicate OccursAt(word: seq<byte>, data: seq<byte>, i: nat) {
    i + |word| <= |data| && data[i..i + |word|] == word
  }

  /** The value of four bytes, and back. */
  lemma Digits(a: byte, b: byte, c: byte, d: byte)
    ensures FromBigEndian([a, b, c, d]) == ((a * 0x100 + b) * 0x100 + c) * 0x100 + d
    ensures BigEndian(((a * 0x100 + b) * 0x100 + c) * 0x100 + d, 4) == [a, b, c, d]
  {
    EncodeDecode([a, b, c, d]);
    assert [a, b, c, d][..3] == [a, b, c] && [a, b, c][..2] == [a, b] && [a, b][..1] == [a];
    assert FromBigEndian([a, b]) == a * 0x100 + b by { assert FromBigEndian([a]) == a; }
    assert FromBigEndian([a, b, c]) == (a * 0x100 + b) * 0x100 + c;
  }

  lemma ShiftDigits(a: byte, b: byte, c: byte, d: byte, e: byte)
    ensures Shift(((a * 0x100 + b) * 0x100 + c) * 0x100 + d, e) == ((b * 0x100 + c) * 0x100 + d) * 0x100 + e
  {
    var low := (b * 0x100 + c) * 0x100 + d;
    DivModUnique(a * 0x100_0000 + low, 0x100_0000, a, low);
  }

  lemma ShiftWindow(sync: uint32, e: byte)
    ensures BigEndian(Shift(sync, e), 4) == BigEndian(sync, 4)[1..] + [e]
  {
    hide *;
    var w := BigEndian(sync, 4);
    DecodeEncode32(sync);
    assert w == [w[0], w[1], w[2], w[3]];
    Digits(w[0], w[1], w[2], w[3]);
    ShiftDigits(w[0], w[1], w[2], w[3], e);
    Digits(w[1], w[2], w[3], e);
  }

  lemma Slide(w: seq<byte>, data: seq<byte>)
    requires w != [] && data != []
    ensures (w[1..] + [data[0]] + data[1..])[|data| - 1..] == (w + data)[|data|..]
  {
    assert w[1..] + [data[0]] + data[1..] == (w + data)[1..];
  }

  /** The register always holds the last four bytes seen, starting from its own four. */
  lemma {:induction false} RegisterIsWindow(sync: uint32, data: seq<byte>)
    ensures BigEndian(Register(sync, data), 4) == (BigEndian(sync, 4) + data)[|data|..]
    decreases |data|
  {
    hide BigEndian, Shift;
    if data == [] {
    } else {
      ShiftWindow(sync, data[0]);
      RegisterIsWindow(Shift(sync, data[0]), data[1..]);
      Slide(BigEndian(sync, 4), data);
    }
  }

  lemma RegisterLocked(sync: uint32)
    ensures sync == SYNC <==> BigEndian(sync, 4) == SYNC_BYTES
  {
    SyncBytes();
    DecodeEncode32(sync);
    DecodeEncode32(SYNC);
  }

  /** Starting from a cleared register, the parser stays unlocked over `data` exactly when the
      sync word does not occur in `data`. */
  lemma NeverLocksIffAbsent(data: seq<byte>)
    ensures NeverLocks(0, data) <==> forall i: nat :: !OccursAt(SYNC_BYTES, data, i)
  {
    assert BigEndian(0, 4) == [0, 0, 0, 0];
    var padded := BigEndian(0, 4) + data;
    forall k | 0 <= k <= |data|
      ensures Register(0, data[..k]) == SYNC <==> 4 <= k && OccursAt(SYNC_BYTES, data, k - 4)
    {
      RegisterIsWindow(0, data[..k]);
      RegisterLocked(Register(0, data[..k]));
      assert (BigEndian(0, 4) + data[..k])[k..] == padded[k..k + 4];
      if 4 <= k {
        assert padded[k..k + 4] == data[k - 4..k];
      } else {
        assert padded[k..k + 4][0] == 0;
      }
    }
    if forall i: nat :: !OccursAt(SYNC_BYTES, data, i) {
    } else {
      var i: nat :| OccursAt(SYNC_BYTES, data, i);
      assert Register(0, data[..i + 4]) == SYNC;
    }
  }
}
