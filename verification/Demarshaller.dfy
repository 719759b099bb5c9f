/** The class `Demarshaller`: the parsing loop over its fields and buffers, proved against
    `Decoder.Decode`. */
module Demarshalling {
  import opened Codec
  import opened Wire
  import opened Decoder
  import opened Overread

  class Demarshaller {
    var sync: uint32
    // The current header; every string buffer has one byte more than its field.
    const sourceName: array<byte>
    const sourceHash: array<byte>
    var sequence: uint32
    var nMessages: byte
    // The current message.
    var msgType: byte
    const positionName: array<byte>
    var position: int32
    const dutyName: array<byte>
    var dutyCycle: int32

    ghost predicate Valid()
      reads this, sourceName, sourceHash, positionName, dutyName
    {
      && sourceName.Length == N_SOURCE_NAME_CHARS + 1
      && sourceHash.Length == N_SOURCE_HASH_CHARS + 1
      && positionName.Length == N_DEVICE_NAME_CHARS + 1
      && dutyName.Length == N_DEVICE_NAME_CHARS + 1
      && sourceName != positionName && sourceName != dutyName && positionName != dutyName
      && Terminated()
    }

    /** Every string buffer ends in a terminator. */
    ghost predicate Terminated()
      reads sourceName, sourceHash, positionName, dutyName
    {
      && sourceName.Length > 0 && sourceName[sourceName.Length - 1] == 0
      && sourceHash.Length > 0 && sourceHash[sourceHash.Length - 1] == 0
      && positionName.Length > 0 && positionName[positionName.Length - 1] == 0
      && dutyName.Length > 0 && dutyName[dutyName.Length - 1] == 0
    }

    constructor ()
      ensures Valid() && sync == 0
      ensures fresh(sourceName) && fresh(sourceHash) && fresh(positionName) && fresh(dutyName)
    {
      sync, sequence, nMessages, msgType, position, dutyCycle := 0, 0, 0, 0, 0, 0;
      sourceName := new byte[N_SOURCE_NAME_CHARS + 1](i => 0);
      sourceHash := new byte[N_SOURCE_HASH_CHARS + 1](i => 0);
      positionName := new byte[N_DEVICE_NAME_CHARS + 1](i => 0);
      dutyName := new byte[N_DEVICE_NAME_CHARS + 1](i => 0);
    }

    /** The header as the listener sees it. */
    function CurrentHeader(): Header
      reads this, sourceName, sourceHash
    {
      Header(CStr(sourceName[..]), CStr(sourceHash[..]), sequence, nMessages)
    }

    method ParseHeader(buf: seq<byte>, src: nat) returns (end: nat)
      requires Valid() && src + HEADER_SIZE + 1 <= |buf|
      modifies this`sequence, this`nMessages, sourceName, sourceHash
      ensures Valid()
      ensures end == src + HEADER_SIZE + 1
      ensures CurrentHeader() == ReadHeader(buf[src..end])
    {
      ghost var raw := buf[src..src + 29];
      end := ReadFixedSizeString(sourceName, buf, src, N_SOURCE_NAME_CHARS);
      assert sourceName[..] == raw[..16] + [0];
      end := ReadFixedSizeString(sourceHash, buf, end, N_SOURCE_HASH_CHARS);
      SliceOfSlice(buf, src, src + 29, 16, 24);
      assert sourceHash[..] == raw[16..24] + [0];
      TerminatorInvisible(raw[..16]);
      TerminatorInvisible(raw[16..24]);
      var u;
      u, end := ReadInt(4, buf, end);
      SliceOfSlice(buf, src, src + 29, 24, 28);
      assert u == FromBigEndian32(buf[src + 24..src + 28]);
      sequence := u;
      u, end := ReadInt(1, buf, end);
      assert u == buf[src + 28] by { assert buf[src + 28..src + 29] == [buf[src + 28]]; }
      nMessages := u;
    }

    /** One turn of the message loop: the type byte, then the message of that type. */
    method ParseMessage(buf: seq<byte>, size: nat, src: nat) returns (ok: bool, end: nat, m: Message)
      requires Valid() && src < size <= |buf|
      modifies this`msgType, this`position, this`dutyCycle, positionName, dutyName
      ensures Valid()
      ensures ok == ReadMessage(buf[src..size]).Read?
      ensures ok ==> ReadMessage(buf[src..size]) == Read(m) && end == src + MsgSize(m) <= size
    {
      ghost var data := buf[src..size];
      var t;
      t, end := ReadInt(1, buf, src);
      assert t == data[0] by { assert buf[src..src + 1] == [buf[src]]; }
      msgType := t;
      m := Reset;
      if msgType == TYPE_POSITION_SENSOR {
        if end + POSITION_SENSOR_SIZE - 1 > size {
          return false, end, m;
        }
        var name, value;
        name, value, end := ParseDevice(positionName, buf, end);
        position := value;
        SliceOfSlice(buf, src, size, 1, 17);
        SliceOfSlice(buf, src, size, 17, 21);
        m := PositionSensor(name, position);
      } else if msgType == TYPE_SET_DUTY_CYCLE {
        if end + SET_DUTY_CYCLE_SIZE - 1 > size {
          return false, end, m;
        }
        var name, value;
        name, value, end := ParseDevice(dutyName, buf, end);
        dutyCycle := value;
        SliceOfSlice(buf, src, size, 1, 17);
        SliceOfSlice(buf, src, size, 17, 21);
        m := SetDutyCycle(name, dutyCycle);
      } else if msgType == TYPE_HEARTBEAT {
        m := Heartbeat;
      } else if msgType == TYPE_RESET {
        m := Reset;
      } else {
        return false, end, m;
      }
      ok := true;
    }

    method ParseDevice(tar: array<byte>, buf: seq<byte>, src: nat) returns (name: seq<byte>, value: int32, end: nat)
      requires Valid() && (tar == positionName || tar == dutyName)
      requires src + N_DEVICE_NAME_CHARS + 4 <= |buf|
      modifies tar
      ensures Valid()
      ensures name == CStr(buf[src..src + 16])
      ensures value == ToSigned(FromBigEndian32(buf[src + 16..src + 20]))
      ensures end == src + 20
    {
      end := ReadFixedSizeString(tar, buf, src, N_DEVICE_NAME_CHARS);
      assert tar[..] == buf[src..src + 16] + [0];
      TerminatorInvisible(buf[src..src + 16]);
      name := CStr(tar[..]);
      var u;
      u, end := ReadInt(4, buf, end);
      assert u == FromBigEndian32(buf[src + 16..src + 20]);
      value := ToSigned(u);
    }

    /** The message loop; `ok` is false where the source returns from `parse`. */
    method ParseMessages(buf: seq<byte>, size: nat, src: nat) returns (ok: bool, end: nat, messages: seq<Message>)
      requires Valid() && size <= |buf|
      modifies this`msgType, this`position, this`dutyCycle, positionName, dutyName
      ensures Valid()
      ensures var body := ReadBody(nMessages, Tail(buf, size, src));
              && ok == body.Complete? && messages == body.messages
              && (ok ==> src <= end && body.rest == Tail(buf, size, end))
              && (ok && src <= size ==> end <= size) && (ok && src > size ==> end == src)
    {
      hide ReadMessage, MsgSize, ReadBody, Tail, Valid;
      end, messages := src, [];
      ghost var body := ReadBody(nMessages, Tail(buf, size, src));
      for i := 0 to nMessages
        invariant Valid() && src <= end
        invariant (src <= size ==> end <= size) && (src > size ==> end == src)
        invariant var b := ReadBody(nMessages - i, Tail(buf, size, end));
                  body.Complete? == b.Complete? && body.messages == messages + b.messages &&
                  (b.Complete? ==> body.rest == b.rest)
      {
        ghost var n, data := nMessages - i, Tail(buf, size, end);
        BodyEnd(n, data);
        TailSplit(buf, size, end);
        if end >= size {
          return false, end, messages;
        }
        var good, next, m := ParseMessage(buf, size, end);
        if !good {
          return false, end, messages;
        }
        BodyStep(n, data, m);
        TailStep(buf, size, end, MsgSize(m));
        ghost var b := ReadBody(n - 1, Tail(buf, size, next));
        assert messages + ([m] + b.messages) == messages + [m] + b.messages;
        end, messages := next, messages + [m];
      }
      BodyEnd(0, Tail(buf, size, end));
      ok := true;
    }

    /** The part of the parsing loop behind the sync word; `ok` is false where the source returns. */
    method ParsePacket(filter: Header -> bool, buf: seq<byte>, size: nat, src: nat)
      returns (ok: bool, end: nat, events: seq<Event>)
      requires Valid() && src + HEADER_SIZE <= size <= |buf|
      requires size == |buf| ==> src + HEADER_SIZE < size
      modifies this, sourceName, sourceHash, positionName, dutyName
      ensures Valid() && sync == old(sync)
      ensures var p := ReadPacket(filter, buf[src..size], ByteBehind(buf, size));
              ok == p.complete && events == p.events && (ok ==> src < end <= size + 1 && p.rest == Tail(buf, size, end))
    {
      ghost var data := buf[src..size];
      assert (data + [ByteBehind(buf, size)])[..29] == buf[src..src + 29];
      end := ParseHeader(buf, src);
      var h := CurrentHeader();
      if !filter(h) {
        return false, end, [Filtered(h)];
      }
      if src + 29 <= size {
        SliceOfSlice(buf, src, size, 29, size - src);
      }
      var messages;
      ok, end, messages := ParseMessages(buf, size, end);
      events := [Filtered(h)] + Calls(h, messages);
    }

    method Parse(filter: Header -> bool, buf: seq<byte>, size: nat) returns (events: seq<Event>)
      requires Valid() && size <= |buf|
      // Where the buffer ends with the datagram, the last 28 bytes must not stand behind a sync word, unless
      // it is known otherwise that the byte behind the datagram is not read.
      requires size == |buf| ==>
                 !HeaderAtEnd(sync, buf[..size]) || !Decode(filter, sync, buf[..size], 0).overread
      modifies this, sourceName, sourceHash, positionName, dutyName
      ensures Valid()
      ensures var o := Decode(filter, old(sync), buf[..size], ByteBehind(buf, size));
              sync == o.sync && events == o.events
    {
      hide Shift, Or, Decode, ReadPacket, Tail, HeaderAtEnd;
      OverreadNeedsHeaderAtEnd(filter, sync, buf[..size], 0);
      events := [];
      var src := 0;
      ghost var next := ByteBehind(buf, size);
      ghost var total := Decode(filter, sync, buf[..size], next);
      TailSplit(buf, size, 0);
      DecodeStep(filter, sync, [], next);
      while src < size
        invariant Valid() && src <= size + 1
        invariant var o := Decode(filter, sync, Tail(buf, size, src), next);
                  total.sync == o.sync && total.events == events + o.events && (o.overread ==> total.overread)
        decreases size - src
      {
        ghost var data := buf[src..size];
        TailSplit(buf, size, src);
        DecodeStep(filter, sync, data, next);
        if sync != SYNC {
          ShiftIsOr(sync, buf[src]);
          TailStep(buf, size, src, 1);
          sync := Or(sync * 0x100 % 0x1_0000_0000, buf[src]);
          src := src + 1;
          continue;
        }
        if size - src < HEADER_SIZE {
          return;
        }
        OverreadAt28(filter, data, next);
        var ok, end, calls := ParsePacket(filter, buf, size, src);
        events := events + calls;
        if !ok {
          return;
        }
        src := end;
        sync := 0;
      }
      TailSplit(buf, size, src);
      DecodeStep(filter, sync, [], next);
    }
  }

  /** The bytes of the datagram that are still ahead. */
  function Tail(buf: seq<byte>, size: nat, src: nat): seq<byte>
    requires size <= |buf|
  {
    if src <= size then buf[src..size] else []
  }

  lemma TailSplit(buf: seq<byte>, size: nat, src: nat)
    requires size <= |buf|
    ensures src < size ==> Tail(buf, size, src) == buf[src..size] != []
    ensures src >= size ==> Tail(buf, size, src) == []
  {
  }

  lemma TailStep(buf: seq<byte>, size: nat, src: nat, k: nat)
    requires src + k <= size <= |buf|
    ensures k <= |Tail(buf, size, src)| && Tail(buf, size, src)[k..] == Tail(buf, size, src + k)
  {
    SliceOfSlice(buf, src, size, k, size - src);
  }

  /** The byte in memory behind the datagram. */
  function ByteBehind(buf: seq<byte>, size: nat): byte {
    if size < |buf| then buf[size] else 0
  }

  lemma SliceOfSlice<T>(s: seq<T>, a: nat, b: nat, c: nat, d: nat)
    requires a <= b <= |s| && c <= d <= b - a
    ensures s[a..b][c..d] == s[a + c..a + d]
    ensures s[a..b][c..] == s[a + c..b]
  {
    var t := s[a..b];
    assert forall k :: 0 <= k < |t| ==> t[k] == s[a + k];
    assert t[c..d] == s[a + c..a + d];
    assert t[c..] == s[a + c..b];
  }

  /** The register step as the source writes it: shift by eight bits, or in the new byte. */
  lemma ShiftIsOr(sync: uint32, b: byte)
    ensures Or(sync * 0x100 % 0x1_0000_0000, b) == Shift(sync, b)
  {
    hide Or;
    assert sync * 0x100 % 0x1_0000_0000 == sync % 0x100_0000 * 0x100;
    OrDisjoint(sync % 0x100_0000, 8, b);
    assert Pow2(8) == 0x100 by { assert Pow2(4) == 16; }
  }
}
