/** The batching sender: its abstract state machine, and the class `Marshaller` over its
    1280-byte buffer, proved against it. */
module Marshalling {
  import opened Codec
  import opened Wire

  /** What becomes of a datagram: the callback returns true or false, or it throws. */
  datatype Answer = Accepted | Refused | Threw

  /** The callback, as a function of all datagrams handed to it so far, the current one last. */
  type Callback = seq<seq<byte>> -> Answer

  datatype State = State(
    pending: seq<Message>,   // written since the last flush that came to its end
    flushes: nat,            // how many flushes did, empty ones included
    good: bool,
    handed: seq<seq<byte>>,  // the datagrams handed to the callback
    sent: seq<seq<byte>>)    // those on which it did not throw

  datatype Op = Write(message: Message) | Flush

  const INIT := State([], 0, true, [], [])

  /** The datagram a flush would hand over. */
  function Batch(src: Source, s: State): seq<byte> {
    PacketOf(src, s.flushes % 0x1_0000_0000, s.pending)
  }

  /** The flush hands its datagram over, and the callback throws. */
  predicate FlushThrows(src: Source, cback: Callback, s: State) {
    s.good && |s.pending| % 0x100 > 0 && cback(s.handed + [Batch(src, s)]) == Threw
  }

  /** An exception leaves everything but the attempt as it was. */
  function Flushed(src: Source, cback: Callback, s: State): State {
    if s.good && |s.pending| % 0x100 > 0 then
      var handed := s.handed + [Batch(src, s)];
      if cback(handed) == Threw then s.(handed := handed)
      else State([], s.flushes + 1, cback(handed) == Accepted, handed, s.sent + [Batch(src, s)])
    else
      s.(pending := [], flushes := s.flushes + 1)
  }

  predicate Fits(pending: seq<Message>, m: Message) {
    HEADER_OFFS + |EncodeAll(pending)| + MsgSize(m) <= MARSHALLER_BUF_SIZE
  }

  /** A message that does not fit is written behind a flush, unless the flush throws. */
  function Written(src: Source, cback: Callback, s: State, m: Message): State {
    if Fits(s.pending, m) then s.(pending := s.pending + [m])
    else if FlushThrows(src, cback, s) then Flushed(src, cback, s)
    else
      var t := Flushed(src, cback, s);
      t.(pending := t.pending + [m])
  }

  function Step(src: Source, cback: Callback, s: State, op: Op): State {
    match op
    case Write(m) => Written(src, cback, s, m)
    case Flush => Flushed(src, cback, s)
  }

  /** The exception reaches the caller. */
  predicate Throws(src: Source, cback: Callback, s: State, op: Op) {
    (op.Write? ==> !Fits(s.pending, op.message)) && FlushThrows(src, cback, s)
  }

  /** A run of calls; after one that throws the caller goes on with the next. */
  function Run(src: Source, cback: Callback, ops: seq<Op>): State {
    if ops == [] then INIT
    else Step(src, cback, Run(src, cback, ops[..|ops| - 1]), ops[|ops| - 1])
  }

  class Marshaller {
    const cback: Callback
    const buf: array<byte>
    var bufPtr: nat
    var sequence: uint32
    var messageCount: byte
    var sequenceOffs: nat
    var headerOffs: nat
    var good: bool
    // What the callback was handed, and that on which it did not throw.
    var handed: seq<seq<byte>>
    var sent: seq<seq<byte>>

    ghost const source: Source
    ghost var pending: seq<Message>
    ghost var flushes: nat

    /** The buffer holds the unchanging preamble and the pending messages; the counters are
        those of the abstract state, as far as their width goes. */
    ghost predicate Valid()
      reads this, buf
    {
      && buf.Length == MARSHALLER_BUF_SIZE
      && sequenceOffs == HEADER_SIZE && headerOffs == HEADER_OFFS
      && bufPtr == HEADER_OFFS + |EncodeAll(pending)| <= MARSHALLER_BUF_SIZE
      && buf[..HEADER_SIZE] == Preamble(source)
      && buf[HEADER_OFFS..bufPtr] == EncodeAll(pending)
      && sequence == flushes % 0x1_0000_0000
      && messageCount == |pending| % 0x100
    }

    ghost function Abs(): State
      reads this
    {
      State(pending, flushes, good, handed, sent)
    }

    constructor (cback: Callback, sourceName: seq<byte>, sourceHash: seq<byte>)
      ensures Valid() && fresh(buf)
      ensures source == Source(sourceName, sourceHash) && this.cback == cback
      ensures Abs() == INIT
    {
      this.cback := cback;
      this.source := Source(sourceName, sourceHash);
      sequence, messageCount, good, handed, sent := 0, 0, true, [], [];
      pending, flushes := [], 0;
      var b := new byte[MARSHALLER_BUF_SIZE](i => 0);
      var tar := WriteInt(SYNC, 4, b, 0);
      tar := WriteFixedSizeString(sourceName, b, tar, N_SOURCE_NAME_CHARS);
      tar := WriteFixedSizeString(sourceHash, b, tar, N_SOURCE_HASH_CHARS);
      assert b[..tar] == Preamble(Source(sourceName, sourceHash));
      sequenceOffs := tar;
      tar := WriteInt(0, 4, b, tar);
      tar := WriteInt(0, 1, b, tar);
      assert b[..HEADER_SIZE] == Preamble(Source(sourceName, sourceHash));
      headerOffs := tar;
      bufPtr := tar;
      buf := b;
    }

    /** Patches sequence number and count into the header; the buffer then is the packet. */
    method Stamp()
      requires Valid()
      modifies buf
      ensures Valid()
      ensures buf[..bufPtr] == PacketOf(source, sequence, pending)
    {
      hide Preamble, EncodeAll, BigEndian;
      ghost var preamble, body := Preamble(source), EncodeAll(pending);
      var tar := WriteInt(sequence, 4, buf, sequenceOffs);
      ghost var stamp, behind := buf[..tar], buf[tar..];
      assert behind[1..] == old(buf[HEADER_OFFS..]);
      assert stamp == preamble + BigEndian(sequence, 4);
      tar := WriteInt(messageCount, 1, buf, tar);
      OneByte(messageCount);
      assert buf[..tar] == stamp + [messageCount];
      assert buf[..HEADER_SIZE] == stamp[..HEADER_SIZE];
      assert buf[tar..] == behind[1..];
      assert buf[tar..bufPtr] == buf[tar..][..|body|] && body == old(buf[HEADER_OFFS..])[..|body|];
      assert buf[..bufPtr] == buf[..tar] + buf[tar..bufPtr];
    }

    method Flush() returns (threw: bool)
      requires Valid()
      modifies this, buf
      ensures Valid()
      ensures Abs() == Flushed(source, cback, old(Abs())) && threw == FlushThrows(source, cback, old(Abs()))
    {
      hide Preamble, EncodeAll, PacketOf;
      if good && messageCount > 0 {
        Stamp();
        handed := handed + [buf[..bufPtr]];
        var answer := cback(handed);
        if answer == Threw {
          return true;
        }
        sent := sent + [buf[..bufPtr]];
        good := good && answer == Accepted;
      }
      messageCount := 0;
      sequence := (sequence + 1) % 0x1_0000_0000;
      bufPtr := headerOffs;
      pending, flushes := [], flushes + 1;
      EncodeNothing();
      threw := false;
    }

    method FlushIfNoSpace(sizeRequired: nat) returns (threw: bool)
      requires Valid()
      modifies this, buf
      ensures Valid()
      ensures var full := old(bufPtr) + sizeRequired > MARSHALLER_BUF_SIZE;
              && Abs() == (if full then Flushed(source, cback, old(Abs())) else old(Abs()))
              && threw == (full && FlushThrows(source, cback, old(Abs())))
    {
      threw := false;
      if bufPtr + sizeRequired > buf.Length {
        threw := Flush();
      }
    }

    method InitializeMsg(sizeRequired: nat) returns (threw: bool, tar: nat)
      requires Valid() && HEADER_OFFS + sizeRequired <= MARSHALLER_BUF_SIZE
      modifies this, buf
      ensures Valid() && tar == bufPtr
      ensures var full := old(bufPtr) + sizeRequired > MARSHALLER_BUF_SIZE;
              && Abs() == (if full then Flushed(source, cback, old(Abs())) else old(Abs()))
              && threw == (full && FlushThrows(source, cback, old(Abs())))
              && (!threw ==> tar + sizeRequired <= MARSHALLER_BUF_SIZE)
    {
      threw := FlushIfNoSpace(sizeRequired);
      tar := bufPtr;
    }

    /** The bytes of `m` have been written behind the buffer pointer, up to `tar`. */
    method FinalizeMsg(tar: nat, ghost m: Message, ghost before: seq<byte>)
      requires buf.Length == MARSHALLER_BUF_SIZE && sequenceOffs == HEADER_SIZE && headerOffs == HEADER_OFFS
      requires bufPtr == HEADER_OFFS + |EncodeAll(pending)| == |before| && tar == bufPtr + MsgSize(m) <= buf.Length
      requires before[..HEADER_SIZE] == Preamble(source) && before[HEADER_OFFS..] == EncodeAll(pending)
      requires sequence == flushes % 0x1_0000_0000 && messageCount == |pending| % 0x100
      requires buf[..tar] == before + Encode(m)
      modifies this`bufPtr, this`messageCount, this`pending
      ensures Valid()
      ensures Abs() == old(Abs()).(pending := old(pending) + [m])
    {
      hide Preamble, EncodeAll, Encode;
      EncodeAllAppend(pending, m);
      Extend(before, Encode(m), HEADER_SIZE, HEADER_OFFS);
      assert buf[..HEADER_SIZE] == buf[..tar][..HEADER_SIZE];
      assert buf[HEADER_OFFS..tar] == buf[..tar][HEADER_OFFS..];
      bufPtr := tar;
      messageCount := (messageCount + 1) % 0x100;
      pending := pending + [m];
    }

    method WriteDevice(tag: byte, deviceName: seq<byte>, value: int32, tar: nat) returns (end: nat)
      requires tar + POSITION_SENSOR_SIZE <= buf.Length
      modifies buf
      ensures end == tar + POSITION_SENSOR_SIZE
      ensures buf[..end] == old(buf[..tar]) +
                            ([tag] + (FixedString(deviceName, N_DEVICE_NAME_CHARS) + BigEndian(ToUnsigned(value), 4)))
    {
      hide BigEndian, FixedString;
      end := WriteInt(tag, 1, buf, tar);
      OneByte(tag);
      end := WriteFixedSizeString(deviceName, buf, end, N_DEVICE_NAME_CHARS);
      end := WriteInt(ToUnsigned(value), 4, buf, end);
    }

    method WritePositionSensor(deviceName: seq<byte>, position: int32) returns (threw: bool)
      requires Valid()
      modifies this, buf
      ensures Valid()
      ensures Abs() == Written(source, cback, old(Abs()), PositionSensor(deviceName, position))
      ensures threw == Throws(source, cback, old(Abs()), Write(PositionSensor(deviceName, position)))
    {
      hide Flushed, FlushThrows, Preamble, EncodeAll;
      var tar;
      threw, tar := InitializeMsg(POSITION_SENSOR_SIZE);
      if threw {
        return;
      }
      ghost var before := buf[..tar];
      tar := WriteDevice(TYPE_POSITION_SENSOR, deviceName, position, tar);
      FinalizeMsg(tar, PositionSensor(deviceName, position), before);
    }

    method WriteSetDutyCycle(deviceName: seq<byte>, dutyCycle: int32) returns (threw: bool)
      requires Valid()
      modifies this, buf
      ensures Valid()
      ensures Abs() == Written(source, cback, old(Abs()), SetDutyCycle(deviceName, dutyCycle))
      ensures threw == Throws(source, cback, old(Abs()), Write(SetDutyCycle(deviceName, dutyCycle)))
    {
      hide Flushed, FlushThrows, Preamble, EncodeAll;
      var tar;
      threw, tar := InitializeMsg(SET_DUTY_CYCLE_SIZE);
      if threw {
        return;
      }
      ghost var before := buf[..tar];
      tar := WriteDevice(TYPE_SET_DUTY_CYCLE, deviceName, dutyCycle, tar);
      FinalizeMsg(tar, SetDutyCycle(deviceName, dutyCycle), before);
    }

    method WriteReset() returns (threw: bool)
      requires Valid()
      modifies this, buf
      ensures Valid()
      ensures Abs() == Written(source, cback, old(Abs()), Reset)
      ensures threw == Throws(source, cback, old(Abs()), Write(Reset))
    {
      hide Flushed, FlushThrows, Preamble, EncodeAll;
      var tar;
      threw, tar := InitializeMsg(RESET_SIZE);
      if threw {
        return;
      }
      ghost var before := buf[..tar];
      tar := WriteInt(TYPE_RESET, 1, buf, tar);
      OneByte(TYPE_RESET);
      FinalizeMsg(tar, Reset, before);
    }

    method WriteHeartbeat() returns (threw: bool)
      requires Valid()
      modifies this, buf
      ensures Valid()
      ensures Abs() == Written(source, cback, old(Abs()), Heartbeat)
      ensures threw == Throws(source, cback, old(Abs()), Write(Heartbeat))
    {
      hide Flushed, FlushThrows, Preamble, EncodeAll;
      var tar;
      threw, tar := InitializeMsg(HEARTBEAT_SIZE);
      if threw {
        return;
      }
      ghost var before := buf[..tar];
      tar := WriteInt(TYPE_HEARTBEAT, 1, buf, tar);
      OneByte(TYPE_HEARTBEAT);
      FinalizeMsg(tar, Heartbeat, before);
    }
  }

  lemma Extend(s: seq<byte>, t: seq<byte>, i: nat, j: nat)
    requires i <= |s| && j <= |s|
    ensures (s + t)[..i] == s[..i] && (s + t)[j..] == s[j..] + t
  {
  }

  lemma OneByte(b: byte)
    ensures BigEndian(b, 1) == [b]
  {
    assert BigEndian(b, 1) == BigEndian(b / 256, 0) + [b % 256];
  }

  lemma EncodeNothing()
    ensures EncodeAll([]) == []
  {
  }
}
