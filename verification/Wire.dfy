/** The binary message format: constants, messages, headers and packets as byte strings. */
module Wire {
  import opened Codec

  const SYNC: uint32 := 0xCAA2_9C3A
  const TYPE_POSITION_SENSOR: byte := 0x01
  const TYPE_SET_DUTY_CYCLE: byte := 0x02
  const TYPE_HEARTBEAT: byte := 0x03
  const TYPE_RESET: byte := 0xFF

  const MARSHALLER_BUF_SIZE: nat := 1280
  const N_SOURCE_NAME_CHARS: nat := 16
  const N_SOURCE_HASH_CHARS: nat := 8
  const N_DEVICE_NAME_CHARS: nat := 16
  // The parser's notion of the header: one byte short of what it reads.
  const HEADER_SIZE: nat := N_SOURCE_NAME_CHARS + N_SOURCE_HASH_CHARS + 4
  const POSITION_SENSOR_SIZE: nat := 1 + N_DEVICE_NAME_CHARS + 4
  const SET_DUTY_CYCLE_SIZE: nat := 1 + N_DEVICE_NAME_CHARS + 4
  const RESET_SIZE: nat := 1
  const HEARTBEAT_SIZE: nat := 1
  // Sync word, source, sequence number and message count: where the messages start.
  const HEADER_OFFS: nat := 33

  datatype Message =
    | PositionSensor(device: seq<byte>, position: int32)
    | SetDutyCycle(device: seq<byte>, dutyCycle: int32)
    | Heartbeat
    | Reset

  /** What a sender calls itself: its name and its random hash, as C strings. */
  datatype Source = Source(name: seq<byte>, hash: seq<byte>)

  /** What a listener is shown: the name fields as C strings. */
  datatype Header = Header(sourceName: seq<byte>, sourceHash: seq<byte>, sequence: uint32, nMessages: byte)

  function TypeTag(m: Message): byte {
    match m
    case PositionSensor(_, _) => TYPE_POSITION_SENSOR
    case SetDutyCycle(_, _) => TYPE_SET_DUTY_CYCLE
    case Heartbeat => TYPE_HEARTBEAT
    case Reset => TYPE_RESET
  }

  function MsgSize(m: Message): nat {
    match m
    case PositionSensor(_, _) => POSITION_SENSOR_SIZE
    case SetDutyCycle(_, _) => SET_DUTY_CYCLE_SIZE
    case Heartbeat => HEARTBEAT_SIZE
    case Reset => RESET_SIZE
  }

  function Encode(m: Message): (r: seq<byte>)
    ensures |r| == MsgSize(m)
  {
    [TypeTag(m)] +
    match m
    case PositionSensor(d, v) => FixedString(d, N_DEVICE_NAME_CHARS) + BigEndian(ToUnsigned(v), 4)
    case SetDutyCycle(d, v) => FixedString(d, N_DEVICE_NAME_CHARS) + BigEndian(ToUnsigned(v), 4)
    case Heartbeat => []
    case Reset => []
  }

  function EncodeAll(ms: seq<Message>): seq<byte> {
    if ms == [] then [] else Encode(ms[0]) + EncodeAll(ms[1..])
  }

  /** What is left of a message on the far side: device names are cut to their field. */
  function Received(m: Message): Message {
    match m
    case PositionSensor(d, v) => PositionSensor(Cut(d, N_DEVICE_NAME_CHARS), v)
    case SetDutyCycle(d, v) => SetDutyCycle(Cut(d, N_DEVICE_NAME_CHARS), v)
    case Heartbeat => Heartbeat
    case Reset => Reset
  }

  function ReceivedAll(ms: seq<Message>): (r: seq<Message>)
    ensures |r| == |ms| && forall i :: 0 <= i < |ms| ==> r[i] == Received(ms[i])
  {
    seq(|ms|, i requires 0 <= i < |ms| => Received(ms[i]))
  }

  const SYNC_BYTES: seq<byte> := [0xCA, 0xA2, 0x9C, 0x3A]

  lemma SyncBytes()
    ensures BigEndian(SYNC, 4) == SYNC_BYTES
  {
    EncodeDecode(SYNC_BYTES);
    assert SYNC_BYTES[..3] == [0xCA, 0xA2, 0x9C] && SYNC_BYTES[..3][..2] == [0xCA, 0xA2] && [0xCA, 0xA2][..1] == [0xCA];
  }

  /** Bytes 0 to 27 of every packet of one sender. */
  function Preamble(src: Source): (r: seq<byte>)
    ensures |r| == HEADER_SIZE
  {
    BigEndian(SYNC, 4) + FixedString(src.name, N_SOURCE_NAME_CHARS) + FixedString(src.hash, N_SOURCE_HASH_CHARS)
  }

  function PacketBytes(src: Source, sequence: uint32, count: byte, body: seq<byte>): (r: seq<byte>)
    ensures |r| == HEADER_OFFS + |body|
  {
    Preamble(src) + BigEndian(sequence, 4) + [count] + body
  }

  /** The datagram for the messages `ms`: the message counter is a single byte. */
  function PacketOf(src: Source, sequence: uint32, ms: seq<Message>): (r: seq<byte>)
    ensures |r| == HEADER_OFFS + |EncodeAll(ms)|
  {
    PacketBytes(src, sequence, |ms| % 0x100, EncodeAll(ms))
  }

  function HeaderOf(src: Source, sequence: uint32, count: byte): Header {
    Header(Cut(src.name, N_SOURCE_NAME_CHARS), Cut(src.hash, N_SOURCE_HASH_CHARS), sequence, count)
  }

  // ------------------------------------------------------------ laws of EncodeAll

  lemma Assoc<T>(a: seq<T>, b: seq<T>, c: seq<T>)
    ensures (a + b) + c == a + (b + c)
  {
  }

  lemma {:induction false} EncodeAllConcat(a: seq<Message>, b: seq<Message>)
    ensures EncodeAll(a + b) == EncodeAll(a) + EncodeAll(b)
  {
    if a == [] {
      assert a + b == b;
    } else {
      hide Encode;
      EncodeAllConcat(a[1..], b);
      assert (a + b)[1..] == a[1..] + b && (a + b)[0] == a[0];
      Assoc(Encode(a[0]), EncodeAll(a[1..]), EncodeAll(b));
    }
  }

  lemma EncodeAllAppend(a: seq<Message>, m: Message)
    ensures EncodeAll(a + [m]) == EncodeAll(a) + Encode(m)
  {
    EncodeAllConcat(a, [m]);
    assert EncodeAll([m]) == Encode(m) + [];
  }

  lemma {:induction false} EncodeAllSize(ms: seq<Message>)
    ensures |ms| <= |EncodeAll(ms)|
    ensures |EncodeAll(ReceivedAll(ms))| == |EncodeAll(ms)|
  {
    if ms == [] {
    } else {
      EncodeAllSize(ms[1..]);
      assert ReceivedAll(ms)[1..] == ReceivedAll(ms[1..]);
    }
  }

  lemma ReceivedAllConcat(a: seq<Message>, b: seq<Message>)
    ensures ReceivedAll(a + b) == ReceivedAll(a) + ReceivedAll(b)
  {
  }
}
