/** The wire format as it is documented, in literal bytes and offsets, whatever the names of the
    constants. */
module Layout {
  import opened Codec
  import opened Wire
  import opened Marshalling
  import opened Batching

  /** Four bytes, most significant first. */
  function Quad(u: nat): seq<byte> {
    [u / 0x100_0000 % 0x100, u / 0x1_0000 % 0x100, u / 0x100 % 0x100, u % 0x100]
  }

  lemma BigEndianIsQuad(u: nat)
    ensures BigEndian(u, 4) == Quad(u)
  {
    BigEndianDigit(u, 4, 0);
    BigEndianDigit(u, 4, 1);
    BigEndianDigit(u, 4, 2);
    BigEndianDigit(u, 4, 3);
    assert Pow256(1) == 0x100 && Pow256(2) == 0x1_0000 && Pow256(3) == 0x100_0000;
  }

  /** Place `i` is in front of the terminator of `s`. */
  predicate InFront(s: seq<byte>, i: nat) {
    i < |s| && forall j :: 0 <= j <= i ==> s[j] != 0
  }

  /** The string up to its terminator or the end of the field, then zeros. */
  predicate HoldsString(field: seq<byte>, s: seq<byte>) {
    forall i :: 0 <= i < |field| ==> field[i] == if InFront(s, i) then s[i] else 0
  }

  lemma FieldHolds(s: seq<byte>, size: nat)
    ensures HoldsString(FixedString(s, size), s)
  {
    FixedStringBytes(s, size);
    forall i | 0 <= i < size ensures InFront(s, i) <==> i < StrLen(s) {
      if StrLen(s) <= i < |s| {
        assert s[StrLen(s)] == 0;
      }
    }
  }

  /** Where a message stands in a packet, it looks like this. */
  predicate LooksLike(bytes: seq<byte>, m: Message) {
    match m
    case PositionSensor(d, v) =>
      |bytes| == 21 && bytes[0] == 0x01 && HoldsString(bytes[1..17], d) && bytes[17..21] == Quad(v % 0x1_0000_0000)
    case SetDutyCycle(d, v) =>
      |bytes| == 21 && bytes[0] == 0x02 && HoldsString(bytes[1..17], d) && bytes[17..21] == Quad(v % 0x1_0000_0000)
    case Heartbeat => bytes == [0x03]
    case Reset => bytes == [0xFF]
  }

  lemma EncodedLooks(m: Message)
    ensures LooksLike(Encode(m), m)
  {
    hide FixedString, BigEndian, HoldsString;
    match m
    case PositionSensor(d, v) =>
      FieldHolds(d, 16);
      UnsignedIsModulo(v);
      BigEndianIsQuad(ToUnsigned(v));
      assert Encode(m)[1..17] == FixedString(d, 16) && Encode(m)[17..21] == BigEndian(ToUnsigned(v), 4);
    case SetDutyCycle(d, v) =>
      FieldHolds(d, 16);
      UnsignedIsModulo(v);
      BigEndianIsQuad(ToUnsigned(v));
      assert Encode(m)[1..17] == FixedString(d, 16) && Encode(m)[17..21] == BigEndian(ToUnsigned(v), 4);
    case _ =>
  }

  lemma UnsignedIsModulo(v: int32)
    ensures ToUnsigned(v) == v % 0x1_0000_0000
  {
  }

  /** The header of every datagram. */
  lemma HeaderLayout(src: Source, q: uint32, ms: seq<Message>)
    ensures var packet := PacketOf(src, q, ms);
            && |packet| >= 33
            && packet[..4] == [0xCA, 0xA2, 0x9C, 0x3A]
            && HoldsString(packet[4..20], src.name) && HoldsString(packet[20..28], src.hash)
            && packet[28..32] == Quad(q) && packet[32] == |ms| % 256
            && packet[33..] == EncodeAll(ms)
  {
    hide FixedString, BigEndian, EncodeAll, HoldsString;
    var packet := PacketOf(src, q, ms);
    SyncBytes();
    FieldHolds(src.name, 16);
    FieldHolds(src.hash, 8);
    BigEndianIsQuad(q);
    var name, hash, body := FixedString(src.name, 16), FixedString(src.hash, 8), EncodeAll(ms);
    assert packet == SYNC_BYTES + name + hash + Quad(q) + [|ms| % 256] + body;
    assert packet[..4] == SYNC_BYTES && packet[4..20] == name && packet[20..28] == hash;
    assert packet[28..32] == Quad(q) && packet[33..] == body;
  }

  /** Where message `k` begins: behind the header and the messages before it, a position or a duty
      cycle being 21 bytes long and the others one. */
  function Offset(ms: seq<Message>, k: nat): nat
    requires k <= |ms|
  {
    if k == 0 then 33
    else Offset(ms, k - 1) + if ms[k - 1].PositionSensor? || ms[k - 1].SetDutyCycle? then 21 else 1
  }

  lemma {:induction false} OffsetIs(ms: seq<Message>, k: nat)
    requires k <= |ms|
    ensures Offset(ms, k) == 33 + |EncodeAll(ms[..k])|
  {
    hide Encode;
    if k == 0 {
      assert ms[..0] == [];
    } else {
      OffsetIs(ms, k - 1);
      EncodeAllAppend(ms[..k - 1], ms[k - 1]);
      assert ms[..k] == ms[..k - 1] + [ms[k - 1]];
    }
  }

  /** The messages of a datagram, one behind the other. */
  lemma MessageLayout(src: Source, q: uint32, ms: seq<Message>, k: nat)
    requires k < |ms|
    ensures Offset(ms, k) <= Offset(ms, k + 1) <= |PacketOf(src, q, ms)|
    ensures LooksLike(PacketOf(src, q, ms)[Offset(ms, k)..Offset(ms, k + 1)], ms[k])
  {
    hide PacketOf, Encode, LooksLike;
    HeaderLayout(src, q, ms);
    OffsetIs(ms, k);
    OffsetIs(ms, k + 1);
    EncodedLooks(ms[k]);
    assert ms[..k + 1] == ms[..k] + [ms[k]] && ms == ms[..k + 1] + ms[k + 1..];
    EncodeAllAppend(ms[..k], ms[k]);
    EncodeAllConcat(ms[..k + 1], ms[k + 1..]);
    hide EncodeAll;
    var packet := PacketOf(src, q, ms);
    var a, b := |EncodeAll(ms[..k])|, |EncodeAll(ms[..k + 1])|;
    assert packet[33..][..b] == EncodeAll(ms[..k + 1]);
    assert packet[33 + a..33 + b] == EncodeAll(ms[..k + 1])[a..];
    assert packet[33 + a..33 + b] == Encode(ms[k]);
  }

  /** A message is put off to the next datagram only if this one would grow beyond 1280 bytes. */
  lemma PutOff(src: Source, cback: Callback, s: State, m: Message)
    ensures var size := if m.PositionSensor? || m.SetDutyCycle? then 21 else 1;
            var t := Written(src, cback, s, m);
            if 33 + |EncodeAll(s.pending)| + size <= 1280 then t == s.(pending := s.pending + [m])
            else if FlushThrows(src, cback, s) then t.pending == s.pending && t.sent == s.sent
            else t.pending == [m] && t.flushes == s.flushes + 1
  {
    hide EncodeAll, PacketOf;
    assert [] + [m] == [m];
  }

  predicate WithinLimit(s: State) {
    33 + |EncodeAll(s.pending)| <= 1280 && forall p <- s.handed :: |p| <= 1280
  }

  lemma FlushedWithinLimit(src: Source, cback: Callback, s: State)
    requires WithinLimit(s)
    ensures WithinLimit(Flushed(src, cback, s))
  {
    EncodeNothing();
    hide EncodeAll, PacketOf;
    var packet := Batch(src, s);
    assert |packet| == 33 + |EncodeAll(s.pending)|;
    assert forall p <- s.handed + [packet] :: p in s.handed || p == packet;
  }

  lemma WithinLimitStep(src: Source, cback: Callback, s: State, op: Op)
    requires WithinLimit(s)
    ensures WithinLimit(Step(src, cback, s, op))
  {
    FlushedWithinLimit(src, cback, s);
    if op.Write? {
      hide EncodeAll, Encode, Flushed;
      PutOff(src, cback, s, op.message);
      EncodeAllAppend(s.pending, op.message);
      EncodeNothing();
      EncodeAllAppend([], op.message);
      assert [] + [op.message] == [op.message];
    }
  }

  /** The documented limit: no calls make a datagram longer than 1280 bytes. */
  lemma {:induction false} DatagramLimit(src: Source, cback: Callback, ops: seq<Op>)
    ensures forall p <- Run(src, cback, ops).handed :: |p| <= 1280
    ensures WithinLimit(Run(src, cback, ops))
  {
    hide Step, WithinLimit;
    if ops == [] {
      NothingHanded();
    } else {
      DatagramLimit(src, cback, ops[..|ops| - 1]);
      WithinLimitStep(src, cback, Run(src, cback, ops[..|ops| - 1]), ops[|ops| - 1]);
    }
    LimitOf(Run(src, cback, ops));
  }

  lemma NothingHanded()
    ensures WithinLimit(INIT)
  {
  }

  lemma LimitOf(s: State)
    requires WithinLimit(s)
    ensures forall p <- s.handed :: |p| <= 1280
  {
  }
}
