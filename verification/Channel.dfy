/** One packet through the parser: synchronisation, decoding, truncation, rejection. */
module Channel {
  import opened Codec
  import opened Wire
  import opened Decoder

  // ------------------------------------------------------------- synchronisation

  /** The register is not the sync word before any byte of `data` is shifted in. */
  ghost predicate Hunting(sync: uint32, data: seq<byte>) {
    forall k {:trigger data[..k]} :: 0 <= k < |data| ==> Register(sync, data[..k]) != SYNC
  }

  lemma RegisterConcat(sync: uint32, a: seq<byte>, b: seq<byte>)
    ensures Register(sync, a + b) == Register(Register(sync, a), b)
    decreases |a|
  {
    if a == [] {
      assert a + b == b;
    } else {
      RegisterConcat(Shift(sync, a[0]), a[1..], b);
      assert (a + b)[1..] == a[1..] + b;
    }
  }

  /** While it hunts, the parser only moves its register. */
  lemma {:induction false} SkipJunk(filter: Header -> bool, sync: uint32, junk: seq<byte>, rest: seq<byte>, next: byte)
    requires Hunting(sync, junk)
    ensures Decode(filter, sync, junk + rest, next) == Decode(filter, Register(sync, junk), rest, next)
    decreases |junk|
  {
    if junk == [] {
      assert junk + rest == rest;
    } else {
      assert junk[..0] == [];
      var s := Shift(sync, junk[0]);
      forall k | 0 <= k < |junk| - 1 ensures Register(s, junk[1..][..k]) != SYNC {
        assert junk[..k + 1][1..] == junk[1..][..k];
      }
      SkipJunk(filter, s, junk[1..], rest, next);
      assert (junk + rest)[1..] == junk[1..] + rest;
    }
  }

  /** The sync word has no proper border: from any register but the sync word itself, the parser
      locks behind its fourth byte and not before. */
  lemma SyncLocks(sync: uint32)
    requires sync != SYNC
    ensures Hunting(sync, SYNC_BYTES) && Register(sync, SYNC_BYTES) == SYNC
  {
    forall k | 0 <= k <= 4 ensures Register(sync, SYNC_BYTES[..k]) == SYNC <==> k == 4 {
      var w := SYNC_BYTES[..k];
      RegisterIsWindow(sync, w);
      RegisterLocked(Register(sync, w));
      var held := (BigEndian(sync, 4) + w)[k..];
      if k == 4 {
        assert held == SYNC_BYTES;
      } else if k > 0 {
        assert held[3] == SYNC_BYTES[k - 1];
      }
    }
    assert SYNC_BYTES[..4] == SYNC_BYTES;
  }

  /** Self-synchronisation: behind junk over which the register never equals the sync word, a
      packet is locked exactly at its fourth byte, whether the junk came in the same call or in
      earlier ones. */
  lemma SelfSynchronisation(filter: Header -> bool, sync: uint32, junk: seq<byte>, rest: seq<byte>, next: byte)
    requires NeverLocks(sync, junk)
    ensures forall k {:trigger (junk + SYNC_BYTES)[..k]} :: 0 <= k <= |junk| + 4 ==>
              (Register(sync, (junk + SYNC_BYTES)[..k]) == SYNC <==> k == |junk| + 4)
    ensures Decode(filter, sync, junk + SYNC_BYTES + rest, next) == Decode(filter, SYNC, rest, next)
    ensures Decode(filter, sync, junk, next) == Outcome(Register(sync, junk), [], false)
    ensures Decode(filter, Register(sync, junk), SYNC_BYTES + rest, next) == Decode(filter, SYNC, rest, next)
  {
    hide Decode, Register;
    var r := Register(sync, junk);
    assert junk[..|junk|] == junk;
    SyncLocks(r);
    var all := junk + SYNC_BYTES;
    forall k | 0 <= k <= |all| ensures Register(sync, all[..k]) == SYNC <==> k == |all| {
      if k <= |junk| {
        assert all[..k] == junk[..k];
      } else {
        assert all[..k] == junk + SYNC_BYTES[..k - |junk|];
        RegisterConcat(sync, junk, SYNC_BYTES[..k - |junk|]);
        assert SYNC_BYTES[..4] == SYNC_BYTES;
      }
    }
    assert all[..|all|] == all;
    SkipJunk(filter, sync, all, rest, next);
    SkipJunk(filter, r, SYNC_BYTES, rest, next);
    SkipJunk(filter, sync, junk, [], next);
    assert junk + [] == junk;
    DecodeNothing(filter, r, next);
  }

  lemma DecodeNothing(filter: Header -> bool, sync: uint32, next: byte)
    ensures Decode(filter, sync, [], next) == Outcome(sync, [], false)
  {
  }

  // ------------------------------------------------------------ decoding a packet

  lemma DeviceReadBack(tag: byte, device: seq<byte>, value: int32, rest: seq<byte>)
    ensures var data := [tag] + (FixedString(device, 16) + BigEndian(ToUnsigned(value), 4)) + rest;
            CStr(data[1..17]) == Cut(device, 16) && ToSigned(FromBigEndian32(data[17..21])) == value
  {
    hide FixedString, BigEndian, CStr;
    var data := [tag] + (FixedString(device, 16) + BigEndian(ToUnsigned(value), 4)) + rest;
    assert data[1..17] == FixedString(device, 16);
    assert data[17..21] == BigEndian(ToUnsigned(value), 4);
    FixedStringReadBack(device, 16);
    DecodeEncode32(ToUnsigned(value));
  }

  /** A message is read back as it was written, its device name cut to the field. */
  lemma MessageReadBack(m: Message, rest: seq<byte>)
    ensures ReadMessage(Encode(m) + rest) == Read(Received(m))
    ensures (Encode(m) + rest)[MsgSize(m)..] == rest
  {
    hide FixedString, BigEndian, CStr, Cut;
    match m
    case PositionSensor(d, v) => DeviceReadBack(TYPE_POSITION_SENSOR, d, v, rest);
    case SetDutyCycle(d, v) => DeviceReadBack(TYPE_SET_DUTY_CYCLE, d, v, rest);
    case _ =>
  }

  lemma {:induction false} BodyReadBack(ms: seq<Message>, rest: seq<byte>)
    ensures ReadBody(|ms|, EncodeAll(ms) + rest) == Complete(ReceivedAll(ms), rest)
  {
    if ms == [] {
      assert EncodeAll(ms) + rest == rest;
    } else {
      hide Encode, ReadMessage, Received, ReadBody;
      var m := ms[0];
      var tail := EncodeAll(ms[1..]) + rest;
      assert EncodeAll(ms) + rest == Encode(m) + tail by { Assoc(Encode(m), EncodeAll(ms[1..]), rest); }
      MessageReadBack(m, tail);
      ReceivedSize(m);
      BodyStep(|ms|, Encode(m) + tail, Received(m));
      BodyReadBack(ms[1..], rest);
      assert ReceivedAll(ms) == [Received(m)] + ReceivedAll(ms[1..]);
    }
  }

  lemma ReceivedSize(m: Message)
    ensures MsgSize(Received(m)) == MsgSize(m)
  {
  }

  lemma HeaderReadBack(src: Source, sequence: uint32, count: byte)
    ensures PacketBytes(src, sequence, count, [])[..4] == SYNC_BYTES
    ensures ReadHeader(PacketBytes(src, sequence, count, [])[4..]) == HeaderOf(src, sequence, count)
  {
    hide FixedString, BigEndian, CStr, Cut;
    SyncBytes();
    var name, hash, stamp := FixedString(src.name, 16), FixedString(src.hash, 8), BigEndian(sequence, 4);
    var raw := name + (hash + (stamp + [count]));
    assert PacketBytes(src, sequence, count, []) == SYNC_BYTES + raw;
    assert raw[16..] == hash + (stamp + [count]) && raw[24..] == stamp + [count];
    assert raw[..16] == name && raw[16..24] == hash && raw[24..28] == stamp && raw[28] == count;
    FixedStringReadBack(src.name, 16);
    FixedStringReadBack(src.hash, 8);
    DecodeEncode32(sequence);
  }

  /** An unlocked parser takes a packet's header for what it is, and goes on with the bytes behind. */
  lemma PacketHead(filter: Header -> bool, sync: uint32, src: Source, sequence: uint32, count: byte,
                   body: seq<byte>, next: byte)
    requires sync != SYNC
    ensures var h := HeaderOf(src, sequence, count);
            Decode(filter, sync, PacketBytes(src, sequence, count, body), next) ==
            if !filter(h) then Outcome(SYNC, [Filtered(h)], false)
            else match ReadBody(count, body)
              case Broken(ms) => Outcome(SYNC, [Filtered(h)] + Calls(h, ms), false)
              case Complete(ms, rest) =>
                var o := Decode(filter, 0, rest, next);
                Outcome(o.sync, [Filtered(h)] + Calls(h, ms) + o.events, o.overread)
  {
    hide Preamble, BigEndian, ReadHeader, ReadBody, Cut, Register;
    HeaderReadBack(src, sequence, count);
    var head := PacketBytes(src, sequence, count, []);
    var packet := PacketBytes(src, sequence, count, body);
    var data := packet[4..];
    assert packet == SYNC_BYTES + data by {
      assert packet[..4] == head[..4];
    }
    SyncLocks(sync);
    SkipJunk(filter, sync, SYNC_BYTES, data, next);
    assert (data + [next])[..29] == head[4..];
    assert data[29..] == body;
    var h := HeaderOf(src, sequence, count);
    assert ReadHeader((data + [next])[..29]) == h;
  }
}
