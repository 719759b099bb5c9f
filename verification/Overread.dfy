/** The header check lets 28 bytes pass where 29 are read: when the parser reads the byte behind the
    datagram, and a check for it that needs the datagram and the register only. */
module Overread {
  import opened Codec
  import opened Wire
  import opened Decoder
  import opened Channel

  /** The datagram's last 28 bytes stand behind a sync word, the register's four bytes counted in. */
  predicate HeaderAtEnd(sync: uint32, data: seq<byte>) {
    |data| >= HEADER_SIZE &&
    (BigEndian(sync, 4) + data)[|data| - HEADER_SIZE..|data| - HEADER_SIZE + 4] == SYNC_BYTES
  }

  lemma {:induction false} BodyRest(n: nat, data: seq<byte>)
    ensures var b := ReadBody(n, data); b.Complete? ==> data[|data| - |b.rest|..] == b.rest
  {
    hide ReadMessage;
    if n > 0 && data != [] && ReadMessage(data).Read? {
      var m := ReadMessage(data).message;
      BodyStep(n, data, m);
      BodyRest(n - 1, data[MsgSize(m)..]);
    }
  }

  /** What a complete packet leaves to read is the end of the datagram, at least 29 bytes on. */
  lemma PacketRest(filter: Header -> bool, data: seq<byte>, next: byte)
    requires |data| > HEADER_SIZE
    ensures var p := ReadPacket(filter, data, next);
            !p.overread && (p.complete ==> |p.rest| + 29 <= |data| && data[|data| - |p.rest|..] == p.rest)
  {
    hide ReadHeader, ReadBody;
    var h := ReadHeader((data + [next])[..29]);
    BodyRest(h.nMessages, data[29..]);
  }

  lemma HeaderAtEndShift(sync: uint32, data: seq<byte>)
    requires data != [] && HeaderAtEnd(Shift(sync, data[0]), data[1..])
    ensures HeaderAtEnd(sync, data)
  {
    hide BigEndian, Shift;
    ShiftWindow(sync, data[0]);
    var w := BigEndian(sync, 4);
    assert w[1..] + [data[0]] + data[1..] == (w + data)[1..];
  }

  /** The zeros of a cleared register are no part of a sync word. */
  lemma HeaderAtEndCleared(sync: uint32, data: seq<byte>, rest: seq<byte>)
    requires |rest| <= |data| && data[|data| - |rest|..] == rest && HeaderAtEnd(0, rest)
    ensures |rest| >= 32 && HeaderAtEnd(sync, data)
    ensures rest[|rest| - 32..|rest| - 28] == data[|data| - 32..|data| - 28] == SYNC_BYTES
  {
    assert BigEndian(0, 4) == [0, 0, 0, 0];
    hide BigEndian;
    var padded := BigEndian(0, 4) + rest;
    assert padded[|rest| - 28] == SYNC_BYTES[0] by {
      assert padded[|rest| - 28..|rest| - 24][0] == padded[|rest| - 28];
    }
    assert padded[|rest| - 28..|rest| - 24] == rest[|rest| - 32..|rest| - 28];
    assert rest[|rest| - 32..|rest| - 28] == data[|data| - 32..|data| - 28];
    assert (BigEndian(sync, 4) + data)[|data| - 28..|data| - 24] == data[|data| - 32..|data| - 28];
  }

  /** The byte behind the datagram is read only if the last 28 bytes stand behind a sync word. */
  lemma {:induction false} OverreadNeedsHeaderAtEnd(filter: Header -> bool, sync: uint32, data: seq<byte>, next: byte)
    ensures Decode(filter, sync, data, next).overread ==> HeaderAtEnd(sync, data)
    decreases |data|
  {
    hide ReadPacket, HeaderAtEnd, Shift;
    DecodeStep(filter, sync, data, next);
    if Decode(filter, sync, data, next).overread {
      if sync != SYNC {
        OverreadNeedsHeaderAtEnd(filter, Shift(sync, data[0]), data[1..], next);
        HeaderAtEndShift(sync, data);
      } else if |data| == HEADER_SIZE {
        LockedHeaderAtEnd(data);
      } else {
        var p := ReadPacket(filter, data, next);
        PacketRest(filter, data, next);
        OverreadNeedsHeaderAtEnd(filter, 0, p.rest, next);
        HeaderAtEndCleared(sync, data, p.rest);
      }
    }
  }

  lemma LockedHeaderAtEnd(data: seq<byte>)
    requires |data| == HEADER_SIZE
    ensures HeaderAtEnd(SYNC, data)
  {
    hide BigEndian;
    SyncBytes();
    assert (BigEndian(SYNC, 4) + data)[..4] == SYNC_BYTES;
  }

  /** A locked parser reads past the datagram exactly if 28 bytes are left, whatever they are and
      whatever the filter says, unless another sync word stands exactly 32 bytes before the end and
      at least 29 bytes into the rest. */
  lemma LockedOverread(filter: Header -> bool, rest: seq<byte>, next: byte)
    requires |rest| < 61 || rest[|rest| - 32..|rest| - 28] != SYNC_BYTES
    ensures Decode(filter, SYNC, rest, next).overread <==> |rest| == HEADER_SIZE
  {
    hide ReadPacket, HeaderAtEnd, Decode;
    DecodeStep(filter, SYNC, rest, next);
    DecodeNothing(filter, SYNC, next);
    if |rest| >= HEADER_SIZE {
      OverreadAt28(filter, rest, next);
    }
    if |rest| > HEADER_SIZE {
      var p := ReadPacket(filter, rest, next);
      PacketRest(filter, rest, next);
      if p.complete && Decode(filter, 0, p.rest, next).overread {
        OverreadNeedsHeaderAtEnd(filter, 0, p.rest, next);
        HeaderAtEndCleared(SYNC, rest, p.rest);
      }
    }
  }

  /** The datagrams that are read past their end: those in which exactly 28 bytes follow the sync
      word the parser locks on.  With no sync word, nothing is. */
  lemma OverreadIff(filter: Header -> bool, sync: uint32, junk: seq<byte>, rest: seq<byte>, next: byte)
    requires NeverLocks(sync, junk)
    requires |rest| < 61 || rest[|rest| - 32..|rest| - 28] != SYNC_BYTES
    ensures Decode(filter, sync, junk + SYNC_BYTES + rest, next).overread <==> |rest| == HEADER_SIZE
    ensures !Decode(filter, sync, junk, next).overread
  {
    hide *;
    SelfSynchronisation(filter, sync, junk, rest, next);
    LockedOverread(filter, rest, next);
  }
}
