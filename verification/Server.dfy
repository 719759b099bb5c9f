/** The server program: its filter, its heartbeat and sensor handlers, and what they make of the
    marshaller. */
module Serving {
  import opened Codec
  import opened Options
  import opened Wire
  import opened Marshalling
  import opened Batching
  import opened Decoder
  import opened Channel
  import opened Transport
  import opened Faults

  // ------------------------------------------------------------- filter and conflict

  /** `strcmp` on both fields: packets that carry the own name and hash are discarded. */
  predicate Accepts(own: Source, h: Header) {
    h.sourceName != CStr(own.name) || h.sourceHash != CStr(own.hash)
  }

  predicate SameName(own: Source, h: Header) {
    h.sourceName == CStr(own.name)
  }

  /** The conflict flag after the listener calls `events`. */
  function ConflictAfter(own: Source, conflict: bool, events: seq<Event>): bool
    decreases |events|
  {
    if events == [] then conflict
    else
      var e := events[0];
      ConflictAfter(own, conflict || (e.Delivered? && e.message == Heartbeat && SameName(own, e.header)), events[1..])
  }

  function OwnFilter(own: Source): Filter {
    h => Accepts(own, h)
  }

  lemma {:induction false} ConflictFromCalls(own: Source, conflict: bool, h: Header, ms: seq<Message>)
    ensures ConflictAfter(own, conflict, Calls(h, ms)) == (conflict || (SameName(own, h) && Heartbeat in ms))
    decreases |ms|
  {
    if ms == [] {
    } else {
      ConflictFromCalls(own, conflict || (ms[0] == Heartbeat && SameName(own, h)), h, ms[1..]);
      assert Calls(h, ms)[1..] == Calls(h, ms[1..]);
    }
  }

  /** Through the wire, a packet is discarded exactly when the cut sender name and hash equal the
      receiver's, and flags a conflict exactly when it is not discarded, has a heartbeat in it and
      its cut name equals the receiver's. */
  lemma FilterExact(own: Source, conflict: bool, sync: uint32, src: Source, q: uint32, ms: seq<Message>, next: byte)
    requires sync != SYNC && |ms| <= 255
    ensures var o := Decode(OwnFilter(own), sync, PacketOf(src, q, ms), next);
            var sameName := Cut(src.name, N_SOURCE_NAME_CHARS) == CStr(own.name);
            var sameHash := Cut(src.hash, N_SOURCE_HASH_CHARS) == CStr(own.hash);
            && (o.sync == SYNC <==> sameName && sameHash)
            && Messages(o.events) == (if sameName && sameHash then [] else ReceivedAll(ms))
            && ConflictAfter(own, conflict, o.events) == (conflict || (sameName && !sameHash && Heartbeat in ms))
  {
    hide EncodeAll, PacketOf, Decode, Messages, Cut, CStr;
    var h := HeaderOf(src, q, |ms|);
    PacketDelivered(OwnFilter(own), sync, src, q, ms, next);
    JustFiltered(h);
    if Accepts(own, h) {
      PacketArrives(OwnFilter(own), sync, src, q, ms, next);
      var calls := Calls(h, ReceivedAll(ms));
      assert ([Filtered(h)] + calls)[1..] == calls;
      ConflictFromCalls(own, conflict, h, ReceivedAll(ms));
      assert Heartbeat in ms <==> Heartbeat in ReceivedAll(ms) by {
        if Heartbeat in ms {
          var i :| 0 <= i < |ms| && ms[i] == Heartbeat;
          assert ReceivedAll(ms)[i] == Heartbeat;
        }
      }
    }
  }

  /** A node recognises its own packets exactly when its name and hash fit their fields; with a
      longer name it takes them for foreign ones, and still flags no conflict. */
  lemma OwnPackets(own: Source, conflict: bool, sync: uint32, q: uint32, ms: seq<Message>, next: byte)
    requires sync != SYNC && |ms| <= 255
    ensures var o := Decode(OwnFilter(own), sync, PacketOf(own, q, ms), next);
            && (o.sync == SYNC <==> |CStr(own.name)| <= N_SOURCE_NAME_CHARS && |CStr(own.hash)| <= N_SOURCE_HASH_CHARS)
            && (|CStr(own.name)| > N_SOURCE_NAME_CHARS ==>
                  Messages(o.events) == ReceivedAll(ms) && ConflictAfter(own, conflict, o.events) == conflict)
  {
    hide Decode, PacketOf, Messages, ReceivedAll;
    FilterExact(own, conflict, sync, own, q, ms, next);
    CutIdempotent(own.name, N_SOURCE_NAME_CHARS);
    CutIdempotent(own.hash, N_SOURCE_HASH_CHARS);
  }

  /** Not only the own packets are discarded: a rival's heartbeat that comes right behind an own
      packet is lost, whatever the rival is called, and so is the conflict it would have shown. */
  lemma HeartbeatLostBehindOwn(own: Source, conflict: bool, sync: uint32, q: uint32, ms: seq<Message>, x: byte,
                               rival: Source, p: uint32, y: byte)
    requires sync != SYNC && |ms| <= 255 && p < 0x100_0000
    requires |CStr(own.name)| <= N_SOURCE_NAME_CHARS && |CStr(own.hash)| <= N_SOURCE_HASH_CHARS
    ensures var a := Decode(OwnFilter(own), sync, PacketOf(own, q, ms), x);
            var b := Decode(OwnFilter(own), a.sync, PacketOf(rival, p, [Heartbeat]), y);
            Messages(a.events + b.events) == [] && ConflictAfter(own, conflict, a.events + b.events) == conflict
  {
    hide Decode, Messages, ReceivedAll, CStr;
    var filter := OwnFilter(own);
    PacketDelivered(filter, sync, own, q, ms, x);
    CutIdempotent(own.name, N_SOURCE_NAME_CHARS);
    CutIdempotent(own.hash, N_SOURCE_HASH_CHARS);
    var own0 := HeaderOf(own, q, |ms|);
    var lost := Packet(rival, p, [Heartbeat]);
    HeartbeatTail(rival, p);
    LockedPacket(filter, rival, p, 1, EncodeAll([Heartbeat]), y);
    var h := ShiftedHeader(lost.Bytes());
    var tail := lost.Bytes()[29..];
    NeverLocksIffAbsent(tail);
    SelfSynchronisation(filter, 0, tail, [], y);
    assert [Filtered(h)] + [] == [Filtered(h)];
    FilteredOnly(own, conflict, own0, h);
    JustFiltered(own0);
    JustFiltered(h);
    MessagesConcat([Filtered(own0)], [Filtered(h)]);
  }

  lemma FilteredOnly(own: Source, conflict: bool, g: Header, h: Header)
    ensures ConflictAfter(own, conflict, [Filtered(g)] + [Filtered(h)]) == conflict
    ensures ConflictAfter(own, conflict, [Filtered(g)]) == conflict
  {
    var both := [Filtered(g)] + [Filtered(h)];
    assert both[1..] == [Filtered(h)];
    assert ConflictAfter(own, conflict, [Filtered(h)]) == ConflictAfter(own, conflict, []);
  }

  lemma HeartbeatTail(src: Source, q: uint32)
    ensures forall i: nat :: !OccursAt(SYNC_BYTES, PacketOf(src, q, [Heartbeat])[29..], i)
  {
    hide BigEndian, FixedString;
    assert EncodeAll([Heartbeat]) == [TYPE_HEARTBEAT] by {
      assert EncodeAll([Heartbeat]) == Encode(Heartbeat) + EncodeAll([]);
    }
    var tail := PacketOf(src, q, [Heartbeat])[29..];
    assert |tail| == 5 && tail[3] == 1 && tail[4] == TYPE_HEARTBEAT;
    forall i: nat ensures !OccursAt(SYNC_BYTES, tail, i) {
      if i <= 1 {
        assert tail[i..i + 4][3] == tail[i + 3];
      }
    }
  }

  // --------------------------------------------------------- conflicts over a stream

  lemma {:induction false} ConflictConcat(own: Source, conflict: bool, a: seq<Event>, b: seq<Event>)
    ensures ConflictAfter(own, conflict, a + b) == ConflictAfter(own, ConflictAfter(own, conflict, a), b)
    decreases |a|
  {
    if a == [] {
      assert a + b == b;
    } else {
      var e := a[0];
      var raised := conflict || (e.Delivered? && e.message == Heartbeat && SameName(own, e.header));
      ConflictConcat(own, raised, a[1..], b);
      assert (a + b)[1..] == a[1..] + b;
    }
  }

  /** A packet with a heartbeat from another node of the own name. */
  predicate FromRival(own: Source, p: Packet) {
    && Cut(p.src.name, N_SOURCE_NAME_CHARS) == CStr(own.name)
    && Cut(p.src.hash, N_SOURCE_HASH_CHARS) != CStr(own.hash)
    && Heartbeat in p.messages
  }

  /** A rival's heartbeat comes when the parser is not locked. */
  ghost predicate Heard(own: Source, locked: bool, ps: seq<Packet>) {
    exists i {:trigger ps[..i]} ::
      0 <= i < |ps| && !LockedAfter(OwnFilter(own), locked, ps[..i]) && FromRival(own, ps[i])
  }

  lemma HeardStep(own: Source, locked: bool, ps: seq<Packet>)
    requires ps != []
    ensures Heard(own, locked, ps) <==>
            (!locked && FromRival(own, ps[0])) || Heard(own, !locked && !OwnFilter(own)(ps[0].Head()), ps[1..])
  {
    hide FromRival, Accepts, HeaderOf;
    var filter, rest := OwnFilter(own), ps[1..];
    var after := !locked && !filter(ps[0].Head());
    forall i | 0 <= i < |rest|
      ensures LockedAfter(filter, locked, ps[..i + 1]) == LockedAfter(filter, after, rest[..i])
    {
      assert ps[..i + 1][1..] == rest[..i];
    }
    assert ps[..0] == [];
    if Heard(own, locked, ps) {
      var i :| 0 <= i < |ps| && !LockedAfter(filter, locked, ps[..i]) && FromRival(own, ps[i]);
      assert i > 0 ==> !LockedAfter(filter, after, rest[..i - 1]) && ps[i] == rest[i - 1];
    }
    if Heard(own, after, rest) {
      var i :| 0 <= i < |rest| && !LockedAfter(filter, after, rest[..i]) && FromRival(own, rest[i]);
      assert !LockedAfter(filter, locked, ps[..i + 1]) && ps[i + 1] == rest[i];
    }
  }

  lemma HeardNothing(own: Source, conflict: bool, locked: bool)
    ensures !Heard(own, locked, []) && ConflictAfter(own, conflict, []) == conflict
  {
  }

  /** A node learns of a conflict exactly if a rival's heartbeat reaches it while its parser is not
      locked, that is, not right behind an own packet that was discarded. */
  lemma {:induction false} ConflictExact(own: Source, conflict: bool, sync: uint32, ps: seq<Packet>, nexts: seq<byte>)
    requires |nexts| == |ps| && Regular(OwnFilter(own), sync == SYNC, ps)
    ensures ConflictAfter(own, conflict, DecodeStream(OwnFilter(own), sync, Datagrams(ps), nexts).events)
            == (conflict || Heard(own, sync == SYNC, ps))
    decreases |ps|
  {
    hide Ordinary, Decode, ReceivedAll, PacketOf, Heard, ConflictAfter, Cut, CStr;
    if ps == [] {
      HeardNothing(own, conflict, sync == SYNC);
    } else {
      var filter, p := OwnFilter(own), ps[0];
      var a := Decode(filter, sync, p.Bytes(), nexts[0]);
      var b := DecodeStream(filter, a.sync, Datagrams(ps[1..]), nexts[1..]);
      HeardStep(own, sync == SYNC, ps);
      if sync == SYNC {
        OrdinaryLost(filter, p, nexts[0]);
        JustFilteredConflict(own, conflict, ShiftedHeader(p.Bytes()));
      } else {
        FilterExact(own, conflict, sync, p.src, p.sequence, p.messages, nexts[0]);
      }
      var now := ConflictAfter(own, conflict, a.events);
      ConflictExact(own, now, a.sync, ps[1..], nexts[1..]);
      ConflictConcat(own, conflict, a.events, b.events);
      assert Datagrams(ps)[1..] == Datagrams(ps[1..]);
    }
  }

  lemma JustFilteredConflict(own: Source, conflict: bool, h: Header)
    ensures ConflictAfter(own, conflict, [Filtered(h)]) == conflict
  {
    assert [Filtered(h)][1..] == [];
  }

  // ------------------------------------------------------------- heartbeats in turn

  /** `n` heartbeat packets of two nodes in turn, the first from `x`. */
  function InTurn(x: Source, y: Source, i: nat, j: nat, n: nat): (r: seq<Packet>)
    requires i + n / 2 + n % 2 <= 0x100_0000 && j + n / 2 <= 0x100_0000
    ensures |r| == n
    decreases n
  {
    if n == 0 then [] else [Packet(x, i, [Heartbeat])] + InTurn(y, x, j, i + 1, n - 1)
  }

  lemma {:induction false} InTurnAt(x: Source, y: Source, i: nat, j: nat, n: nat, m: nat)
    requires i + n / 2 + n % 2 <= 0x100_0000 && j + n / 2 <= 0x100_0000 && m < n
    ensures InTurn(x, y, i, j, n)[m] ==
            if m % 2 == 0 then Packet(x, i + m / 2, [Heartbeat]) else Packet(y, j + m / 2, [Heartbeat])
    decreases n
  {
    if m == 0 {
    } else {
      InTurnAt(y, x, j, i + 1, n - 1, m - 1);
    }
  }

  /** Name and hash fit their fields, and the name does not begin like the sync word. */
  predicate Plain(own: Source) {
    && |CStr(own.name)| <= N_SOURCE_NAME_CHARS && |CStr(own.hash)| <= N_SOURCE_HASH_CHARS
    && (CStr(own.name) != [] ==> CStr(own.name)[0] != SYNC_BYTES[0])
  }

  /** A rival's heartbeat packet is ordinary: it costs a locked parser nothing but the packet. */
  lemma RivalOrdinary(own: Source, rival: Source, q: uint32)
    requires Plain(own) && q < 0x100_0000
    ensures Ordinary(OwnFilter(own), Packet(rival, q, [Heartbeat]))
  {
    hide PacketBytes, EncodeAll, CStr;
    var p := Packet(rival, q, [Heartbeat]);
    HeartbeatTail(rival, q);
    PacketStart(p);
    var raw := p.Bytes()[..29];
    assert raw[..16][0] == p.Bytes()[..4][0] == SYNC_BYTES[0];
    NameBegins(raw[..16]);
  }

  lemma NameBegins(field: seq<byte>)
    requires field != [] && field[0] != 0
    ensures CStr(field) != [] && CStr(field)[0] == field[0]
  {
  }

  lemma OwnDiscarded(own: Source, q: uint32)
    requires Plain(own)
    ensures var p := Packet(own, q, [Heartbeat]); !OwnFilter(own)(p.Head()) && !FromRival(own, p)
  {
    hide CStr;
    CutIdempotent(own.name, N_SOURCE_NAME_CHARS);
    CutIdempotent(own.hash, N_SOURCE_HASH_CHARS);
  }

  /** Heartbeats that come in turn with the own ones are never heard. */
  lemma {:induction false} InTurnUnheard(own: Source, rival: Source, i: nat, j: nat, n: nat)
    requires Plain(own) && i + n / 2 + n % 2 <= 0x100_0000 && j + n / 2 <= 0x100_0000
    ensures Regular(OwnFilter(own), false, InTurn(own, rival, i, j, n))
    ensures !Heard(own, false, InTurn(own, rival, i, j, n))
    decreases n
  {
    hide Ordinary, Plain, Heard, Accepts, FromRival, HeaderOf;
    var filter, ps := OwnFilter(own), InTurn(own, rival, i, j, n);
    HeardNothing(own, false, false);
    HeardNothing(own, false, true);
    if n == 0 {
    } else {
      OwnDiscarded(own, i);
      HeardStep(own, false, ps);
      var behind := InTurn(rival, own, j, i + 1, n - 1);
      assert ps[1..] == behind;
      if n > 1 {
        RivalOrdinary(own, rival, j);
        HeardStep(own, true, behind);
        InTurnUnheard(own, rival, i + 1, j + 1, n - 2);
        assert behind[1..] == InTurn(own, rival, i + 1, j + 1, n - 2);
        assert behind[0] == Packet(rival, j, [Heartbeat]);
        assert Regular(filter, true, behind);
      }
    }
  }

  // ------------------------------------------------------------------- the handlers

  /** A motor as the sensor timer sees it; reading its position may throw. */
  datatype Reading = Reading(name: seq<byte>, position: Option<int32>)

  datatype Control = Control(conflict: bool, nHeartbeat: nat, enabled: bool)

  const FRESH := Control(false, 0, false)

  datatype Tick = Abort | Beat(control: Control)

  /** The decision of the heartbeat timer: give up the name, start to broadcast, or go on. */
  function HeartbeatTick(c: Control): Tick {
    var n := c.nHeartbeat + 1;
    if !c.enabled && c.conflict then Abort
    else if n > 4 && !c.conflict then Beat(c.(nHeartbeat := n, enabled := true))
    else Beat(c.(nHeartbeat := n))
  }

  function RunOn(src: Source, cback: Callback, s: State, ops: seq<Op>): State {
    if ops == [] then s
    else Step(src, cback, RunOn(src, cback, s, ops[..|ops| - 1]), ops[|ops| - 1])
  }

  lemma {:induction false} RunOnRun(src: Source, cback: Callback, a: seq<Op>, b: seq<Op>)
    ensures RunOn(src, cback, Run(src, cback, a), b) == Run(src, cback, a + b)
  {
    hide Step;
    if b == [] {
      assert a + b == a;
    } else {
      RunOnRun(src, cback, a, b[..|b| - 1]);
      assert (a + b)[..|a + b| - 1] == a + b[..|b| - 1];
    }
  }

  lemma RunOnStep(src: Source, cback: Callback, s: State, ops: seq<Op>, op: Op)
    ensures RunOn(src, cback, s, []) == s
    ensures RunOn(src, cback, s, ops + [op]) == Step(src, cback, RunOn(src, cback, s, ops), op)
  {
    assert (ops + [op])[..|ops|] == ops;
  }

  lemma {:induction false} RunOnCons(src: Source, cback: Callback, s: State, op: Op, ops: seq<Op>)
    ensures RunOn(src, cback, s, [op] + ops) == RunOn(src, cback, Step(src, cback, s, op), ops)
  {
    hide Step;
    if ops == [] {
      RunOnStep(src, cback, s, [], op);
      assert [] + [op] == [op] + ops;
    } else {
      RunOnCons(src, cback, s, op, ops[..|ops| - 1]);
      assert ([op] + ops)[..|[op] + ops| - 1] == [op] + ops[..|ops| - 1];
    }
  }

  /** The marshaller calls of one handler, and whether an exception ended them. */
  datatype Pass = Pass(ops: seq<Op>, threw: bool)

  function PositionOp(r: Reading): Op
    requires r.position.Some?
  {
    Write(PositionSensor(r.name, r.position.value))
  }

  /** The positions are written up to the first exception, from a motor or from sending what is
      pending already. */
  function PositionPass(src: Source, cback: Callback, s: State, readings: seq<Reading>): Pass
    decreases readings
  {
    if readings == [] then Pass([], false)
    else if readings[0].position == None then Pass([], true)
    else
      var op := PositionOp(readings[0]);
      if Throws(src, cback, s, op) then Pass([op], true)
      else
        var p := PositionPass(src, cback, Step(src, cback, s, op), readings[1..]);
        Pass([op] + p.ops, p.threw)
  }

  function SensorPass(src: Source, cback: Callback, s: State, readings: seq<Reading>): Pass {
    var p := PositionPass(src, cback, s, readings);
    if p.threw then p else Pass(p.ops + [Flush], FlushThrows(src, cback, RunOn(src, cback, s, p.ops)))
  }

  function HeartbeatPass(src: Source, cback: Callback, s: State): Pass {
    if Throws(src, cback, s, Write(Heartbeat)) then Pass([Write(Heartbeat)], true)
    else Pass([Write(Heartbeat), Flush], FlushThrows(src, cback, Written(src, cback, s, Heartbeat)))
  }

  lemma PassStep(src: Source, cback: Callback, s: State, readings: seq<Reading>)
    ensures PositionPass(src, cback, s, readings) ==
            if readings == [] then Pass([], false)
            else if readings[0].position == None then Pass([], true)
            else
              var op := PositionOp(readings[0]);
              if Throws(src, cback, s, op) then Pass([op], true)
              else
                var p := PositionPass(src, cback, Step(src, cback, s, op), readings[1..]);
                Pass([op] + p.ops, p.threw)
  {
  }

  lemma RunOnShift(src: Source, cback: Callback, s: State, op: Op, ops: seq<Op>)
    ensures forall i {:trigger ops[..i]} :: 0 <= i <= |ops| ==>
              RunOn(src, cback, s, ([op] + ops)[..i + 1]) == RunOn(src, cback, Step(src, cback, s, op), ops[..i])
  {
    hide Step, RunOn;
    forall i | 0 <= i <= |ops|
      ensures RunOn(src, cback, s, ([op] + ops)[..i + 1]) == RunOn(src, cback, Step(src, cback, s, op), ops[..i])
    {
      RunOnCons(src, cback, s, op, ops[..i]);
      assert ([op] + ops)[..i + 1] == [op] + ops[..i];
    }
  }

  /** The call `i` of a list of calls throws. */
  predicate ThrowsAt(src: Source, cback: Callback, s: State, ops: seq<Op>, i: nat)
    requires i < |ops|
  {
    Throws(src, cback, RunOn(src, cback, s, ops[..i]), ops[i])
  }

  /** A sensor pass writes the positions of the motors in order, up to the first exception: no call
      but the last can have thrown, and it stops early only behind a throw or at a motor that throws. */
  lemma {:induction false} PositionPassMeaning(src: Source, cback: Callback, s: State, readings: seq<Reading>)
    ensures var p := PositionPass(src, cback, s, readings);
            var n := |p.ops|;
            && n <= |readings|
            && (forall i :: 0 <= i < n ==>
                  readings[i].position.Some? &&
                  p.ops[i] == Write(PositionSensor(readings[i].name, readings[i].position.value)))
            && (forall i :: 0 <= i < n - 1 ==> !ThrowsAt(src, cback, s, p.ops, i))
            && (p.threw <==> (n > 0 && ThrowsAt(src, cback, s, p.ops, n - 1)) ||
                             (n < |readings| && readings[n].position == None))
            && (!p.threw ==> n == |readings|)
    decreases readings
  {
    hide Throws, Step, RunOn, PositionPass;
    PassStep(src, cback, s, readings);
    if readings == [] || readings[0].position == None {
    } else {
      var op, p := PositionOp(readings[0]), PositionPass(src, cback, s, readings);
      RunOnStep(src, cback, s, [], op);
      assert p.ops[..0] == [];
      if !Throws(src, cback, s, op) {
        var t := Step(src, cback, s, op);
        var q := PositionPass(src, cback, t, readings[1..]);
        PositionPassMeaning(src, cback, t, readings[1..]);
        RunOnShift(src, cback, s, op, q.ops);
        assert forall i :: 0 <= i < |q.ops| ==>
                 ThrowsAt(src, cback, s, p.ops, i + 1) == ThrowsAt(src, cback, t, q.ops, i);
        hide ThrowsAt;
        assert forall i :: 0 < i < |p.ops| ==>
                 ThrowsAt(src, cback, s, p.ops, i) == ThrowsAt(src, cback, t, q.ops, i - 1);
      }
    }
  }

  /** Having made the calls `done` for the first `i` motors, the pass has come to the state `t`. */
  ghost predicate Midway(src: Source, cback: Callback, s: State, readings: seq<Reading>, i: nat, done: seq<Op>,
                         t: State)
    requires i <= |readings|
  {
    var total, rest := PositionPass(src, cback, s, readings), PositionPass(src, cback, t, readings[i..]);
    t == RunOn(src, cback, s, done) && total.ops == done + rest.ops && total.threw == rest.threw
  }

  lemma MidwayStart(src: Source, cback: Callback, s: State, readings: seq<Reading>)
    ensures Midway(src, cback, s, readings, 0, [], s)
  {
    hide PositionPass;
    assert readings[0..] == readings;
    assert [] + PositionPass(src, cback, s, readings).ops == PositionPass(src, cback, s, readings).ops;
  }

  lemma MidwayEnd(src: Source, cback: Callback, s: State, readings: seq<Reading>, done: seq<Op>, t: State)
    requires Midway(src, cback, s, readings, |readings|, done, t)
    ensures PositionPass(src, cback, s, readings) == Pass(done, false) && t == RunOn(src, cback, s, done)
  {
    hide PositionPass, RunOn;
    PassStep(src, cback, t, []);
    assert readings[|readings|..] == [] && done + [] == done;
  }

  lemma MidwayStep(src: Source, cback: Callback, s: State, readings: seq<Reading>, i: nat, done: seq<Op>, t: State)
    requires i < |readings| && Midway(src, cback, s, readings, i, done, t)
    ensures var p := PositionPass(src, cback, s, readings);
            if readings[i].position == None then p == Pass(done, true) && t == RunOn(src, cback, s, done)
            else
              var op := PositionOp(readings[i]);
              var u := Step(src, cback, t, op);
              if Throws(src, cback, t, op) then p.threw && u == RunOn(src, cback, s, p.ops)
              else Midway(src, cback, s, readings, i + 1, done + [op], u)
  {
    hide PositionPass, RunOn, Step, Throws, PositionOp;
    PassStep(src, cback, t, readings[i..]);
    assert readings[i..][1..] == readings[i + 1..] && done + [] == done;
    if readings[i].position.Some? {
      var op := PositionOp(readings[i]);
      RunOnStep(src, cback, s, done, op);
      var q := PositionPass(src, cback, Step(src, cback, t, op), readings[i + 1..]);
      assert done + ([op] + q.ops) == done + [op] + q.ops;
    }
  }

  /** How a server's process ends: it gives up its name, an exception leaves the event loop, or a
      handler asks the loop to return. */
  datatype Ending = Running | Aborted | Crashed | Finished

  class Server {
    const own: Source
    const marshaller: Marshaller
    var conflict: bool
    var nHeartbeat: nat
    var sensorBroadcastEnabled: bool

    ghost predicate Valid()
      reads this, marshaller, marshaller.buf
    {
      marshaller.Valid() && marshaller.source == own
    }

    function Ctl(): Control
      reads this
    {
      Control(conflict, nHeartbeat, sensorBroadcastEnabled)
    }

    constructor (own: Source, cback: Callback)
      ensures Valid() && fresh(marshaller) && fresh(marshaller.buf)
      ensures Ctl() == FRESH && marshaller.Abs() == INIT && marshaller.cback == cback && this.own == own
    {
      this.own := own;
      marshaller := new Marshaller(cback, own.name, own.hash);
      conflict, nHeartbeat, sensorBroadcastEnabled := false, 0, false;
    }

    method OnHeartbeat(h: Header)
      modifies this`conflict
      ensures conflict == (old(conflict) || SameName(own, h))
    {
      conflict := conflict || h.sourceName == CStr(own.name);
    }

    /** The loop over the motors; `threw` is true where an exception leaves it. */
    method WritePositions(readings: seq<Reading>) returns (threw: bool)
      requires Valid()
      modifies marshaller, marshaller.buf
      ensures Valid()
      ensures var p := PositionPass(own, marshaller.cback, old(marshaller.Abs()), readings);
              marshaller.Abs() == RunOn(own, marshaller.cback, old(marshaller.Abs()), p.ops) && threw == p.threw
    {
      hide Written, Throws, RunOn, PositionPass, Midway;
      ghost var cback, s, done := marshaller.cback, marshaller.Abs(), [];
      MidwayStart(own, cback, s, readings);
      for i := 0 to |readings|
        invariant Valid() && Midway(own, cback, s, readings, i, done, marshaller.Abs())
      {
        var r := readings[i];
        MidwayStep(own, cback, s, readings, i, done, marshaller.Abs());
        if r.position == None {
          return true;
        }
        threw := marshaller.WritePositionSensor(r.name, r.position.value);
        if threw {
          return;
        }
        done := done + [PositionOp(r)];
      }
      MidwayEnd(own, cback, s, readings, done, marshaller.Abs());
      threw := false;
    }

    /** `rescan` is true where the source catches an exception and rescans the motors. */
    method HandleSensorTimer(readings: seq<Reading>) returns (ok: bool, rescan: bool)
      requires Valid()
      modifies marshaller, marshaller.buf
      ensures Valid()
      ensures !sensorBroadcastEnabled ==> ok && !rescan && marshaller.Abs() == old(marshaller.Abs())
      ensures sensorBroadcastEnabled ==>
                var p := SensorPass(own, marshaller.cback, old(marshaller.Abs()), readings);
                && marshaller.Abs() == RunOn(own, marshaller.cback, old(marshaller.Abs()), p.ops)
                && ok == marshaller.good && rescan == p.threw
    {
      if !sensorBroadcastEnabled {
        return true, false;
      }
      hide Flushed, FlushThrows, RunOn, PositionPass;
      ghost var cback, s := marshaller.cback, marshaller.Abs();
      RunOnStep(own, cback, s, PositionPass(own, cback, s, readings).ops, Flush);
      rescan := WritePositions(readings);
      if !rescan {
        rescan := marshaller.Flush();
      }
      ok := marshaller.good;
    }

    /** `Crashed` where an exception leaves the handler, and with it the event loop. */
    method HandleHeartbeatTimer() returns (ending: Ending)
      requires Valid()
      modifies this`nHeartbeat, this`sensorBroadcastEnabled, marshaller, marshaller.buf
      ensures Valid()
      ensures HeartbeatTick(old(Ctl())) == Abort ==>
                && ending == Aborted && Ctl() == old(Ctl()).(nHeartbeat := old(nHeartbeat) + 1)
                && marshaller.Abs() == old(marshaller.Abs())
      ensures HeartbeatTick(old(Ctl())) != Abort ==>
                var p := HeartbeatPass(own, marshaller.cback, old(marshaller.Abs()));
                && ending == (if p.threw then Crashed else Running) && HeartbeatTick(old(Ctl())) == Beat(Ctl())
                && marshaller.Abs() == RunOn(own, marshaller.cback, old(marshaller.Abs()), p.ops)
    {
      hide Flushed, Written, FlushThrows, Throws;
      nHeartbeat := nHeartbeat + 1;
      if !sensorBroadcastEnabled && conflict {
        return Aborted;
      } else if nHeartbeat > 4 && !conflict {
        sensorBroadcastEnabled := true;
      }
      ghost var cback, s := marshaller.cback, marshaller.Abs();
      RunOnStep(own, cback, s, [], Write(Heartbeat));
      RunOnStep(own, cback, s, [Write(Heartbeat)], Flush);
      assert [] + [Write(Heartbeat)] == [Write(Heartbeat)] && [Write(Heartbeat)] + [Flush] == [Write(Heartbeat), Flush];
      var threw := marshaller.WriteHeartbeat();
      if threw {
        return Crashed;
      }
      threw := marshaller.Flush();
      ending := if threw then Crashed else Running;
    }
  }

  // ------------------------------------------------------------- runs of the handlers

  datatype Call =
    | SensorTimer(readings: seq<Reading>)
    | HeartbeatTimer
    | ForeignHeartbeat(header: Header)

  /** A server's control state, and all marshaller calls it has made, those that threw included. */
  datatype Life = Life(ending: Ending, control: Control, ops: seq<Op>)

  /** The handlers' calls on a marshaller that has seen the calls of `l`. */
  function Sensed(own: Source, cback: Callback, l: Life, readings: seq<Reading>): Life {
    if !l.control.enabled then l
    else
      var ops := l.ops + SensorPass(own, cback, Run(own, cback, l.ops), readings).ops;
      Life(if Run(own, cback, ops).good then Running else Finished, l.control, ops)
  }

  function Beaten(own: Source, cback: Callback, l: Life): Life {
    match HeartbeatTick(l.control)
    case Abort => l.(ending := Aborted)
    case Beat(c) =>
      var p := HeartbeatPass(own, cback, Run(own, cback, l.ops));
      Life(if p.threw then Crashed else Running, c, l.ops + p.ops)
  }

  function Handle(own: Source, cback: Callback, l: Life, call: Call): Life {
    if l.ending != Running then l
    else match call
      case SensorTimer(readings) => Sensed(own, cback, l, readings)
      case ForeignHeartbeat(h) => l.(control := l.control.(conflict := l.control.conflict || SameName(own, h)))
      case HeartbeatTimer => Beaten(own, cback, l)
  }

  function Serve(own: Source, cback: Callback, calls: seq<Call>): Life {
    if calls == [] then Life(Running, FRESH, [])
    else Handle(own, cback, Serve(own, cback, calls[..|calls| - 1]), calls[|calls| - 1])
  }

  predicate IsPosition(m: Message) {
    m.PositionSensor?
  }

  /** At most 59 positions. */
  predicate Calm(ms: seq<Message>) {
    |ms| <= 59 && forall m <- ms :: IsPosition(m)
  }

  /** At most 59 positions and at most one heartbeat behind them. */
  predicate Modest(ms: seq<Message>) {
    Calm(ms) || (ms != [] && ms[|ms| - 1] == Heartbeat && Calm(ms[..|ms| - 1]))
  }

  lemma {:induction false} PositionsSize(ms: seq<Message>)
    requires forall m <- ms :: IsPosition(m)
    ensures |EncodeAll(ms)| == POSITION_SENSOR_SIZE * |ms|
  {
    if ms == [] {
    } else {
      hide Encode;
      assert ms[0] in ms;
      PositionsSize(ms[1..]);
      assert EncodeAll(ms) == Encode(ms[0]) + EncodeAll(ms[1..]);
      hide EncodeAll;
      assert MsgSize(ms[0]) == POSITION_SENSOR_SIZE;
    }
  }

  /** Of positions no more than 59 fit into one packet, and a heartbeat always fits behind them. */
  lemma PositionFits(open: seq<Message>, m: Message)
    requires Calm(open)
    ensures IsPosition(m) ==> (Fits(open, m) <==> |open| <= 58)
    ensures m == Heartbeat ==> Fits(open, m)
  {
    hide EncodeAll;
    PositionsSize(open);
  }

  /** Positions and flushes keep the peace, whether they throw or not; a heartbeat never throws, and
      a flush behind it either empties the buffer or leaves it as it was. */
  lemma CalmStep(src: Source, cback: Callback, s: State, op: Op)
    requires Calm(s.pending) && (op.Write? ==> IsPosition(op.message) || op.message == Heartbeat)
    ensures var t := Step(src, cback, s, op);
            if op == Write(Heartbeat) then
              && t == s.(pending := s.pending + [Heartbeat]) && !Throws(src, cback, s, op)
              && Step(src, cback, t, Flush).pending == if FlushThrows(src, cback, t) then t.pending else []
            else Calm(t.pending)
  {
    hide EncodeAll, PacketOf, Fits;
    if op.Write? {
      PositionFits(s.pending, op.message);
    }
  }

  /** Through every point of a pass over the motors. */
  lemma {:induction false} PositionPassCalm(src: Source, cback: Callback, s: State, readings: seq<Reading>, n: nat)
    requires Calm(s.pending) && n <= |PositionPass(src, cback, s, readings).ops|
    ensures Calm(RunOn(src, cback, s, PositionPass(src, cback, s, readings).ops[..n]).pending)
    decreases readings
  {
    hide Throws, Step, RunOn, PositionPass, Calm;
    PassStep(src, cback, s, readings);
    var ops := PositionPass(src, cback, s, readings).ops;
    if n == 0 {
      RunOnStep(src, cback, s, [], Flush);
      assert ops[..n] == [];
    } else {
      var op := PositionOp(readings[0]);
      CalmStep(src, cback, s, op);
      var t := Step(src, cback, s, op);
      if Throws(src, cback, s, op) {
        assert ops[..n] == [op] + [];
        RunOnStep(src, cback, t, [], op);
        RunOnCons(src, cback, s, op, []);
      } else {
        var rest := PositionPass(src, cback, t, readings[1..]).ops;
        PositionPassCalm(src, cback, t, readings[1..], n - 1);
        RunOnCons(src, cback, s, op, rest[..n - 1]);
        assert ops[..n] == [op] + rest[..n - 1];
      }
    }
  }

  lemma SensorPassCalm(src: Source, cback: Callback, s: State, readings: seq<Reading>, n: nat)
    requires Calm(s.pending) && n <= |SensorPass(src, cback, s, readings).ops|
    ensures Calm(RunOn(src, cback, s, SensorPass(src, cback, s, readings).ops[..n]).pending)
  {
    hide Throws, Step, RunOn, PositionPass, Calm;
    var p, ops := PositionPass(src, cback, s, readings), SensorPass(src, cback, s, readings).ops;
    if n <= |p.ops| {
      PositionPassCalm(src, cback, s, readings, n);
      assert ops[..n] == p.ops[..n];
    } else {
      PositionPassCalm(src, cback, s, readings, |p.ops|);
      assert p.ops[..|p.ops|] == p.ops && ops[..n] == p.ops + [Flush];
      RunOnStep(src, cback, s, p.ops, Flush);
      CalmStep(src, cback, RunOn(src, cback, s, p.ops), Flush);
    }
  }

  lemma HeartbeatPassModest(src: Source, cback: Callback, s: State, n: nat)
    requires Calm(s.pending) && n <= |HeartbeatPass(src, cback, s).ops|
    ensures var p := HeartbeatPass(src, cback, s);
            && p.ops != [] && Modest(RunOn(src, cback, s, p.ops[..n]).pending)
            && RunOn(src, cback, s, p.ops).pending == if p.threw then s.pending + [Heartbeat] else []
  {
    hide Throws, FlushThrows, Flushed, Fits, RunOn;
    CalmStep(src, cback, s, Write(Heartbeat));
    var p := HeartbeatPass(src, cback, s);
    RunOnStep(src, cback, s, [], Write(Heartbeat));
    RunOnStep(src, cback, s, [Write(Heartbeat)], Flush);
    assert [] + [Write(Heartbeat)] == [Write(Heartbeat)] && [Write(Heartbeat)] + [Flush] == [Write(Heartbeat), Flush];
    assert p.ops[..n] == if n == 0 then [] else if n == 1 then [Write(Heartbeat)] else [Write(Heartbeat), Flush];
    var t := s.pending + [Heartbeat];
    assert t[..|t| - 1] == s.pending;
  }

  /** A running server has positions pending, at most 59, and no heartbeat, between any two handler
      calls; one that crashed has the heartbeat pending that it could not send.  At every point inside
      the handlers too, at most 59 positions and one heartbeat are pending. */
  lemma {:induction false} ServedShape(own: Source, cback: Callback, calls: seq<Call>)
    ensures var l := Serve(own, cback, calls);
            && (l.ending != Crashed ==> Calm(Run(own, cback, l.ops).pending))
            && (l.ending == Crashed ==> Heartbeat in Run(own, cback, l.ops).pending)
            && AlwaysModest(own, cback, l.ops)
  {
    hide *;
    if calls == [] {
      NothingPending(own, cback);
    } else {
      var before, call := calls[..|calls| - 1], calls[|calls| - 1];
      ServedShape(own, cback, before);
      ServeStep(own, cback, calls);
      HandledShape(own, cback, Serve(own, cback, before), call);
    }
  }

  lemma ServeStep(own: Source, cback: Callback, calls: seq<Call>)
    requires calls != []
    ensures Serve(own, cback, calls) == Handle(own, cback, Serve(own, cback, calls[..|calls| - 1]), calls[|calls| - 1])
  {
  }

  /** At every point of a run of calls. */
  ghost predicate AlwaysModest(own: Source, cback: Callback, ops: seq<Op>) {
    forall n {:trigger ops[..n]} :: 0 <= n <= |ops| ==> Modest(Run(own, cback, ops[..n]).pending)
  }

  lemma HandledShape(own: Source, cback: Callback, l: Life, call: Call)
    requires l.ending != Crashed ==> Calm(Run(own, cback, l.ops).pending)
    requires l.ending == Crashed ==> Heartbeat in Run(own, cback, l.ops).pending
    requires AlwaysModest(own, cback, l.ops)
    ensures var after := Handle(own, cback, l, call);
            && (after.ending != Crashed ==> Calm(Run(own, cback, after.ops).pending))
            && (after.ending == Crashed ==> Heartbeat in Run(own, cback, after.ops).pending)
            && AlwaysModest(own, cback, after.ops)
  {
    hide SensorPass, HeartbeatPass, RunOn, Run, Calm, Modest, AlwaysModest;
    if l.ending == Running {
      var s := Run(own, cback, l.ops);
      match call
      case SensorTimer(readings) =>
        var p := SensorPass(own, cback, s, readings);
        forall n | 0 <= n <= |p.ops| ensures Calm(RunOn(own, cback, s, p.ops[..n]).pending) {
          SensorPassCalm(own, cback, s, readings, n);
        }
        PassModest(own, cback, l.ops, p.ops);
        assert p.ops[..|p.ops|] == p.ops;
      case HeartbeatTimer =>
        var p := HeartbeatPass(own, cback, s);
        forall n | 0 <= n <= |p.ops| ensures Modest(RunOn(own, cback, s, p.ops[..n]).pending) {
          HeartbeatPassModest(own, cback, s, n);
        }
        HeartbeatPassModest(own, cback, s, 0);
        PassModest(own, cback, l.ops, p.ops);
        CalmNothing();
      case ForeignHeartbeat(_) =>
    }
  }

  /** The points inside a handler. */
  lemma PassModest(own: Source, cback: Callback, ops: seq<Op>, more: seq<Op>)
    requires AlwaysModest(own, cback, ops)
    requires forall n {:trigger more[..n]} :: 0 <= n <= |more| ==>
               var ms := RunOn(own, cback, Run(own, cback, ops), more[..n]).pending; Calm(ms) || Modest(ms)
    ensures AlwaysModest(own, cback, ops + more)
    ensures Run(own, cback, ops + more) == RunOn(own, cback, Run(own, cback, ops), more)
  {
    hide RunOn, Run, Calm;
    RunOnRun(own, cback, ops, more);
    forall n | 0 <= n <= |ops + more| ensures Modest(Run(own, cback, (ops + more)[..n]).pending) {
      if n <= |ops| {
        assert (ops + more)[..n] == ops[..n];
      } else {
        assert (ops + more)[..n] == ops + more[..n - |ops|];
        RunOnRun(own, cback, ops, more[..n - |ops|]);
      }
    }
  }

  lemma NothingPending(own: Source, cback: Callback)
    ensures var l := Serve(own, cback, []);
            l.ending == Running && Calm(Run(own, cback, l.ops).pending) && AlwaysModest(own, cback, l.ops)
  {
    var none: seq<Op> := [];
    assert none[..0] == none;
  }

  lemma CalmNothing()
    ensures Calm([])
  {
  }

  /** The batches are what was pending at some time. */
  lemma {:induction false} ClosedWerePending(src: Source, cback: Callback, ops: seq<Op>, most: nat)
    requires forall n {:trigger ops[..n]} :: 0 <= n <= |ops| ==> |Run(src, cback, ops[..n]).pending| <= most
    ensures forall b <- Closed(Completed(src, cback, ops)) :: |b| <= most
  {
    hide Run, Closed, Open, Throws;
    if ops == [] {
      assert Closed([]) == [] by { NoBatchClosed(); }
    } else {
      var init, op := ops[..|ops| - 1], ops[|ops| - 1];
      forall n | 0 <= n <= |init| ensures |Run(src, cback, init[..n]).pending| <= most {
        assert init[..n] == ops[..n];
      }
      ClosedWerePending(src, cback, init, most);
      var done := Completed(src, cback, init);
      RunIsBatched(src, cback, init);
      assert |Run(src, cback, ops[..|ops| - 1]).pending| <= most;
      ClosedStep(done, op);
      assert done + [] == done;
    }
  }

  lemma NoBatchClosed()
    ensures Closed([]) == []
  {
  }

  /** The one-byte counter never wraps in the server: whatever its callback does, inside and between
      handler calls, also after sensor passes that an exception from a motor or from sending cut
      short, and after a heartbeat that could not be sent, at most 60 messages are pending. */
  lemma NoWrap(cback: Callback, own: Source, calls: seq<Call>, n: nat)
    requires n <= |Serve(own, cback, calls).ops|
    ensures var l := Serve(own, cback, calls);
            && |Run(own, cback, l.ops[..n]).pending| <= 60
            && (l.ending != Crashed ==> |Run(own, cback, l.ops).pending| <= 59)
            && forall b <- Closed(Completed(own, cback, l.ops)) :: |b| <= 60
  {
    var ops := Serve(own, cback, calls).ops;
    hide Serve, Run, Closed, Completed;
    ServedShape(own, cback, calls);
    forall k | 0 <= k <= |ops| ensures |Run(own, cback, ops[..k]).pending| <= 60 {
      assert AlwaysModest(own, cback, ops) && Modest(Run(own, cback, ops[..k]).pending);
    }
    ClosedWerePending(own, cback, ops, 60);
  }

  /** A sensor pass that no exception ends leaves nothing pending. */
  lemma SensorPassFlushes(src: Source, cback: Callback, s: State, readings: seq<Reading>)
    ensures var p := SensorPass(src, cback, s, readings);
            !p.threw ==> RunOn(src, cback, s, p.ops).pending == []
  {
    hide PositionPass, RunOn, PacketOf;
    RunOnStep(src, cback, s, PositionPass(src, cback, s, readings).ops, Flush);
  }

  /** The messages of a pass over motors none of which throws. */
  function Positions(readings: seq<Reading>): (ms: seq<Message>)
    requires forall r <- readings :: r.position.Some?
    ensures |ms| == |readings|
    ensures forall i :: 0 <= i < |ms| ==> ms[i] == PositionSensor(readings[i].name, readings[i].position.value)
  {
    seq(|readings|, i requires 0 <= i < |readings| =>
      assert readings[i] in readings; PositionSensor(readings[i].name, readings[i].position.value))
  }

  /** Positions that fit behind what is pending are just written. */
  lemma {:induction false} PositionsJustWritten(src: Source, cback: Callback, s: State, readings: seq<Reading>)
    requires Calm(s.pending) && |s.pending| + |readings| <= 59 && forall r <- readings :: r.position.Some?
    ensures var p := PositionPass(src, cback, s, readings);
            !p.threw && RunOn(src, cback, s, p.ops) == s.(pending := s.pending + Positions(readings))
    decreases readings
  {
    hide PositionPass, RunOn, Fits, EncodeAll, Flushed, FlushThrows;
    PassStep(src, cback, s, readings);
    RunOnStep(src, cback, s, [], Flush);
    if readings == [] {
      assert s.pending + Positions(readings) == s.pending;
    } else {
      var r := readings[0];
      assert r in readings && forall q <- readings[1..] :: q in readings;
      var op := PositionOp(r);
      PositionFits(s.pending, op.message);
      var t := Step(src, cback, s, op);
      PositionsJustWritten(src, cback, t, readings[1..]);
      RunOnCons(src, cback, s, op, PositionPass(src, cback, t, readings[1..]).ops);
      assert s.pending + Positions(readings) == s.pending + [op.message] + Positions(readings[1..]);
    }
  }

  /** Up to 59 motors go out in one datagram: its positions are those of all motors, in order, and
      nothing stays pending. */
  lemma SensorPassSends(src: Source, cback: Callback, s: State, readings: seq<Reading>)
    requires s.good && s.pending == [] && 0 < |readings| <= 59 && forall r <- readings :: r.position.Some?
    ensures var p := SensorPass(src, cback, s, readings);
            var t := RunOn(src, cback, s, p.ops);
            var packet := PacketOf(src, s.flushes % 0x1_0000_0000, Positions(readings));
            && t.handed == s.handed + [packet]
            && (p.threw <==> cback(t.handed) == Threw)
            && (!p.threw ==> t.pending == [] && t.sent == s.sent + [packet] && t.flushes == s.flushes + 1)
            && (p.threw ==> t.pending == Positions(readings) && t.sent == s.sent && t.flushes == s.flushes)
  {
    hide PositionPass, RunOn, PacketOf;
    PositionsJustWritten(src, cback, s, readings);
    RunOnStep(src, cback, s, PositionPass(src, cback, s, readings).ops, Flush);
    assert s.pending + Positions(readings) == Positions(readings);
  }

  /** Behind a sensor pass of a broadcasting server that no exception ends, everything that was ever
      written without an exception has arrived at every node that accepts its packets. */
  lemma SensorPassArrives(cback: Callback, own: Source, calls: seq<Call>, readings: seq<Reading>,
                          filter: Filter, sync: uint32, next: seq<byte>)
    requires forall xs :: cback(xs) != Refused
    requires var l := Serve(own, cback, calls);
             && l.ending == Running && l.control.enabled
             && !SensorPass(own, cback, Run(own, cback, l.ops), readings).threw
    requires AcceptsSource(filter, own) && sync != SYNC
    requires |next| == |Run(own, cback, Serve(own, cback, calls + [SensorTimer(readings)]).ops).sent|
    ensures var ops := Serve(own, cback, calls + [SensorTimer(readings)]).ops;
            Messages(DecodeStream(filter, sync, Run(own, cback, ops).sent, next).events)
            == ReceivedAll(AllWritten(Completed(own, cback, ops)))
  {
    hide SensorPass, Run, Completed, Closed, DecodeStream, RunOn, AcceptsSource;
    var l, more := Serve(own, cback, calls), calls + [SensorTimer(readings)];
    assert more[..|more| - 1] == calls;
    var p := SensorPass(own, cback, Run(own, cback, l.ops), readings);
    SensorPassFlushes(own, cback, Run(own, cback, l.ops), readings);
    RunOnRun(own, cback, l.ops, p.ops);
    var ops := Serve(own, cback, more).ops;
    assert ops == l.ops + p.ops;
    NoWrap(cback, own, more, |ops|);
    AlwaysGood(own, cback, ops);
    Transparency(own, cback, ops, filter, sync, next);
  }

  /** What the server flushes arrives in full at every node that accepts its packets: its callback
      reports success or throws, and its batches never outgrow the counter. */
  lemma DeployedTransparency(cback: Callback, own: Source, calls: seq<Call>,
                             filter: Filter, sync: uint32, next: seq<byte>)
    requires forall xs :: cback(xs) != Refused
    requires AcceptsSource(filter, own) && sync != SYNC
    requires |next| == |Run(own, cback, Serve(own, cback, calls).ops).sent|
    ensures var ops := Serve(own, cback, calls).ops;
            Messages(DecodeStream(filter, sync, Run(own, cback, ops).sent, next).events)
            == ReceivedAll(Flatten(Closed(Completed(own, cback, ops))))
  {
    var ops := Serve(own, cback, calls).ops;
    hide Serve, Batches, Closed, DecodeStream, Packets, Run, Completed;
    NoWrap(cback, own, calls, |ops|);
    RunIsBatched(own, cback, ops);
    AlwaysGood(own, cback, ops);
    BatchesArrive(own, Closed(Completed(own, cback, ops)), filter, sync, next);
  }

  // ------------------------------------------------------- the life of the control state

  function Beats(calls: seq<Call>): nat {
    if calls == [] then 0
    else Beats(calls[..|calls| - 1]) + if calls[|calls| - 1].HeartbeatTimer? then 1 else 0
  }

  predicate Undisturbed(own: Source, calls: seq<Call>) {
    forall call <- calls :: call.ForeignHeartbeat? ==> !SameName(own, call.header)
  }

  /** A server that hears no heartbeat with its own name never gives up, and as long as it runs it
      broadcasts positions exactly from its fifth heartbeat on. */
  lemma {:induction false} UndisturbedLife(own: Source, cback: Callback, calls: seq<Call>)
    requires Undisturbed(own, calls)
    ensures var l := Serve(own, cback, calls);
            && l.ending != Aborted && !l.control.conflict
            && (l.ending == Running ==>
                  l.control.nHeartbeat == Beats(calls) && l.control.enabled == (Beats(calls) >= 5))
  {
    hide SensorPass, HeartbeatPass, Run;
    if calls == [] {
    } else {
      assert calls[|calls| - 1] in calls;
      UndisturbedLife(own, cback, calls[..|calls| - 1]);
    }
  }

  /** A broadcasting server never gives up its name, whatever it hears. */
  lemma {:induction false} EnabledForGood(own: Source, cback: Callback, calls: seq<Call>, more: seq<Call>)
    requires Serve(own, cback, calls).ending != Aborted && Serve(own, cback, calls).control.enabled
    ensures Serve(own, cback, calls + more).ending != Aborted && Serve(own, cback, calls + more).control.enabled
  {
    hide SensorPass, HeartbeatPass, Run;
    if more == [] {
      assert calls + more == calls;
    } else {
      EnabledForGood(own, cback, calls, more[..|more| - 1]);
      assert (calls + more)[..|calls + more| - 1] == calls + more[..|more| - 1];
    }
  }

  /** With a callback that always succeeds a server that does not give up runs on. */
  lemma {:induction false} RunsOn(own: Source, cback: Callback, calls: seq<Call>)
    requires forall xs :: cback(xs) == Accepted
    ensures Serve(own, cback, calls).ending in {Running, Aborted}
  {
    hide SensorPass, Run, Throws, Written;
    if calls == [] {
    } else {
      RunsOn(own, cback, calls[..|calls| - 1]);
      AlwaysGood(own, cback, Serve(own, cback, calls).ops);
      NeverThrows(own, cback);
    }
  }

  lemma NeverThrows(src: Source, cback: Callback)
    requires forall xs :: cback(xs) == Accepted
    ensures forall s, op :: !Throws(src, cback, s, op) && !FlushThrows(src, cback, s)
  {
  }

  /** The loop is asked to return only behind a refused datagram, and then it is, by the next sensor
      pass of a broadcasting server. */
  lemma {:induction false} FinishedIfRefused(own: Source, cback: Callback, calls: seq<Call>)
    ensures var l := Serve(own, cback, calls);
            && (l.ending == Finished ==> !Run(own, cback, l.ops).good)
            && (l.ending == Running && l.control.enabled && calls != [] && calls[|calls| - 1].SensorTimer? ==>
                  Run(own, cback, l.ops).good)
  {
    hide SensorPass, HeartbeatPass, Run;
    if calls == [] {
    } else {
      FinishedIfRefused(own, cback, calls[..|calls| - 1]);
    }
  }

  /** A server that hears of a conflict before it broadcasts never writes a message again, and is
      gone after its next heartbeat. */
  lemma {:induction false} ConflictedExits(own: Source, cback: Callback, calls: seq<Call>, more: seq<Call>)
    requires var l := Serve(own, cback, calls); l.ending == Running && l.control.conflict && !l.control.enabled
    ensures var l := Serve(own, cback, calls + more);
            && l.ops == Serve(own, cback, calls).ops
            && l.control.conflict && !l.control.enabled
            && l.ending == if Beats(more) == 0 then Running else Aborted
  {
    hide SensorPass, HeartbeatPass, Run;
    if more == [] {
      assert calls + more == calls;
    } else {
      ConflictedExits(own, cback, calls, more[..|more| - 1]);
      assert (calls + more)[..|calls + more| - 1] == calls + more[..|more| - 1];
    }
  }

  // --------------------------------------------------- a conflict nobody hears of

  /** Only heartbeat ticks, and heartbeats that the parser delivered. */
  predicate TicksAndHears(calls: seq<Call>, events: seq<Event>) {
    forall call <- calls ::
      call.HeartbeatTimer? || (call.ForeignHeartbeat? && Delivered(call.header, Heartbeat) in events)
  }

  lemma {:induction false} UnheardUndisturbed(own: Source, e: Event, events: seq<Event>)
    requires !ConflictAfter(own, false, events) && e in events
    ensures e.Delivered? && e.message == Heartbeat ==> !SameName(own, e.header)
    decreases |events|
  {
    var first := events[0];
    if first.Delivered? && first.message == Heartbeat && SameName(own, first.header) {
      RaisedStays(own, events[1..]);
    } else if e != first {
      UnheardUndisturbed(own, e, events[1..]);
    }
  }

  lemma {:induction false} RaisedStays(own: Source, events: seq<Event>)
    ensures ConflictAfter(own, true, events)
    decreases |events|
  {
    if events == [] {
    } else {
      RaisedStays(own, events[1..]);
    }
  }

  /** The datagrams of a server that only ticks and is not disturbed: one heartbeat each. */
  lemma {:induction false} HeartbeatsSent(own: Source, cback: Callback, calls: seq<Call>)
    requires forall xs :: cback(xs) == Accepted
    requires Undisturbed(own, calls) && forall call <- calls :: !call.SensorTimer?
    requires Beats(calls) <= 0x100_0000
    ensures var l := Serve(own, cback, calls);
            var s := Run(own, cback, l.ops);
            && l.ending == Running && s.pending == [] && s.good && s.flushes == |s.sent| == Beats(calls)
            && forall m :: 0 <= m < |s.sent| ==> s.sent[m] == Packet(own, m, [Heartbeat]).Bytes()
  {
    hide Run, PacketOf, EncodeAll;
    if calls == [] {
      NothingRun(own, cback);
    } else {
      var before, call := calls[..|calls| - 1], calls[|calls| - 1];
      assert call in calls && forall c <- before :: c in calls;
      HeartbeatsSent(own, cback, before);
      if call.HeartbeatTimer? {
        UndisturbedLife(own, cback, before);
        var l := Serve(own, cback, before);
        HeartbeatPassSends(own, cback, Run(own, cback, l.ops));
        RunOnRun(own, cback, l.ops, HeartbeatPass(own, cback, Run(own, cback, l.ops)).ops);
      }
    }
  }

  lemma NothingRun(own: Source, cback: Callback)
    ensures Run(own, cback, []) == INIT
  {
  }

  lemma HeartbeatPassSends(src: Source, cback: Callback, s: State)
    requires forall xs :: cback(xs) == Accepted
    requires s.pending == [] && s.good && s.flushes < 0x100_0000
    ensures var p := HeartbeatPass(src, cback, s);
            var t := RunOn(src, cback, s, p.ops);
            && !p.threw && t.pending == [] && t.good && t.flushes == s.flushes + 1
            && t.sent == s.sent + [Packet(src, s.flushes, [Heartbeat]).Bytes()]
  {
    hide PacketOf, RunOn, Fits;
    CalmStep(src, cback, s, Write(Heartbeat));
    RunOnStep(src, cback, s, [], Write(Heartbeat));
    RunOnStep(src, cback, s, [Write(Heartbeat)], Flush);
    assert [] + [Write(Heartbeat)] == [Write(Heartbeat)] && [Write(Heartbeat)] + [Flush] == [Write(Heartbeat), Flush];
    assert s.pending + [Heartbeat] == [Heartbeat];
  }

  predicate Broadcasts(own: Source, cback: Callback, calls: seq<Call>) {
    Serve(own, cback, calls).ending == Running && Serve(own, cback, calls).control.enabled
  }

  /** The server is up and broadcasts, and has sent one heartbeat a tick. */
  ghost predicate Beating(own: Source, cback: Callback, calls: seq<Call>) {
    var sent := Run(own, cback, Serve(own, cback, calls).ops).sent;
    && Broadcasts(own, cback, calls) && |sent| == Beats(calls)
    && forall m :: 0 <= m < |sent| ==> sent[m] == HeartbeatDatagram(own, m)
  }

  lemma BroadcastsOn(own: Source, cback: Callback, calls: seq<Call>)
    requires (forall xs :: cback(xs) == Accepted) && Broadcasts(own, cback, calls)
    ensures forall more: seq<Call> :: Broadcasts(own, cback, calls + more)
  {
    hide Serve;
    forall more: seq<Call> ensures Broadcasts(own, cback, calls + more) {
      EnabledForGood(own, cback, calls, more);
      RunsOn(own, cback, calls + more);
    }
  }

  function HeartbeatDatagram(src: Source, m: int): seq<byte> {
    PacketOf(src, m % 0x1_0000_0000, [Heartbeat])
  }

  /** One of the two: it hears the packets in turn, from an own one on. */
  lemma NeverDisturbed(own: Source, rival: Source, cback: Callback, i: nat, j: nat, n: nat, nexts: seq<byte>,
                       calls: seq<Call>)
    requires Plain(own) && i + n / 2 + n % 2 <= 0x100_0000 && j + n / 2 <= 0x100_0000 && |nexts| == n
    requires forall xs :: cback(xs) == Accepted
    requires TicksAndHears(calls, DecodeStream(OwnFilter(own), 0, Datagrams(InTurn(own, rival, i, j, n)), nexts).events)
    requires 5 <= Beats(calls) <= 0x100_0000
    ensures Beating(own, cback, calls)
  {
    hide DecodeStream, InTurn, Heard, Regular, Plain, ConflictAfter, PacketOf, Serve, Run;
    var ps := InTurn(own, rival, i, j, n);
    var events := DecodeStream(OwnFilter(own), 0, Datagrams(ps), nexts).events;
    InTurnUnheard(own, rival, i, j, n);
    ConflictExact(own, false, 0, ps, nexts);
    forall call | call in calls && call.ForeignHeartbeat? ensures !SameName(own, call.header) {
      UnheardUndisturbed(own, Delivered(call.header, Heartbeat), events);
    }
    UndisturbedLife(own, cback, calls);
    HeartbeatsSent(own, cback, calls);
  }

  /** The name-conflict protocol fails without loss and without delay: when two servers, whatever they
      are called, tick in turn, and the second starts to listen behind the first heartbeat of the
      first, each finds every heartbeat of the other right behind an own one.  What is on the wire is
      what they sent; both broadcast from their fifth heartbeat on, and whatever happens then, go on. */
  lemma BothBroadcast(a: Source, b: Source, cback: Callback, dback: Callback, k: nat, xs: seq<byte>, ys: seq<byte>,
                      calls: seq<Call>, dalls: seq<Call>)
    requires Plain(a) && Plain(b) && 5 <= k < 0x100_0000 && |xs| == 2 * k && |ys| == 2 * k - 1
    requires (forall hs :: cback(hs) == Accepted) && (forall hs :: dback(hs) == Accepted)
    requires Beats(calls) == Beats(dalls) == k
    requires var wire := Datagrams(InTurn(a, b, 0, 0, 2 * k));
             && TicksAndHears(calls, DecodeStream(OwnFilter(a), 0, wire, xs).events)
             && TicksAndHears(dalls, DecodeStream(OwnFilter(b), 0, wire[1..], ys).events)
    ensures Beating(a, cback, calls) && Beating(b, dback, dalls)
    ensures forall more: seq<Call> :: Broadcasts(a, cback, calls + more) && Broadcasts(b, dback, dalls + more)
    ensures var wire := Datagrams(InTurn(a, b, 0, 0, 2 * k));
            forall m :: 0 <= m < k ==>
              wire[2 * m] == HeartbeatDatagram(a, m) && wire[2 * m + 1] == HeartbeatDatagram(b, m)
  {
    hide *;
    InTurnTail(a, b, k);
    NeverDisturbed(a, b, cback, 0, 0, 2 * k, xs, calls);
    NeverDisturbed(b, a, dback, 0, 1, 2 * k - 1, ys, dalls);
    BeatingBroadcasts(a, cback, calls);
    BeatingBroadcasts(b, dback, dalls);
    BroadcastsOn(a, cback, calls);
    BroadcastsOn(b, dback, dalls);
    forall m | 0 <= m < k
      ensures var wire := Datagrams(InTurn(a, b, 0, 0, 2 * k));
              wire[2 * m] == HeartbeatDatagram(a, m) && wire[2 * m + 1] == HeartbeatDatagram(b, m)
    {
      InTurnWire(a, b, k, m);
    }
  }

  lemma BeatingBroadcasts(own: Source, cback: Callback, calls: seq<Call>)
    requires Beating(own, cback, calls)
    ensures Broadcasts(own, cback, calls)
  {
  }

  lemma InTurnWire(a: Source, b: Source, k: nat, m: nat)
    requires m < k < 0x100_0000
    ensures var wire := Datagrams(InTurn(a, b, 0, 0, 2 * k));
            wire[2 * m] == HeartbeatDatagram(a, m) && wire[2 * m + 1] == HeartbeatDatagram(b, m)
  {
    hide InTurn, PacketOf;
    InTurnAt(a, b, 0, 0, 2 * k, 2 * m);
    InTurnAt(a, b, 0, 0, 2 * k, 2 * m + 1);
  }

  lemma InTurnTail(a: Source, b: Source, k: nat)
    requires 0 < k < 0x100_0000
    ensures Datagrams(InTurn(a, b, 0, 0, 2 * k))[1..] == Datagrams(InTurn(b, a, 0, 1, 2 * k - 1))
  {
  }
}
