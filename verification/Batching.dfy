/** What a run of writes and flushes puts on the wire, said without the marshaller's state. */
module Batching {
  import opened Codec
  import opened Wire
  import opened Marshalling

  /** The written messages split at the flushes, explicit and implicit; the last batch is open. */
  function Batches(ops: seq<Op>): (r: seq<seq<Message>>)
    ensures |r| > 0
  {
    if ops == [] then [[]]
    else
      var bs := Batches(ops[..|ops| - 1]);
      var open := bs[|bs| - 1];
      match ops[|ops| - 1]
      case Flush => bs + [[]]
      case Write(m) => if Fits(open, m) then bs[..|bs| - 1] + [open + [m]] else bs + [[m]]
  }

  function Closed(ops: seq<Op>): seq<seq<Message>> {
    Batches(ops)[..|Batches(ops)| - 1]
  }

  function Open(ops: seq<Op>): seq<Message> {
    Batches(ops)[|Batches(ops)| - 1]
  }

  /** All messages written, in order. */
  function AllWritten(ops: seq<Op>): seq<Message> {
    if ops == [] then []
    else AllWritten(ops[..|ops| - 1]) +
         match ops[|ops| - 1]
         case Write(m) => [m]
         case Flush => []
  }

  function Flatten(batches: seq<seq<Message>>): seq<Message> {
    if batches == [] then [] else Flatten(batches[..|batches| - 1]) + batches[|batches| - 1]
  }

  lemma FlattenAppend(batches: seq<seq<Message>>, b: seq<Message>)
    ensures Flatten(batches + [b]) == Flatten(batches) + b
  {
    assert (batches + [b])[..|batches|] == batches;
  }

  /** The calls of a run that came to their end, without those that threw. */
  function Completed(src: Source, cback: Callback, ops: seq<Op>): seq<Op> {
    if ops == [] then []
    else
      var init, op := ops[..|ops| - 1], ops[|ops| - 1];
      Completed(src, cback, init) + if Throws(src, cback, Run(src, cback, init), op) then [] else [op]
  }

  /** The datagrams for a list of batches: batch `k` is stamped `k` and skipped when its length is a
      multiple of 256. */
  function Packets(src: Source, batches: seq<seq<Message>>): seq<seq<byte>> {
    if batches == [] then []
    else
      var k := |batches| - 1;
      Packets(src, batches[..k]) +
      if |batches[k]| % 0x100 > 0 then [PacketOf(src, k % 0x1_0000_0000, batches[k])] else []
  }

  /** The datagrams on which the callback did not throw. */
  function Unthrown(cback: Callback, handed: seq<seq<byte>>): seq<seq<byte>> {
    if handed == [] then []
    else Unthrown(cback, handed[..|handed| - 1]) + if cback(handed) == Threw then [] else [handed[|handed| - 1]]
  }

  lemma {:induction false} BatchesFit(ops: seq<Op>)
    ensures forall b <- Batches(ops) :: HEADER_OFFS + |EncodeAll(b)| <= MARSHALLER_BUF_SIZE
  {
    hide EncodeAll;
    EncodeNothing();
    if ops == [] {
    } else {
      var op := ops[|ops| - 1];
      BatchesFit(ops[..|ops| - 1]);
      if op.Write? {
        EncodeAllAppend(Open(ops[..|ops| - 1]), op.message);
        EncodeAllAppend([], op.message);
        assert [] + [op.message] == [op.message];
      }
    }
  }

  lemma ClosedStep(ops: seq<Op>, op: Op)
    ensures var full := op == Flush || !Fits(Open(ops), op.message);
            && Closed(ops + [op]) == (if full then Closed(ops) + [Open(ops)] else Closed(ops))
            && Open(ops + [op]) == (if full then [] else Open(ops)) + (if op.Write? then [op.message] else [])
  {
    assert (ops + [op])[..|ops|] == ops;
    assert Batches(ops) == Closed(ops) + [Open(ops)];
  }

  lemma PacketsStep(src: Source, bs: seq<seq<Message>>, b: seq<Message>)
    ensures Packets(src, bs + [b]) ==
            Packets(src, bs) + if |b| % 0x100 > 0 then [PacketOf(src, |bs| % 0x1_0000_0000, b)] else []
  {
    assert (bs + [b])[..|bs|] == bs;
  }

  /** The state machine's run, in closed form, for any callback: the open batch of the completed calls
      is pending, and their closed batches have been sent, up to the first the callback refused. */
  lemma {:induction false} RunIsBatched(src: Source, cback: Callback, ops: seq<Op>)
    ensures var s, done := Run(src, cback, ops), Completed(src, cback, ops);
            && s.pending == Open(done) && s.flushes == |Closed(done)|
            && s.sent <= Packets(src, Closed(done)) && (s.good ==> s.sent == Packets(src, Closed(done)))
  {
    if ops == [] {
    } else {
      hide EncodeAll, Packets, Closed, Open, PacketOf;
      var init, op := ops[..|ops| - 1], ops[|ops| - 1];
      RunIsBatched(src, cback, init);
      var done := Completed(src, cback, init);
      if Throws(src, cback, Run(src, cback, init), op) {
        assert done + [] == done;
      } else {
        ClosedStep(done, op);
        PacketsStep(src, Closed(done), Open(done));
      }
    }
  }

  lemma CannotThrow(src: Source, cback: Callback, s: State, op: Op)
    requires forall xs :: cback(xs) != Threw
    ensures !Throws(src, cback, s, op)
  {
  }

  /** With a callback that never throws every call is completed. */
  lemma {:induction false} NothingThrown(src: Source, cback: Callback, ops: seq<Op>)
    requires forall xs :: cback(xs) != Threw
    ensures Completed(src, cback, ops) == ops
  {
    hide Run, Throws;
    if ops == [] {
    } else {
      var init, op := ops[..|ops| - 1], ops[|ops| - 1];
      NothingThrown(src, cback, init);
      CannotThrow(src, cback, Run(src, cback, init), op);
      assert ops == init + [op];
    }
  }

  /** Batching loses, reorders and repeats nothing. */
  lemma {:induction false} NothingLost(ops: seq<Op>)
    ensures Flatten(Closed(ops)) + Open(ops) == AllWritten(ops)
  {
    if ops == [] {
    } else {
      hide Batches;
      var init, op := ops[..|ops| - 1], ops[|ops| - 1];
      assert ops == init + [op];
      NothingLost(init);
      ClosedStep(init, op);
      FlattenAppend(Closed(init), Open(init));
    }
  }

  /** One call hands over at most one datagram. */
  lemma HandedStep(src: Source, cback: Callback, s: State, op: Op)
    ensures var t := Step(src, cback, s, op);
            if t.handed == s.handed then t.good == s.good && t.sent == s.sent
            else
              && s.good && |t.handed| == |s.handed| + 1 && t.handed[..|s.handed|] == s.handed
              && t.good == (cback(t.handed) != Refused)
              && t.sent == s.sent + if cback(t.handed) == Threw then [] else [t.handed[|s.handed|]]
  {
    hide PacketOf, Fits;
    assert s.sent + [] == s.sent;
    var handed := s.handed + [Batch(src, s)];
    assert handed[..|s.handed|] == s.handed && handed[|s.handed|] == Batch(src, s);
  }

  /** The callback refused no datagram but possibly the last, and the marshaller is good exactly when
      it did not refuse that one; what was sent is what was handed over without an exception. */
  lemma {:induction false} GoodIffNoneRefused(src: Source, cback: Callback, ops: seq<Op>)
    ensures var s := Run(src, cback, ops);
            && (forall j :: 1 <= j < |s.handed| ==> cback(s.handed[..j]) != Refused)
            && (s.good <==> s.handed == [] || cback(s.handed) != Refused)
            && s.sent == Unthrown(cback, s.handed)
  {
    if ops == [] {
    } else {
      hide Step;
      var prior := Run(src, cback, ops[..|ops| - 1]);
      GoodIffNoneRefused(src, cback, ops[..|ops| - 1]);
      HandedStep(src, cback, prior, ops[|ops| - 1]);
      var s := Run(src, cback, ops);
      forall j | 1 <= j < |s.handed| ensures cback(s.handed[..j]) != Refused {
        if j < |prior.handed| {
          assert s.handed[..j] == prior.handed[..j];
        } else if j == |prior.handed| {
          assert s.handed[..j] == prior.handed;
        }
      }
    }
  }

  /** After a refusal nothing is handed over any more, whatever is called. */
  lemma {:induction false} NothingAfterFailure(src: Source, cback: Callback, ops: seq<Op>, more: seq<Op>)
    requires !Run(src, cback, ops).good
    ensures Run(src, cback, ops + more).handed == Run(src, cback, ops).handed
    ensures !Run(src, cback, ops + more).good
  {
    if more == [] {
      assert ops + more == ops;
    } else {
      NothingAfterFailure(src, cback, ops, more[..|more| - 1]);
      assert (ops + more)[..|ops + more| - 1] == ops + more[..|more| - 1];
    }
  }

  /** So many heartbeats, and nothing else. */
  function Heartbeats(n: nat): seq<Op> {
    if n == 0 then [] else Heartbeats(n - 1) + [Write(Heartbeat)]
  }

  lemma {:induction false} HeartbeatsPending(n: nat)
    requires n <= 256
    ensures Closed(Heartbeats(n)) == [] && |Open(Heartbeats(n))| == |EncodeAll(Open(Heartbeats(n)))| == n
  {
    if n == 0 {
      EncodeNothing();
    } else {
      hide EncodeAll, Open, Closed;
      HeartbeatsPending(n - 1);
      ClosedStep(Heartbeats(n - 1), Write(Heartbeat));
      EncodeAllAppend(Open(Heartbeats(n - 1)), Heartbeat);
    }
  }

  lemma RunStep(src: Source, cback: Callback, ops: seq<Op>, op: Op)
    ensures Run(src, cback, ops + [op]) == Step(src, cback, Run(src, cback, ops), op)
  {
    assert (ops + [op])[..|ops|] == ops;
  }

  lemma {:induction false} HeartbeatsWritten(src: Source, cback: Callback, n: nat)
    requires n <= 256
    ensures Run(src, cback, Heartbeats(n)) == State(Open(Heartbeats(n)), 0, true, [], [])
  {
    hide *;
    if n == 0 {
      NoHeartbeats(src, cback);
    } else {
      HeartbeatsWritten(src, cback, n - 1);
      HeartbeatsPending(n - 1);
      OneMoreHeartbeat(src, cback, n);
    }
  }

  lemma NoHeartbeats(src: Source, cback: Callback)
    ensures Run(src, cback, Heartbeats(0)) == State(Open(Heartbeats(0)), 0, true, [], [])
  {
    assert Batches([]) == [[]];
  }

  lemma OneMoreHeartbeat(src: Source, cback: Callback, n: nat)
    requires 0 < n <= 256 && |EncodeAll(Open(Heartbeats(n - 1)))| == n - 1
    requires Run(src, cback, Heartbeats(n - 1)) == State(Open(Heartbeats(n - 1)), 0, true, [], [])
    ensures Run(src, cback, Heartbeats(n)) == State(Open(Heartbeats(n)), 0, true, [], [])
  {
    hide EncodeAll, Open, Closed, Flushed, FlushThrows, Run, Batches;
    ClosedStep(Heartbeats(n - 1), Write(Heartbeat));
    RunStep(src, cback, Heartbeats(n - 1), Write(Heartbeat));
  }

  /** A flush behind 256 heartbeats sends nothing at all: the counter has wrapped to zero. */
  lemma SilentFlush(src: Source, cback: Callback)
    ensures Run(src, cback, Heartbeats(256) + [Flush]) == State([], 1, true, [], [])
  {
    hide Heartbeats, Batches, PacketOf, Throws, FlushThrows;
    HeartbeatsPending(256);
    HeartbeatsWritten(src, cback, 256);
    var ops := Heartbeats(256) + [Flush];
    assert ops[..|ops| - 1] == Heartbeats(256);
  }
}
