/**
 * A sender and a receiver over one wire: packed messages posted to the asynchronous stream, the
 * socket taking them in pieces, the network delivering the bytes in any chunks to the decoder.
 */
module Pipeline {
  import opened Bytes
  import opened SizePolicy
  import opened Framing
  import opened Packer
  import Q = WriteQueue
  import AsyncStream
  import M = MessageDelegate

  datatype Step =
    | Send(payload: seq<byte>)
    | Socket(bytes: nat, error: bool)
    | Handler
    | Shut
    | Deliver(bytes: nat)

  datatype Link = Link(
    writer: Q.Writer, sent: seq<seq<byte>>,
    delivered: nat, buffer: seq<byte>, events: seq<M.Event>)

  const INIT := Link(Q.INIT, [], 0, [], [])

  /** The writer's step a step of the link is, unless it is a delivery. */
  function WriterStep(p: Policy, s: Step): Q.Step
    requires !s.Deliver?
  {
    match s
    case Send(m) => Q.Post(Packed(p, m))
    case Socket(bytes, error) => Q.Transfer(bytes, error)
    case Handler => Q.Handle
    case Shut => Q.Close
  }

  /** The receiver's decoder is given the next bytes of the wire. */
  function Hear(p: Policy, accept: Validator, l: Link, n: nat, chunk: seq<byte>): Link {
    l.(delivered := l.delivered + n,
       buffer := Parse(p, accept, l.buffer + chunk).rest,
       events := l.events + M.OnDataEvents(p, accept, l.buffer + chunk))
  }

  /** What a step does; one that is not enabled does nothing. */
  function Apply(p: Policy, accept: Validator, l: Link, s: Step): Link {
    if s.Deliver? then
      if l.delivered + s.bytes > |l.writer.wire| then l
      else Hear(p, accept, l, s.bytes, l.writer.wire[l.delivered..l.delivered + s.bytes])
    else
      l.(writer := Q.Apply(AsyncStream.KIND, l.writer, WriterStep(p, s)),
         sent := if s.Send? then l.sent + [s.payload] else l.sent)
  }

  function Exec(p: Policy, accept: Validator, l: Link, steps: seq<Step>): Link
    decreases |steps|
  {
    if steps == [] then l else Exec(p, accept, Apply(p, accept, l, steps[0]), steps[1..])
  }

  function Received(l: Link): seq<seq<byte>> {
    M.Payloads(l.events)
  }

  /** The messages of a run are ones the framer frames and the receiver accepts. */
  predicate Sends(p: Policy, accept: Validator, steps: seq<Step>) {
    forall s :: s in steps && s.Send? ==> Sendable(p, s.payload) && accept(|s.payload|)
  }

  /** The receiver's messages and buffer are those of the bytes delivered to it. */
  predicate Heard(p: Policy, accept: Validator, wire: seq<byte>, delivered: nat,
                  events: seq<M.Event>, buffer: seq<byte>)
  {
    delivered <= |wire| && Parse(p, accept, wire[..delivered]) == Parsed(M.Payloads(events), buffer)
  }

  /** What was posted are the frames of acceptable payloads. */
  predicate Framed(p: Policy, accept: Validator, sent: seq<seq<byte>>, posted: seq<seq<byte>>) {
    (forall m :: m in sent ==> Sendable(p, m) && accept(|m|)) && posted == Frames(p, sent)
  }

  lemma HeardStays(p: Policy, accept: Validator, wire: seq<byte>, longer: seq<byte>,
                   delivered: nat, events: seq<M.Event>, buffer: seq<byte>)
    requires Heard(p, accept, wire, delivered, events, buffer) && wire <= longer
    ensures Heard(p, accept, longer, delivered, events, buffer)
  {
    assert longer[..delivered] == wire[..delivered];
  }

  lemma FramedGrows(p: Policy, accept: Validator, sent: seq<seq<byte>>, posted: seq<seq<byte>>, m: seq<byte>)
    requires Framed(p, accept, sent, posted) && Sendable(p, m) && accept(|m|)
    ensures Framed(p, accept, sent + [m], posted + [Packed(p, m)])
  {
    PackedIsFrame(p, m);
    assert Frames(p, sent + [m]) == Frames(p, sent) + [Frame(p, m)];
  }

  lemma HeardMore(p: Policy, accept: Validator, wire: seq<byte>, delivered: nat,
                  events: seq<M.Event>, buffer: seq<byte>, n: nat, chunk: seq<byte>)
    requires Heard(p, accept, wire, delivered, events, buffer) && delivered + n <= |wire|
    requires chunk == wire[delivered..delivered + n]
    ensures Heard(p, accept, wire, delivered + n, events + M.OnDataEvents(p, accept, buffer + chunk),
                  Parse(p, accept, buffer + chunk).rest)
  {
    PrefixStep(wire, delivered, n);
    M.Continue(p, accept, wire[..delivered], events, buffer, chunk);
  }

  lemma DeliveryHears(p: Policy, accept: Validator, l: Link, n: nat, chunk: seq<byte>)
    requires Heard(p, accept, l.writer.wire, l.delivered, l.events, l.buffer) && l.delivered + n <= |l.writer.wire|
    requires chunk == l.writer.wire[l.delivered..l.delivered + n]
    ensures var t := Hear(p, accept, l, n, chunk); Heard(p, accept, t.writer.wire, t.delivered, t.events, t.buffer)
  {
    HeardMore(p, accept, l.writer.wire, l.delivered, l.events, l.buffer, n, chunk);
  }

  lemma DeliverIsHear(p: Policy, accept: Validator, l: Link, n: nat)
    requires l.delivered + n <= |l.writer.wire|
    ensures Apply(p, accept, l, Deliver(n)) == Hear(p, accept, l, n, l.writer.wire[l.delivered..l.delivered + n])
  {
  }

  lemma DeliverHears(p: Policy, accept: Validator, l: Link, n: nat)
    requires Heard(p, accept, l.writer.wire, l.delivered, l.events, l.buffer)
    ensures var t := Apply(p, accept, l, Deliver(n)); Heard(p, accept, t.writer.wire, t.delivered, t.events, t.buffer)
  {
    if l.delivered + n <= |l.writer.wire| {
      DeliverIsHear(p, accept, l, n);
      DeliveryHears(p, accept, l, n, l.writer.wire[l.delivered..l.delivered + n]);
    }
  }

  lemma WriteHears(p: Policy, accept: Validator, l: Link, s: Step)
    requires Heard(p, accept, l.writer.wire, l.delivered, l.events, l.buffer) && !s.Deliver?
    ensures var t := Apply(p, accept, l, s); Heard(p, accept, t.writer.wire, t.delivered, t.events, t.buffer)
  {
    var w := Q.Apply(AsyncStream.KIND, l.writer, WriterStep(p, s));
    Q.ApplyGrows(AsyncStream.KIND, l.writer, WriterStep(p, s));
    HeardStays(p, accept, l.writer.wire, w.wire, l.delivered, l.events, l.buffer);
  }

  lemma StepHears(p: Policy, accept: Validator, l: Link, s: Step)
    requires Heard(p, accept, l.writer.wire, l.delivered, l.events, l.buffer)
    ensures var t := Apply(p, accept, l, s); Heard(p, accept, t.writer.wire, t.delivered, t.events, t.buffer)
  {
    if s.Deliver? {
      DeliverHears(p, accept, l, s.bytes);
    } else {
      WriteHears(p, accept, l, s);
    }
  }

  /** In every run the receiver's messages and buffer are those of the bytes delivered, however they were cut. */
  lemma {:induction false} ExecHears(p: Policy, accept: Validator, l: Link, steps: seq<Step>)
    requires Heard(p, accept, l.writer.wire, l.delivered, l.events, l.buffer)
    ensures var t := Exec(p, accept, l, steps); Heard(p, accept, t.writer.wire, t.delivered, t.events, t.buffer)
    decreases |steps|
  {
    if steps != [] {
      StepHears(p, accept, l, steps[0]);
      ExecHears(p, accept, Apply(p, accept, l, steps[0]), steps[1..]);
    }
  }

  lemma StepFrames(p: Policy, accept: Validator, l: Link, s: Step)
    requires Framed(p, accept, l.sent, l.writer.posted) && (s.Send? ==> Sendable(p, s.payload) && accept(|s.payload|))
    ensures var t := Apply(p, accept, l, s); Framed(p, accept, t.sent, t.writer.posted)
  {
    if !s.Deliver? {
      Q.ApplyGrows(AsyncStream.KIND, l.writer, WriterStep(p, s));
      if s.Send? {
        FramedGrows(p, accept, l.sent, l.writer.posted, s.payload);
      }
    }
  }

  lemma {:induction false} ExecFrames(p: Policy, accept: Validator, l: Link, steps: seq<Step>)
    requires Framed(p, accept, l.sent, l.writer.posted) && Sends(p, accept, steps)
    ensures var t := Exec(p, accept, l, steps); Framed(p, accept, t.sent, t.writer.posted)
    decreases |steps|
  {
    if steps != [] {
      assert steps[0] in steps;
      StepFrames(p, accept, l, steps[0]);
      ExecFrames(p, accept, Apply(p, accept, l, steps[0]), steps[1..]);
    }
  }

  // ----- the sender's part of a run

  function WriterSteps(p: Policy, steps: seq<Step>): seq<Q.Step> {
    if steps == [] then []
    else (if steps[0].Deliver? then [] else [WriterStep(p, steps[0])]) + WriterSteps(p, steps[1..])
  }

  /** Deliveries are nothing to the sender. */
  lemma {:induction false} ExecWriter(p: Policy, accept: Validator, l: Link, steps: seq<Step>)
    ensures Exec(p, accept, l, steps).writer == Q.Exec(AsyncStream.KIND, l.writer, WriterSteps(p, steps))
    decreases |steps|
  {
    if steps != [] {
      ExecWriter(p, accept, Apply(p, accept, l, steps[0]), steps[1..]);
      if !steps[0].Deliver? {
        var first, rest := WriterStep(p, steps[0]), WriterSteps(p, steps[1..]);
        assert ([first] + rest)[1..] == rest;
      } else {
        assert [] + WriterSteps(p, steps[1..]) == WriterSteps(p, steps[1..]);
      }
    }
  }

  predicate NoErrors(steps: seq<Step>) {
    forall s :: s in steps && s.Socket? ==> !s.error
  }

  lemma {:induction false} NoWriterErrors(p: Policy, steps: seq<Step>)
    requires NoErrors(steps)
    ensures forall q :: q in WriterSteps(p, steps) ==> !(q.Transfer? && q.error)
  {
    if steps != [] {
      assert steps[0] in steps;
      NoWriterErrors(p, steps[1..]);
    }
  }

  lemma WriterOfRun(p: Policy, accept: Validator, steps: seq<Step>)
    ensures Q.Inv(AsyncStream.KIND, Exec(p, accept, INIT, steps).writer)
    ensures NoErrors(steps) ==> Q.ErrorFree(Exec(p, accept, INIT, steps).writer)
  {
    ExecWriter(p, accept, INIT, steps);
    Q.ExecKeepsInv(AsyncStream.KIND, Q.INIT, WriterSteps(p, steps));
    if NoErrors(steps) {
      NoWriterErrors(p, steps);
      Q.ExecErrorFree(AsyncStream.KIND, Q.INIT, WriterSteps(p, steps));
    }
  }

  lemma {:induction false} WireGrows(p: Policy, accept: Validator, l: Link, steps: seq<Step>)
    ensures l.writer.wire <= Exec(p, accept, l, steps).writer.wire
    decreases |steps|
  {
    if steps != [] {
      if !steps[0].Deliver? {
        Q.ApplyGrows(AsyncStream.KIND, l.writer, WriterStep(p, steps[0]));
      }
      WireGrows(p, accept, Apply(p, accept, l, steps[0]), steps[1..]);
    }
  }

  // ----- runs without write errors

  lemma WireIsStream(p: Policy, accept: Validator, w: Q.Writer, sent: seq<seq<byte>>)
    requires Q.Inv(AsyncStream.KIND, w) && Q.ErrorFree(w) && Framed(p, accept, sent, w.posted)
    ensures w.wire <= Stream(p, sent)
    ensures w.queue == [] ==> w.wire == Stream(p, sent)
    ensures forall m :: m in sent ==> Carried(p, accept, m)
  {
    Q.WireOfErrorFree(AsyncStream.KIND, w);
    assert Q.Transformed(AsyncStream.KIND, w.posted) == w.posted;
  }

  lemma ChunkNeverFails(p: Policy, accept: Validator, wire: seq<byte>, delivered: nat,
                        events: seq<M.Event>, buffer: seq<byte>, n: nat, chunk: seq<byte>, ms: seq<seq<byte>>)
    requires Heard(p, accept, wire, delivered, events, buffer) && delivered + n <= |wire|
    requires chunk == wire[delivered..delivered + n]
    requires wire <= Stream(p, ms) && forall m :: m in ms ==> Carried(p, accept, m)
    ensures M.Error !in M.OnDataEvents(p, accept, buffer + chunk)
  {
    PrefixStep(wire, delivered, n);
    M.ChunkNeverFails(p, accept, ms, wire[..delivered], chunk);
  }

  lemma StepNeverFails(p: Policy, accept: Validator, l: Link, s: Step, ms: seq<seq<byte>>)
    requires Heard(p, accept, l.writer.wire, l.delivered, l.events, l.buffer) && M.Error !in l.events
    requires l.writer.wire <= Stream(p, ms) && forall m :: m in ms ==> Carried(p, accept, m)
    ensures M.Error !in Apply(p, accept, l, s).events
  {
    if s.Deliver? && l.delivered + s.bytes <= |l.writer.wire| {
      var chunk := l.writer.wire[l.delivered..l.delivered + s.bytes];
      ChunkNeverFails(p, accept, l.writer.wire, l.delivered, l.events, l.buffer, s.bytes, chunk, ms);
    }
  }

  /** A run whose wire carries frames of acceptable messages never makes the decoder fail. */
  lemma {:induction false} ExecNeverFails(p: Policy, accept: Validator, l: Link, steps: seq<Step>, ms: seq<seq<byte>>)
    requires Heard(p, accept, l.writer.wire, l.delivered, l.events, l.buffer) && M.Error !in l.events
    requires Exec(p, accept, l, steps).writer.wire <= Stream(p, ms) && forall m :: m in ms ==> Carried(p, accept, m)
    ensures M.Error !in Exec(p, accept, l, steps).events
    decreases |steps|
  {
    if steps != [] {
      WireGrows(p, accept, l, steps);
      StepHears(p, accept, l, steps[0]);
      StepNeverFails(p, accept, l, steps[0], ms);
      ExecNeverFails(p, accept, Apply(p, accept, l, steps[0]), steps[1..], ms);
    }
  }

  /** The messages that have gone out whole, if no write failed. */
  function Whole(w: Q.Writer): nat {
    |w.done| + if w.queue != [] && w.offset == |w.queue[0]| then 1 else 0
  }

  /** What has gone out of the message being written, if not all of it has. */
  function Part(w: Q.Writer): seq<byte> {
    if w.queue != [] && w.offset < |w.queue[0]| then w.queue[0][..w.offset] else []
  }

  lemma DoneIsStream(p: Policy, w: Q.Writer, sent: seq<seq<byte>>)
    requires Q.Inv(AsyncStream.KIND, w) && Q.ErrorFree(w) && w.posted == Frames(p, sent)
    ensures |w.done| <= |sent| && Q.Sent(w.done) == Stream(p, sent[..|w.done|])
    ensures w.queue != [] ==> |w.done| < |sent| && w.queue[0] == Frame(p, sent[|w.done|])
  {
    var n := |w.done|;
    Q.SentWhole(w.done);
    assert seq(n, i requires 0 <= i < n => w.done[i].message) == Frames(p, sent[..n]);
  }

  lemma WholeAndPart(p: Policy, w: Q.Writer, sent: seq<seq<byte>>)
    requires Q.OnTheWire(w) && |w.done| <= |sent| && Q.Sent(w.done) == Stream(p, sent[..|w.done|])
    requires w.queue != [] ==> |w.done| < |sent| && w.queue[0] == Frame(p, sent[|w.done|])
    ensures Whole(w) <= |sent| && w.wire == Stream(p, sent[..Whole(w)]) + Part(w)
    ensures Part(w) == [] || (Whole(w) < |sent| &&
      Part(w) <= Frame(p, sent[Whole(w)]) && |Part(w)| < |Frame(p, sent[Whole(w)])|)
  {
    var n := |w.done|;
    if Whole(w) > n {
      StreamSnoc(p, sent[..n], sent[n]);
      assert sent[..n + 1] == sent[..n] + [sent[n]];
      assert w.queue[0][..w.offset] == w.queue[0];
    }
  }

  lemma WholeReceived(p: Policy, accept: Validator, whole: seq<seq<byte>>, part: seq<byte>, m: seq<byte>)
    requires forall x :: x in whole ==> Carried(p, accept, x)
    requires part == [] || (Carried(p, accept, m) && part <= Frame(p, m) && |part| < |Frame(p, m)|)
    ensures Parse(p, accept, Stream(p, whole) + part) == Parsed(whole, part)
  {
    ParseStream(p, accept, whole);
    ParseAppend(p, accept, Stream(p, whole), part);
    if part != [] {
      CutFrame(p, accept, m, part);
    }
    assert [] + part == part && whole + [] == whole;
  }

  lemma WireReceived(p: Policy, accept: Validator, w: Q.Writer, sent: seq<seq<byte>>)
    requires Q.Inv(AsyncStream.KIND, w) && Q.ErrorFree(w) && Framed(p, accept, sent, w.posted)
    ensures Whole(w) <= |sent| && Parse(p, accept, w.wire) == Parsed(sent[..Whole(w)], Part(w))
    ensures w.queue == [] ==> sent[..Whole(w)] == sent && Part(w) == []
  {
    WireIsStream(p, accept, w, sent);
    DoneIsStream(p, w, sent);
    WholeAndPart(p, w, sent);
    WholeReceived(p, accept, sent[..Whole(w)], Part(w), if Whole(w) < |sent| then sent[Whole(w)] else []);
  }

  /**
   * End to end: in every run without write errors, however posts, partial writes, handlers,
   * closing and deliveries interleave, the messages received are a prefix of the messages sent,
   * the decoder never fails, once the wire is drained exactly those have arrived that went out
   * whole, and once the queue is empty too all have.
   */
  lemma EndToEnd(p: Policy, accept: Validator, steps: seq<Step>)
    requires Sends(p, accept, steps) && NoErrors(steps)
    ensures var l := Exec(p, accept, INIT, steps); var n := Whole(l.writer);
      && Received(l) <= l.sent && M.Error !in l.events && n <= |l.sent|
      && (l.delivered == |l.writer.wire| ==> Received(l) == l.sent[..n] && l.buffer == Part(l.writer))
      && (l.delivered == |l.writer.wire| && l.writer.queue == [] ==> Received(l) == l.sent && l.buffer == [])
  {
    FromTheStart(p, accept, steps);
    WriterOfRun(p, accept, steps);
    var l := Exec(p, accept, INIT, steps);
    WireIsStream(p, accept, l.writer, l.sent);
    ExecNeverFails(p, accept, INIT, steps, l.sent);
    ParsePrefixOfStream(p, accept, l.sent, l.writer.wire[..l.delivered]);
    assert l.sent[..|Received(l)|] <= l.sent;
    WireReceived(p, accept, l.writer, l.sent);
    if l.delivered == |l.writer.wire| {
      assert l.writer.wire[..l.delivered] == l.writer.wire;
    }
  }

  lemma FromTheStart(p: Policy, accept: Validator, steps: seq<Step>)
    requires Sends(p, accept, steps)
    ensures Heard(p, accept, INIT.writer.wire, INIT.delivered, INIT.events, INIT.buffer)
    ensures var l := Exec(p, accept, INIT, steps);
      Heard(p, accept, l.writer.wire, l.delivered, l.events, l.buffer) && Framed(p, accept, l.sent, l.writer.posted)
  {
    assert Parse(p, accept, []) == Parsed([], []);
    assert Frames(p, []) == [];
    ExecHears(p, accept, INIT, steps);
    ExecFrames(p, accept, INIT, steps);
  }

  // ----- every run can be completed as long as the queue can be emptied

  lemma {:induction false} ExecAppend(p: Policy, accept: Validator, l: Link, a: seq<Step>, b: seq<Step>)
    ensures Exec(p, accept, l, a + b) == Exec(p, accept, Exec(p, accept, l, a), b)
    decreases |a|
  {
    if a == [] {
      assert a + b == b;
    } else {
      assert (a + b)[0] == a[0] && (a + b)[1..] == a[1..] + b;
      ExecAppend(p, accept, Apply(p, accept, l, a[0]), a[1..], b);
    }
  }

  /** The socket and the handlers going on by themselves. */
  function Onward(steps: seq<Q.Step>): (r: seq<Step>)
    requires forall q :: q in steps ==> Q.Progress(q)
    ensures |r| == |steps|
  {
    seq(|steps|, i requires 0 <= i < |steps| =>
      assert steps[i] in steps; if steps[i].Transfer? then Socket(steps[i].bytes, false) else Handler)
  }

  lemma {:induction false} WriterOnward(p: Policy, steps: seq<Q.Step>)
    requires forall q :: q in steps ==> Q.Progress(q)
    ensures WriterSteps(p, Onward(steps)) == steps
  {
    if steps != [] {
      assert steps[0] in steps && Onward(steps)[1..] == Onward(steps[1..]);
      WriterOnward(p, steps[1..]);
      assert [steps[0]] + steps[1..] == steps;
    }
  }

  /** Nothing is sent, shut or failed. */
  predicate Quiet(steps: seq<Step>) {
    forall s :: s in steps ==> s == Handler || s.Deliver? || (s.Socket? && !s.error)
  }

  lemma {:induction false} QuietSends(p: Policy, accept: Validator, l: Link, steps: seq<Step>)
    requires Quiet(steps)
    ensures Exec(p, accept, l, steps).sent == l.sent
    decreases |steps|
  {
    if steps != [] {
      assert steps[0] in steps;
      QuietSends(p, accept, Apply(p, accept, l, steps[0]), steps[1..]);
    }
  }

  lemma DeliverRest(p: Policy, accept: Validator, l: Link)
    requires l.delivered <= |l.writer.wire|
    ensures var t := Exec(p, accept, l, [Deliver(|l.writer.wire| - l.delivered)]);
      t.writer == l.writer && t.sent == l.sent && t.delivered == |l.writer.wire|
  {
    assert [Deliver(|l.writer.wire| - l.delivered)][1..] == [];
  }

  /** If the queue can be emptied, quiet steps do so and deliver all of the wire. */
  lemma Completed(p: Policy, accept: Validator, l: Link) returns (more: seq<Step>)
    requires Q.Inv(AsyncStream.KIND, l.writer) && Q.CanEmpty(AsyncStream.KIND, l.writer)
    requires Heard(p, accept, l.writer.wire, l.delivered, l.events, l.buffer)
    ensures Quiet(more)
    ensures var t := Exec(p, accept, l, more);
      t.writer.queue == [] && t.delivered == |t.writer.wire| && t.sent == l.sent
  {
    var steps := Q.Emptied(AsyncStream.KIND, l.writer);
    var onward := Onward(steps);
    WriterOnward(p, steps);
    ExecWriter(p, accept, l, onward);
    QuietSends(p, accept, l, onward);
    ExecHears(p, accept, l, onward);
    var t := Exec(p, accept, l, onward);
    DeliverRest(p, accept, t);
    more := onward + [Deliver(|t.writer.wire| - t.delivered)];
    ExecAppend(p, accept, l, onward, [Deliver(|t.writer.wire| - t.delivered)]);
  }

  /** Nothing waits to be written or to be delivered. */
  predicate AllDelivered(l: Link) {
    l.writer.queue == [] && l.delivered == |l.writer.wire|
  }

  /** Everything sent has been received. */
  predicate Arrived(l: Link) {
    AllDelivered(l) && Received(l) == l.sent && l.buffer == []
  }

  lemma NeverDelivered(p: Policy, accept: Validator, l: Link, more: seq<Step>)
    requires Q.Inv(AsyncStream.KIND, l.writer) && !Q.CanEmpty(AsyncStream.KIND, l.writer)
    ensures !AllDelivered(Exec(p, accept, l, more))
  {
    ExecWriter(p, accept, l, more);
    Q.StuckForGood(AsyncStream.KIND, l.writer, WriterSteps(p, more));
  }

  /**
   * No open transport gets stuck: from every reachable state, write errors included, the socket,
   * the handlers and the network going on by themselves empty the queue and the wire if and only
   * if the transport is open or all that is left is a message that needs no further write.
   */
  lemma CanDrain(p: Policy, accept: Validator, steps: seq<Step>)
    ensures Q.CanEmpty(AsyncStream.KIND, Exec(p, accept, INIT, steps).writer) <==>
      exists more :: Quiet(more) && AllDelivered(Exec(p, accept, INIT, steps + more))
  {
    var l := Exec(p, accept, INIT, steps);
    assert Parse(p, accept, []) == Parsed([], []);
    ExecHears(p, accept, INIT, steps);
    WriterOfRun(p, accept, steps);
    if Q.CanEmpty(AsyncStream.KIND, l.writer) {
      var more := Completed(p, accept, l);
      ExecAppend(p, accept, INIT, steps, more);
      assert Quiet(more) && AllDelivered(Exec(p, accept, INIT, steps + more));
    } else {
      forall more: seq<Step> ensures !AllDelivered(Exec(p, accept, INIT, steps + more)) {
        ExecAppend(p, accept, INIT, steps, more);
        NeverDelivered(p, accept, l, more);
      }
    }
  }

  lemma QuietArrives(p: Policy, accept: Validator, steps: seq<Step>, more: seq<Step>)
    requires Sends(p, accept, steps) && NoErrors(steps) && Quiet(more)
    ensures var t := Exec(p, accept, INIT, steps + more);
      t.sent == Exec(p, accept, INIT, steps).sent && (Arrived(t) <==> AllDelivered(t))
  {
    ExecAppend(p, accept, INIT, steps, more);
    QuietSends(p, accept, Exec(p, accept, INIT, steps), more);
    EndToEnd(p, accept, steps + more);
  }

  /** So in a run without write errors all that was sent can still arrive, exactly then. */
  lemma CanArrive(p: Policy, accept: Validator, steps: seq<Step>)
    requires Sends(p, accept, steps) && NoErrors(steps)
    ensures var l := Exec(p, accept, INIT, steps);
      Q.CanEmpty(AsyncStream.KIND, l.writer) <==>
        exists more :: Quiet(more) && Arrived(Exec(p, accept, INIT, steps + more))
          && Exec(p, accept, INIT, steps + more).sent == l.sent
  {
    CanDrain(p, accept, steps);
    forall more | Quiet(more)
      ensures var t := Exec(p, accept, INIT, steps + more);
        t.sent == Exec(p, accept, INIT, steps).sent && (Arrived(t) <==> AllDelivered(t))
    {
      QuietArrives(p, accept, steps, more);
    }
  }
}
