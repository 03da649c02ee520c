/**
 * Runs of the pipeline with write errors. After an error the queue goes on with the next message,
 * so what the receiver gets depends on what of the failed message is already on the wire.
 */
module TornFrames {
  import opened Bytes
  import opened SizePolicy
  import opened Framing
  import opened Packer
  import opened Pipeline
  import V = Varint
  import Q = WriteQueue
  import AsyncStream
  import M = MessageDelegate

  /** A part of the message is on the wire, and no more of it will follow. */
  predicate Torn(o: Q.Outcome) {
    0 < o.sent < |o.message|
  }

  predicate NothingTorn(done: seq<Q.Outcome>) {
    forall i :: 0 <= i < |done| ==> !Torn(done[i])
  }

  /** No byte of a finished message follows a torn one. */
  predicate TearLast(done: seq<Q.Outcome>) {
    forall i, j :: 0 <= i < j < |done| && Torn(done[i]) ==> done[j].sent == 0
  }

  /** No byte at all follows a torn message on the wire. */
  predicate QuietAfterTear(w: Q.Writer) {
    TearLast(w.done) && (w.offset > 0 ==> NothingTorn(w.done))
  }

  /** What each message has put on the wire, the one being written told as if it ended here. */
  function Written(w: Q.Writer): seq<Q.Outcome> {
    if w.queue == [] then w.done else w.done + [Q.Outcome(w.queue[0], w.offset, true, 0, w.pieces)]
  }

  /** The payloads whose frames went out whole. */
  function Survivors(done: seq<Q.Outcome>, sent: seq<seq<byte>>): seq<seq<byte>>
    requires |done| <= |sent|
  {
    if done == [] then []
    else
      var n := |done| - 1;
      Survivors(done[..n], sent) + (if done[n].sent == |done[n].message| then [sent[n]] else [])
  }

  /** What the wire ends with of a torn message, if the last bytes on it are those of one. */
  function Tail(done: seq<Q.Outcome>): seq<byte> {
    if done == [] then []
    else
      var o := done[|done| - 1];
      if o.sent == 0 then Tail(done[..|done| - 1]) else if Torn(o) then o.message[..o.sent] else []
  }

  /** The bytes of torn messages on the wire. */
  function TornBytes(done: seq<Q.Outcome>): nat {
    if done == [] then 0
    else
      var o := done[|done| - 1];
      TornBytes(done[..|done| - 1]) + if Torn(o) then o.sent else 0
  }

  /** The finished messages are the frames of the first payloads. */
  predicate Ended(p: Policy, done: seq<Q.Outcome>, sent: seq<seq<byte>>) {
    && |done| <= |sent|
    && (forall i :: 0 <= i < |done| ==> done[i].message == Frame(p, sent[i]))
    && (forall o :: o in done ==> o.sent <= |o.message|)
  }

  predicate WithinMessages(done: seq<Q.Outcome>) {
    forall i :: 0 <= i < |done| ==> done[i].sent <= |done[i].message|
  }

  lemma Split(done: seq<Q.Outcome>) returns (before: seq<Q.Outcome>, o: Q.Outcome)
    requires done != []
    ensures done == before + [o] && |before| < |done|
    ensures WithinMessages(done) ==> WithinMessages(before) && o.sent <= |o.message|
  {
    before, o := done[..|done| - 1], done[|done| - 1];
  }

  /** The last of them, and those before it. */
  lemma LastEnded(p: Policy, done: seq<Q.Outcome>, sent: seq<seq<byte>>, before: seq<Q.Outcome>, o: Q.Outcome)
    requires Ended(p, done, sent) && done == before + [o]
    ensures Ended(p, before, sent) && o.message == Frame(p, sent[|before|]) && o.sent <= |o.message|
    ensures done[..|before|] == before && done[|before|] == o
    ensures Q.Sent(done) == Q.Sent(before) + o.message[..o.sent]
  {
    assert done[..|before|] == before && done[|before|] == o;
    assert o in done && forall b :: b in before ==> b in done;
  }

  lemma AllWithin(p: Policy, done: seq<Q.Outcome>, sent: seq<seq<byte>>)
    requires Ended(p, done, sent)
    ensures WithinMessages(done)
  {
  }

  lemma LastSurvives(done: seq<Q.Outcome>, sent: seq<seq<byte>>, before: seq<Q.Outcome>, o: Q.Outcome)
    requires done == before + [o] && |done| <= |sent|
    ensures Survivors(done, sent) == Survivors(before, sent) + if o.sent == |o.message| then [sent[|before|]] else []
  {
    assert done[..|before|] == before && done[|before|] == o;
  }

  lemma FrameNotEmpty(p: Policy, m: seq<byte>)
    ensures |Frame(p, m)| > 0
  {
    match p
    case Varint(_) => assert |Pack(p, |m|)| > 0;
    case Fixint(width) => assert |Pack(p, |m|)| == width;
  }

  lemma LastTear(done: seq<Q.Outcome>, before: seq<Q.Outcome>, o: Q.Outcome)
    requires done == before + [o]
    ensures NothingTorn(done) <==> NothingTorn(before) && !Torn(o)
    ensures TearLast(done) <==> TearLast(before) && (o.sent > 0 ==> NothingTorn(before))
    ensures TornBytes(done) == TornBytes(before) + if Torn(o) then o.sent else 0
    ensures Tail(done) == if o.sent == 0 then Tail(before) else if Torn(o) then o.message[..o.sent] else []
  {
    assert done[..|before|] == before && done[|before|] == o;
    assert forall i :: 0 <= i < |before| ==> done[i] == before[i];
  }

  /**
   * The torn bytes are all in the tail exactly if nothing follows a tear, and there are none
   * exactly if nothing is torn.
   */
  lemma {:induction false} TornBytesAreTail(done: seq<Q.Outcome>)
    requires WithinMessages(done)
    ensures TornBytes(done) == 0 <==> NothingTorn(done)
    ensures |Tail(done)| <= TornBytes(done)
    ensures |Tail(done)| == TornBytes(done) <==> TearLast(done)
    decreases |done|
  {
    if done != [] {
      var before, o := Split(done);
      LastTear(done, before, o);
      TornBytesAreTail(before);
      TailStep(o, NothingTorn(before), TearLast(before), TornBytes(before), Tail(before),
               NothingTorn(done), TearLast(done), TornBytes(done), Tail(done));
    }
  }

  lemma TailStep(o: Q.Outcome, whole: bool, quiet: bool, torn: nat, tail: seq<byte>,
                 whole': bool, quiet': bool, torn': nat, tail': seq<byte>)
    requires (torn == 0 <==> whole) && |tail| <= torn && (|tail| == torn <==> quiet) && o.sent <= |o.message|
    requires (whole' <==> whole && !Torn(o)) && (quiet' <==> quiet && (o.sent > 0 ==> whole))
    requires torn' == torn + if Torn(o) then o.sent else 0
    requires tail' == if o.sent == 0 then tail else if Torn(o) then o.message[..o.sent] else []
    ensures (torn' == 0 <==> whole') && |tail'| <= torn' && (|tail'| == torn' <==> quiet')
  {
  }

  lemma {:induction false} WireLength(p: Policy, done: seq<Q.Outcome>, sent: seq<seq<byte>>)
    requires Ended(p, done, sent)
    ensures |Q.Sent(done)| == |Stream(p, Survivors(done, sent))| + TornBytes(done)
    decreases |done|
  {
    if done != [] {
      var before, o := Split(done);
      LastEnded(p, done, sent, before, o);
      LastTear(done, before, o);
      LastSurvives(done, sent, before, o);
      WireLength(p, before, sent);
      OneMoreEnded(p, Survivors(before, sent), o, sent[|before|]);
      OneMoreLength(Q.Sent(before), Stream(p, Survivors(before, sent)), TornBytes(before), o,
                    Q.Sent(done), Stream(p, Survivors(done, sent)), TornBytes(done));
    }
  }

  lemma OneMoreLength(wire: seq<byte>, stream: seq<byte>, torn: nat, o: Q.Outcome,
                      wire': seq<byte>, stream': seq<byte>, torn': nat)
    requires |wire| == |stream| + torn && o.sent <= |o.message| && (o.sent == 0 ==> o.sent < |o.message|)
    requires wire' == wire + o.message[..o.sent] && torn' == torn + if Torn(o) then o.sent else 0
    requires stream' == if o.sent == |o.message| then stream + o.message[..o.sent] else stream
    ensures |wire'| == |stream'| + torn'
  {
  }

  /** The stream of the survivors after one more message has ended. */
  lemma OneMoreEnded(p: Policy, before: seq<seq<byte>>, o: Q.Outcome, m: seq<byte>)
    requires o.message == Frame(p, m) && o.sent <= |o.message|
    ensures Stream(p, before + if o.sent == |o.message| then [m] else [])
      == if o.sent == |o.message| then Stream(p, before) + o.message[..o.sent] else Stream(p, before)
    ensures o.sent == 0 ==> o.sent < |o.message|
  {
    FrameNotEmpty(p, m);
    if o.sent == |o.message| {
      StreamSnoc(p, before, m);
      assert o.message[..o.sent] == o.message;
    } else {
      assert before + [] == before;
    }
  }

  lemma {:induction false} QuietWire(p: Policy, done: seq<Q.Outcome>, sent: seq<seq<byte>>)
    requires Ended(p, done, sent) && TearLast(done)
    ensures Q.Sent(done) == Stream(p, Survivors(done, sent)) + Tail(done)
    decreases |done|
  {
    if done != [] {
      var before, o := Split(done);
      LastEnded(p, done, sent, before, o);
      LastTear(done, before, o);
      LastSurvives(done, sent, before, o);
      QuietWire(p, before, sent);
      AllWithin(p, before, sent);
      TornBytesAreTail(before);
      OneMoreEnded(p, Survivors(before, sent), o, sent[|before|]);
      WireGoesOn(Stream(p, Survivors(before, sent)), Tail(before), o);
    }
  }

  lemma WireGoesOn(stream: seq<byte>, tail: seq<byte>, o: Q.Outcome)
    requires o.sent <= |o.message| && (o.sent > 0 ==> tail == [])
    ensures stream + tail + o.message[..o.sent] ==
      if o.sent == 0 then stream + tail
      else if Torn(o) then stream + o.message[..o.sent] else stream + o.message[..o.sent] + []
  {
  }

  /**
   * The wire is the stream of the messages that went out whole, then perhaps the beginning of
   * one more, if and only if no byte follows a torn message.
   */
  lemma WireIffTearLast(p: Policy, done: seq<Q.Outcome>, sent: seq<seq<byte>>)
    requires Ended(p, done, sent)
    ensures Q.Sent(done) == Stream(p, Survivors(done, sent)) + Tail(done) <==> TearLast(done)
    ensures Q.Sent(done) == Stream(p, Survivors(done, sent)) <==> NothingTorn(done)
  {
    WireLength(p, done, sent);
    AllWithin(p, done, sent);
    TornBytesAreTail(done);
    if TearLast(done) {
      QuietWire(p, done, sent);
    }
    if NothingTorn(done) {
      assert Tail(done) == [];
      assert Stream(p, Survivors(done, sent)) + [] == Stream(p, Survivors(done, sent));
    }
  }

  // ----- what the receiver makes of it

  lemma {:induction false} SurvivorsWereSent(done: seq<Q.Outcome>, sent: seq<seq<byte>>)
    requires |done| <= |sent|
    ensures forall m :: m in Survivors(done, sent) ==> m in sent
    decreases |done|
  {
    if done != [] {
      var before, o := Split(done);
      LastSurvives(done, sent, before, o);
      SurvivorsWereSent(before, sent);
    }
  }

  /** A torn frame is less than a frame: the receiver keeps it and waits. */
  lemma {:induction false} TailIsNoFrame(p: Policy, accept: Validator, done: seq<Q.Outcome>, sent: seq<seq<byte>>)
    requires Ended(p, done, sent) && forall m :: m in sent ==> Carried(p, accept, m)
    ensures Parse(p, accept, Tail(done)) == Parsed([], Tail(done))
    decreases |done|
  {
    if done != [] {
      var before, o := Split(done);
      LastEnded(p, done, sent, before, o);
      LastTear(done, before, o);
      TailIsNoFrame(p, accept, before, sent);
      if Torn(o) {
        CutIsNoFrame(p, accept, sent[|before|], o.message[..o.sent]);
      } else {
        CutIsNoFrame(p, accept, sent[|before|], []);
      }
    }
  }

  lemma CutIsNoFrame(p: Policy, accept: Validator, m: seq<byte>, t: seq<byte>)
    requires t == [] || (Carried(p, accept, m) && t <= Frame(p, m) && |t| < |Frame(p, m)|)
    ensures Parse(p, accept, t) == Parsed([], t)
  {
    if t != [] {
      CutFrame(p, accept, m, t);
    }
  }

  lemma QuietParse(p: Policy, accept: Validator, done: seq<Q.Outcome>, sent: seq<seq<byte>>)
    requires Ended(p, done, sent) && TearLast(done) && forall m :: m in sent ==> Carried(p, accept, m)
    ensures Parse(p, accept, Q.Sent(done)) == Parsed(Survivors(done, sent), Tail(done))
  {
    var whole := Survivors(done, sent);
    QuietWire(p, done, sent);
    SurvivorsWereSent(done, sent);
    ParseStream(p, accept, whole);
    ParseAppend(p, accept, Stream(p, whole), Tail(done));
    TailIsNoFrame(p, accept, done, sent);
    assert [] + Tail(done) == Tail(done) && whole + [] == whole;
  }

  lemma PrefixParses(p: Policy, accept: Validator, t: seq<byte>, s: seq<byte>)
    requires t <= s
    ensures Parse(p, accept, t).messages <= Parse(p, accept, s).messages
  {
    ParseAppend(p, accept, t, s[|t|..]);
    assert s == t + s[|t|..];
  }

  lemma HeadWritten(w: Q.Writer)
    requires Q.OnTheWire(w)
    ensures forall o :: o in Written(w) ==> o.sent <= |o.message|
    ensures w.wire == Q.Sent(Written(w))
    ensures QuietAfterTear(w) <==> TearLast(Written(w))
  {
    if w.queue == [] {
      assert w.offset == 0 && w.wire == Q.Sent(w.done);
    } else {
      var o := Q.Outcome(w.queue[0], w.offset, true, 0, w.pieces);
      Q.SentSnoc(w.done, o);
      LastTear(Written(w), w.done, o);
    }
  }

  /** What the sender's invariant says of the messages behind the frames. */
  lemma FramesEnded(p: Policy, accept: Validator, w: Q.Writer, sent: seq<seq<byte>>)
    requires Q.Inv(AsyncStream.KIND, w) && Framed(p, accept, sent, w.posted)
    ensures |sent| == |w.done| + |w.queue| && Ended(p, w.done, sent)
    ensures w.queue != [] ==> w.queue[0] == Frame(p, sent[|w.done|])
    ensures Q.OnTheWire(w) && forall m :: m in sent ==> Carried(p, accept, m)
  {
  }

  lemma WrittenEnded(p: Policy, w: Q.Writer, sent: seq<seq<byte>>)
    requires |sent| == |w.done| + |w.queue| && Ended(p, w.done, sent)
    requires w.queue != [] ==> w.queue[0] == Frame(p, sent[|w.done|])
    requires forall o :: o in Written(w) ==> o.sent <= |o.message|
    ensures Ended(p, Written(w), sent)
  {
    if w.queue != [] {
      var o := Written(w)[|w.done|];
      assert o in Written(w);
      OneMoreIsEnded(p, w.done, o, sent);
    }
  }

  lemma OneMoreIsEnded(p: Policy, done: seq<Q.Outcome>, o: Q.Outcome, sent: seq<seq<byte>>)
    requires Ended(p, done, sent) && |done| < |sent|
    requires o.message == Frame(p, sent[|done|]) && o.sent <= |o.message|
    ensures Ended(p, done + [o], sent)
  {
  }

  lemma LinkWritten(p: Policy, accept: Validator, steps: seq<Step>, l: Link)
    requires Sends(p, accept, steps) && l == Exec(p, accept, INIT, steps)
    ensures |l.sent| == |l.writer.done| + |l.writer.queue| && Ended(p, Written(l.writer), l.sent)
    ensures l.writer.wire == Q.Sent(Written(l.writer)) && (QuietAfterTear(l.writer) <==> TearLast(Written(l.writer)))
    ensures forall m :: m in l.sent ==> Carried(p, accept, m)
    ensures Heard(p, accept, l.writer.wire, l.delivered, l.events, l.buffer)
  {
    FromTheStart(p, accept, steps);
    WriterOfRun(p, accept, steps);
    FramesEnded(p, accept, l.writer, l.sent);
    HeadWritten(l.writer);
    WrittenEnded(p, l.writer, l.sent);
  }

  lemma HeardWhole(p: Policy, accept: Validator, wire: seq<byte>, delivered: nat,
                   events: seq<M.Event>, buffer: seq<byte>)
    requires Heard(p, accept, wire, delivered, events, buffer) && delivered == |wire|
    ensures Parse(p, accept, wire) == Parsed(M.Payloads(events), buffer)
  {
    assert wire[..delivered] == wire;
  }

  /**
   * As long as no byte follows a torn message, errors and closing only lose whole messages: what
   * is received is a prefix of the messages that went out whole, in order, and once all of the
   * wire is delivered exactly they are, the receiver waiting for the rest of the torn one if there
   * is one. The messages that wait when the transport is closed, and what was not written of the
   * one in flight, are lost like the rest.
   */
  lemma ErrorsLoseWholeMessages(p: Policy, accept: Validator, steps: seq<Step>)
    requires Sends(p, accept, steps) && QuietAfterTear(Exec(p, accept, INIT, steps).writer)
    ensures var l := Exec(p, accept, INIT, steps); var done := Written(l.writer);
      && |done| <= |l.sent| && Received(l) <= Survivors(done, l.sent)
      && (l.delivered == |l.writer.wire| ==> Received(l) == Survivors(done, l.sent) && l.buffer == Tail(done))
  {
    var l := Exec(p, accept, INIT, steps);
    LinkWritten(p, accept, steps, l);
    QuietParse(p, accept, Written(l.writer), l.sent);
    PrefixParses(p, accept, l.writer.wire[..l.delivered], l.writer.wire);
    if l.delivered == |l.writer.wire| {
      HeardWhole(p, accept, l.writer.wire, l.delivered, l.events, l.buffer);
    }
  }

  /**
   * Exactly when, for both size policies and in every reachable state: the wire is the stream of
   * the messages that went out whole and the torn bytes of the last one if and only if no byte
   * follows a torn message, and that stream alone if and only if no message is torn.
   */
  lemma WireOfRun(p: Policy, accept: Validator, steps: seq<Step>)
    requires Sends(p, accept, steps)
    ensures var l := Exec(p, accept, INIT, steps); var w, done := l.writer, Written(l.writer);
      && |done| <= |l.sent|
      && (w.wire == Stream(p, Survivors(done, l.sent)) + Tail(done) <==> QuietAfterTear(w))
      && (w.wire == Stream(p, Survivors(done, l.sent)) <==> NothingTorn(done))
  {
    var l := Exec(p, accept, INIT, steps);
    LinkWritten(p, accept, steps, l);
    WireIffTearLast(p, Written(l.writer), l.sent);
  }

  /** With sizes of one length the parse accounts for every byte. */
  lemma {:induction false} FixintParseLength(p: Policy, accept: Validator, s: seq<byte>)
    requires p.Fixint?
    ensures var r := Parse(p, accept, s); |s| == |Stream(p, r.messages)| + |r.rest|
    decreases |s|
  {
    if HasFrame(p, accept, s) {
      var later := s[FrameEnd(p, s)..];
      FixintParseLength(p, accept, later);
      StreamCons(p, [Payload(p, s)] + Parse(p, accept, later).messages);
      assert ([Payload(p, s)] + Parse(p, accept, later).messages)[1..] == Parse(p, accept, later).messages;
    } else {
      assert Stream(p, []) == [];
    }
  }

  lemma FixintIff(p: Policy, accept: Validator, done: seq<Q.Outcome>, sent: seq<seq<byte>>)
    requires p.Fixint? && Ended(p, done, sent) && forall m :: m in sent ==> Carried(p, accept, m)
    ensures Parse(p, accept, Q.Sent(done)) == Parsed(Survivors(done, sent), Tail(done)) <==> TearLast(done)
  {
    FixintParseLength(p, accept, Q.Sent(done));
    WireLength(p, done, sent);
    AllWithin(p, done, sent);
    TornBytesAreTail(done);
    if TearLast(done) {
      QuietParse(p, accept, done, sent);
    }
  }

  /**
   * With fixed-width sizes that is exactly when: in every reachable state whose wire is delivered
   * the receiver has the messages that went out whole, and the torn bytes of the last one, if and
   * only if no byte follows a torn message.
   */
  lemma DrainedIffQuiet(p: Policy, accept: Validator, steps: seq<Step>)
    requires p.Fixint? && Sends(p, accept, steps)
    ensures var l := Exec(p, accept, INIT, steps); var w, done := l.writer, Written(l.writer);
      && |done| <= |l.sent|
      && (l.delivered == |w.wire| ==>
            (Received(l) == Survivors(done, l.sent) && l.buffer == Tail(done) <==> QuietAfterTear(w)))
  {
    var l := Exec(p, accept, INIT, steps);
    LinkWritten(p, accept, steps, l);
    if l.delivered == |l.writer.wire| {
      HeardWhole(p, accept, l.writer.wire, l.delivered, l.events, l.buffer);
      FixintIff(p, accept, Written(l.writer), l.sent);
    }
  }

  // ----- runs in which a frame is torn

  /**
   * The message `a + lost`, torn after `a`, takes the bytes missing from it out of whatever
   * follows on the wire, here `b`: the receiver is handed `a + b` instead.
   */
  lemma TornFrameSwallowsNext(p: Policy, accept: Validator, size: seq<byte>,
                              a: seq<byte>, lost: seq<byte>, b: seq<byte>, c: seq<byte>)
    requires Carried(p, accept, a + lost) && |b| == |lost| && size == Pack(p, |a + lost|)
    ensures size + a <= Frame(p, a + lost)
    ensures var later := Parse(p, accept, c);
      Parse(p, accept, size + a + (b + c)) == Parsed([a + b] + later.messages, later.rest)
  {
    PackAnnounces(p, accept, a + lost);
    assert Frame(p, a + lost) == size + a + lost;
    assert size + a + (b + c) == size + (a + b) + c;
    FirstFrame(p, accept, size, a + b, c);
  }

  /**
   * Two messages are posted; the socket takes the first `cut` bytes of the first frame, then fails,
   * then takes the whole second frame, and everything is delivered.
   */
  function TearSteps(t: seq<byte>, s: seq<byte>, cut: nat, next: nat): seq<Step> {
    [Send(t), Send(s)] + ([Socket(cut, false), Handler] + ([Socket(0, true), Handler]
      + ([Socket(next, false), Handler] + [Deliver(cut + next)])))
  }

  /** The outcomes of such a run. */
  function TearDone(first: seq<byte>, second: seq<byte>, cut: nat): seq<Q.Outcome> {
    [Q.Outcome(first, cut, true, 0, [cut, 0]), Q.Outcome(second, |second|, false, |second|, [|second|])]
  }

  lemma ExecTwo(p: Policy, accept: Validator, l: Link, s: Step, t: Step, more: seq<Step>)
    ensures Exec(p, accept, l, [s, t] + more) == Exec(p, accept, Apply(p, accept, Apply(p, accept, l, s), t), more)
  {
    assert ([s, t] + more)[1..] == [t] + more && ([t] + more)[1..] == more;
  }

  function BothPosted(t: seq<byte>, s: seq<byte>, first: seq<byte>, second: seq<byte>): Link {
    Link(Q.Writer(true, [first, second], Q.Started(|first|, 0), 1, [], 0, [], [], [first, second]), [t, s], 0, [], [])
  }

  function PartTaken(t: seq<byte>, s: seq<byte>, first: seq<byte>, second: seq<byte>, cut: nat): Link
    requires cut < |first|
  {
    Link(Q.Writer(true, [first, second], Q.Started(|first| - cut, cut), 1, first[..cut], cut, [cut], [],
                  [first, second]),
         [t, s], 0, [], [])
  }

  function FirstFailed(t: seq<byte>, s: seq<byte>, first: seq<byte>, second: seq<byte>, cut: nat): Link
    requires cut < |first|
  {
    Link(Q.Writer(true, [second], Q.Started(|second|, 0), 2, first[..cut], 0, [],
                  TearDone(first, second, cut)[..1], [first, second]),
         [t, s], 0, [], [])
  }

  function SecondWritten(t: seq<byte>, s: seq<byte>, first: seq<byte>, second: seq<byte>, cut: nat): Link
    requires cut < |first|
  {
    Link(Q.Writer(true, [], Q.Idle, 2, first[..cut] + second, 0, [],
                  TearDone(first, second, cut), [first, second]),
         [t, s], 0, [], [])
  }

  lemma PostsBoth(p: Policy, accept: Validator, t: seq<byte>, s: seq<byte>, first: seq<byte>, second: seq<byte>)
    requires Packed(p, t) == first && Packed(p, s) == second
    ensures Apply(p, accept, Apply(p, accept, INIT, Send(t)), Send(s)) == BothPosted(t, s, first, second)
  {
    var w := Q.Apply(AsyncStream.KIND, Q.INIT, Q.Post(first));
    assert w == Q.Writer(true, [first], Q.Started(|first|, 0), 1, [], 0, [], [], [first]);
    assert [] + [t] == [t] && [t] + [s] == [t, s] && [first] + [second] == [first, second];
  }

  lemma TakesPart(p: Policy, accept: Validator,
                  t: seq<byte>, s: seq<byte>, first: seq<byte>, second: seq<byte>, cut: nat)
    requires cut < |first|
    ensures Apply(p, accept, Apply(p, accept, BothPosted(t, s, first, second), Socket(cut, false)), Handler)
      == PartTaken(t, s, first, second, cut)
  {
    var l := BothPosted(t, s, first, second);
    var w := Q.Apply(AsyncStream.KIND, l.writer, Q.Transfer(cut, false));
    assert w == l.writer.(flight := Q.Completed(|first|, 0, cut, false), wire := first[..cut], offset := cut,
                          pieces := [cut]);
  }

  lemma FailsFirst(p: Policy, accept: Validator,
                   t: seq<byte>, s: seq<byte>, first: seq<byte>, second: seq<byte>, cut: nat)
    requires cut < |first|
    ensures Apply(p, accept, Apply(p, accept, PartTaken(t, s, first, second, cut), Socket(0, true)), Handler)
      == FirstFailed(t, s, first, second, cut)
  {
    var l := PartTaken(t, s, first, second, cut);
    var w := Q.Apply(AsyncStream.KIND, l.writer, Q.Transfer(0, true));
    assert first[..cut] + first[cut..cut] == first[..cut];
    assert w == l.writer.(flight := Q.Completed(|first| - cut, cut, 0, true), pieces := [cut, 0]);
  }

  lemma WritesSecond(p: Policy, accept: Validator,
                     t: seq<byte>, s: seq<byte>, first: seq<byte>, second: seq<byte>, cut: nat)
    requires cut < |first|
    ensures Apply(p, accept, Apply(p, accept, FirstFailed(t, s, first, second, cut), Socket(|second|, false)), Handler)
      == SecondWritten(t, s, first, second, cut)
  {
    var l, n := FirstFailed(t, s, first, second, cut), |second|;
    var w := Q.Apply(AsyncStream.KIND, l.writer, Q.Transfer(n, false));
    assert second[0..n] == second;
    assert w == l.writer.(flight := Q.Completed(n, 0, n, false), wire := first[..cut] + second, offset := n,
                          pieces := [n]);
    var done := TearDone(first, second, cut);
    assert done[..1] + [done[1]] == done;
  }

  lemma TearUpToDelivery(p: Policy, accept: Validator,
                         t: seq<byte>, s: seq<byte>, first: seq<byte>, second: seq<byte>, cut: nat)
    requires Packed(p, t) == first && Packed(p, s) == second && cut < |first|
    ensures Exec(p, accept, INIT, TearSteps(t, s, cut, |second|))
      == Exec(p, accept, SecondWritten(t, s, first, second, cut), [Deliver(cut + |second|)])
  {
    PostsBoth(p, accept, t, s, first, second);
    TakesPart(p, accept, t, s, first, second, cut);
    FailsFirst(p, accept, t, s, first, second, cut);
    WritesSecond(p, accept, t, s, first, second, cut);
    FourPairs(p, accept, INIT, Send(t), Send(s), BothPosted(t, s, first, second), Socket(cut, false), Handler,
              PartTaken(t, s, first, second, cut), Socket(0, true), Handler,
              FirstFailed(t, s, first, second, cut), Socket(|second|, false), Handler,
              SecondWritten(t, s, first, second, cut), [Deliver(cut + |second|)]);
  }

  /** Both messages are done with, and the receiver has the parse of what the tear left and the second frame. */
  predicate Drained(p: Policy, accept: Validator, l: Link,
                    t: seq<byte>, s: seq<byte>, first: seq<byte>, second: seq<byte>, cut: nat)
    requires cut < |first|
  {
    && l.writer == SecondWritten(t, s, first, second, cut).writer && l.sent == [t, s]
    && l.delivered == |l.writer.wire| && Parse(p, accept, first[..cut] + second) == Parsed(Received(l), l.buffer)
  }

  /** What such a run comes to. */
  lemma TearRun(p: Policy, accept: Validator,
                t: seq<byte>, s: seq<byte>, first: seq<byte>, second: seq<byte>, cut: nat)
    requires Packed(p, t) == first && Packed(p, s) == second && cut < |first|
    ensures Drained(p, accept, Exec(p, accept, INIT, TearSteps(t, s, cut, |second|)), t, s, first, second, cut)
  {
    TearUpToDelivery(p, accept, t, s, first, second, cut);
    TearDelivered(p, accept, t, s, first, second, cut, SecondWritten(t, s, first, second, cut));
  }

  lemma TearDelivered(p: Policy, accept: Validator, t: seq<byte>, s: seq<byte>, first: seq<byte>, second: seq<byte>,
                      cut: nat, l: Link)
    requires cut < |first| && l == SecondWritten(t, s, first, second, cut)
    ensures Drained(p, accept, Exec(p, accept, l, [Deliver(cut + |second|)]), t, s, first, second, cut)
  {
    SecondWire(t, s, first, second, cut, l);
    DeliversAll(p, accept, l, cut + |second|);
  }

  lemma SecondWire(t: seq<byte>, s: seq<byte>, first: seq<byte>, second: seq<byte>, cut: nat, l: Link)
    requires cut < |first| && l == SecondWritten(t, s, first, second, cut)
    ensures l.delivered == 0 && l.buffer == [] && l.events == [] && l.sent == [t, s]
    ensures l.writer.wire == first[..cut] + second && |l.writer.wire| == cut + |second|
  {
  }

  lemma FourPairs(p: Policy, accept: Validator, a: Link, a1: Step, a2: Step, b: Link, b1: Step, b2: Step,
                  c: Link, c1: Step, c2: Step, d: Link, d1: Step, d2: Step, e: Link, last: seq<Step>)
    requires Apply(p, accept, Apply(p, accept, a, a1), a2) == b && Apply(p, accept, Apply(p, accept, b, b1), b2) == c
    requires Apply(p, accept, Apply(p, accept, c, c1), c2) == d && Apply(p, accept, Apply(p, accept, d, d1), d2) == e
    ensures Exec(p, accept, a, [a1, a2] + ([b1, b2] + ([c1, c2] + ([d1, d2] + last)))) == Exec(p, accept, e, last)
  {
    ExecTwo(p, accept, d, d1, d2, last);
    ExecTwo(p, accept, c, c1, c2, [d1, d2] + last);
    ExecTwo(p, accept, b, b1, b2, [c1, c2] + ([d1, d2] + last));
    ExecTwo(p, accept, a, a1, a2, [b1, b2] + ([c1, c2] + ([d1, d2] + last)));
  }

  lemma DeliversAll(p: Policy, accept: Validator, l: Link, n: nat)
    requires l.delivered == 0 && l.buffer == [] && l.events == [] && n == |l.writer.wire|
    ensures var e := Exec(p, accept, l, [Deliver(n)]);
      && e.writer == l.writer && e.sent == l.sent && e.delivered == n
      && Parse(p, accept, l.writer.wire) == Parsed(Received(e), e.buffer)
  {
    var wire := l.writer.wire;
    assert [Deliver(n)][1..] == [] && wire[0..n] == wire && [] + wire == wire;
    assert [] + M.OnDataEvents(p, accept, wire) == M.OnDataEvents(p, accept, wire);
    M.OnDataPayloads(p, accept, wire);
  }

  /**
   * If a byte follows a torn message the receiver can be handed what was never sent: here the
   * socket fails one byte short of the first message, and the next message's size is taken for it.
   */
  lemma TornRun(accept: Validator)
    requires forall n :: accept(n)
    ensures var l := Exec(Varint(4), accept, INIT, TearSteps([1, 2], [7], 2, 2));
      && l.sent == [[1, 2], [7]] && Received(l) == [[1, 1]] && l.buffer == [7]
      && !QuietAfterTear(l.writer)
  {
    SmallFrames(accept);
    PackedIsFrame(Varint(4), [1, 2]);
    PackedIsFrame(Varint(4), [7]);
    TearRun(Varint(4), accept, [1, 2], [7], [2, 1, 2], [1, 7], 2);
    TornParse(accept);
    var done := TearDone([2, 1, 2], [1, 7], 2);
    assert Torn(done[0]) && done[1].sent == 2;
  }

  lemma SmallFrames(accept: Validator)
    requires forall n :: accept(n)
    ensures Frame(Varint(4), [1, 2]) == [2, 1, 2] && Frame(Varint(4), [7]) == [1, 7] && Pack(Varint(4), 2) == [2]
    ensures Sendable(Varint(4), [1, 2]) && Sendable(Varint(4), [7])
  {
    Pow2Monotone(3, 32);
    assert [1] + [7] == [1, 7] && [2] + [1, 2] == [2, 1, 2];
  }

  lemma LoneSizeParse(accept: Validator)
    requires forall n :: accept(n)
    ensures Parse(Varint(4), accept, [7]) == Parsed([], [7])
  {
    Pow2Monotone(3, 32);
    UnpackPack(Varint(4), 7, []);
    assert Pack(Varint(4), 7) + [] == [7];
  }

  lemma TornWire()
    ensures var one, two, seven: seq<byte> := [1], [2], [7];
      && one + two == [1, 2] && one + one == [1, 1]
      && two + one + (one + seven) == [2, 1, 1, 7] == [2, 1, 2][..2] + [1, 7]
  {
  }

  lemma TornParse(accept: Validator)
    requires forall n :: accept(n)
    ensures Parse(Varint(4), accept, [2, 1, 2][..2] + [1, 7]) == Parsed([[1, 1]], [7])
  {
    var none: seq<seq<byte>> := [];
    TornWire();
    SmallFrames(accept);
    LoneSizeParse(accept);
    assert [[1, 1]] + none == [[1, 1]];
    TornFrameSwallowsNext(Varint(4), accept, [2], [1], [2], [1], [7]);
  }

  // ----- why fixed-width sizes: a tear a varint receiver cannot notice

  /** Two sizes of three groups; the first is torn after two of them. */
  const TORN := 16400
  const NEXT := 262160
  const TORN_HEADER: seq<byte> := [0x90, 0x80, 0x01]
  const NEXT_HEADER: seq<byte> := [0x90, 0x80, 0x10]
  const JOINED_HEADER: seq<byte> := [0x90, 0x80, 0x90, 0x80, 0x10]

  lemma LongSizes()
    ensures Pack(Varint(4), TORN) == TORN_HEADER && Pack(Varint(4), NEXT) == NEXT_HEADER
  {
    assert V.Encode(0x80) == [0x80] + V.Encode(1) == [0x80, 0x01];
    assert V.Encode(TORN) == [0x90] + V.Encode(0x80);
    assert V.Encode(0x800) == [0x80] + V.Encode(0x10) == [0x80, 0x10];
    assert V.Encode(NEXT) == [0x90] + V.Encode(0x800);
  }

  lemma JoinedSize()
    ensures V.PrefixLength(JOINED_HEADER) == 5 && V.Digits(JOINED_HEADER) == 0x1_0004_0010
  {
    var one: seq<byte>, two: seq<byte> := [0x10], [0x80, 0x10];
    var three: seq<byte>, four: seq<byte> := [0x90, 0x80, 0x10], [0x80, 0x90, 0x80, 0x10];
    assert two[1..] == one && three[1..] == two && four[1..] == three && JOINED_HEADER[1..] == four;
    assert V.PrefixLength(one) == 1 && V.Digits(one) == 0x10;
    assert V.PrefixLength(two) == 2 && V.Digits(two) == 0x800;
    assert V.PrefixLength(three) == 3 && V.Digits(three) == 0x4_0010;
    assert V.PrefixLength(four) == 4 && V.Digits(four) == 0x200_0800;
  }

  lemma JoinedAnnounces(accept: Validator)
    requires forall n :: accept(n)
    ensures Announces(Varint(4), accept, JOINED_HEADER, Zeros(NEXT))
    ensures Limit(Varint(4)) == 0x1_0000_0000
  {
    Pow2Add(8, 8);
    Pow2Add(16, 16);
    assert Pow2(8) == 0x100 && Pow2(16) == 0x1_0000 && Pow2(32) == 0x1_0000_0000;
    JoinedSize();
    DivModUnique(0x1_0004_0010, Pow2(32), 1, NEXT);
  }

  /**
   * With a varint of more than one byte the converse fails: of a message whose size takes three
   * groups two go out before the error; they join with the next message's size, the bits above the
   * size type are cut off, and the receiver is left with the survivors and an empty buffer all the
   * same.
   */
  lemma UnnoticedTear(accept: Validator)
    requires forall n :: accept(n)
    ensures var p := Varint(4); var t, s := Zeros(TORN), Zeros(NEXT);
      var l := Exec(p, accept, INIT, TearSteps(t, s, 2, NEXT + 3)); var done := Written(l.writer);
      && l.writer.queue == [] && l.delivered == |l.writer.wire| && l.sent == [t, s]
      && done == TearDone(Frame(p, t), Frame(p, s), 2)
      && Received(l) == Survivors(done, [t, s]) == [s] && l.buffer == Tail(done) == []
      && !QuietAfterTear(l.writer)
  {
    var p, t, s := Varint(4), Zeros(TORN), Zeros(NEXT);
    var first, second := Frame(p, t), Frame(p, s);
    LongSizes();
    JoinedAnnounces(accept);
    PackedIsFrame(p, t);
    PackedIsFrame(p, s);
    TearRun(p, accept, t, s, first, second, 2);
    JoinedWire(first, second);
    OneMessage(p, accept, JOINED_HEADER, s);
    TearOutcome(first, second, 2, t, s);
  }

  lemma JoinedWire(first: seq<byte>, second: seq<byte>)
    requires first == TORN_HEADER + Zeros(TORN) && second == NEXT_HEADER + Zeros(NEXT)
    ensures first[..2] + second == JOINED_HEADER + Zeros(NEXT) && |second| == NEXT + 3 && |first| > 2
  {
    assert first[..2] == TORN_HEADER[..2];
    assert first[..2] + second == first[..2] + NEXT_HEADER + Zeros(NEXT);
    assert first[..2] + NEXT_HEADER == JOINED_HEADER;
  }

  lemma OneMessage(p: Policy, accept: Validator, header: seq<byte>, m: seq<byte>)
    requires Announces(p, accept, header, m)
    ensures Parse(p, accept, header + m) == Parsed([m], [])
  {
    var none: seq<seq<byte>> := [];
    FirstFrame(p, accept, header, m, []);
    assert header + m + [] == header + m && [m] + none == [m];
    assert Parse(p, accept, []) == Parsed(none, []);
  }

  lemma TearOutcome(first: seq<byte>, second: seq<byte>, cut: nat, t: seq<byte>, s: seq<byte>)
    requires 0 < cut < |first| && second != []
    ensures var done := TearDone(first, second, cut);
      Survivors(done, [t, s]) == [s] && Tail(done) == [] && !TearLast(done)
  {
    var done, sent := TearDone(first, second, cut), [t, s];
    assert Torn(done[0]) && done[1].sent == |second|;
    LastSurvives(done[..1], sent, [], done[0]);
    LastSurvives(done, sent, done[..1], done[1]);
    assert done[..1] == [] + [done[0]] && done == done[..1] + [done[1]];
  }
}
