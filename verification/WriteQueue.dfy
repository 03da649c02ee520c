/**
 * The queue both asynchronous transports write through: one message at a time is handed to the
 * socket, which takes it in as many pieces as it likes, and a handler that runs later goes on
 * from there. Handlers run one by one; what the socket does lies between them.
 */
module WriteQueue {
  import opened Bytes

  /** The write in flight: asked for, or taken by the socket with its handler yet to run. */
  datatype Flight =
    | Idle
    | Started(length: nat, total: nat)
    | Completed(length: nat, total: nat, bytes: nat, error: bool)

  /**
   * How a message ended: `sent` of its bytes reached the wire, in the given pieces, and its
   * callback was told `reported`.
   */
  datatype Outcome = Outcome(message: seq<byte>, sent: nat, error: bool, reported: nat, pieces: seq<nat>)

  /** The k-th message to reach the head of the queue is replaced by its transform. */
  type Transform = (nat, seq<byte>) -> seq<byte>

  /** The two transports: one starts no write once closed, the other transforms its messages. */
  datatype Kind = Kind(gated: bool, transform: Transform)

  /**
   * The transport's own state, then the history: the wire, how much of the head message is on
   * it and in which pieces, the callbacks made, and everything posted.
   */
  datatype Writer = Writer(
    active: bool, queue: seq<seq<byte>>, flight: Flight, transforms: nat,
    wire: seq<byte>, offset: nat, pieces: seq<nat>, done: seq<Outcome>, posted: seq<seq<byte>>)

  const INIT := Writer(true, [], Idle, 0, [], 0, [], [], [])

  datatype Step = Post(message: seq<byte>) | Transfer(bytes: nat, error: bool) | Handle | Close

  function AsyncWrite(k: Kind, w: Writer, length: nat, total: nat): Writer {
    w.(flight := if k.gated && !w.active then Idle else Started(length, total))
  }

  function StartHead(k: Kind, w: Writer): Writer
    requires w.queue != []
  {
    var head := k.transform(w.transforms, w.queue[0]);
    AsyncWrite(k, w.(queue := w.queue[0 := head], transforms := w.transforms + 1), |head|, 0)
  }

  function WriteImpl(k: Kind, w: Writer, message: seq<byte>): Writer {
    var pushed := w.(queue := w.queue + [message], posted := w.posted + [message]);
    if w.queue == [] then StartHead(k, pushed) else pushed
  }

  /** The callback, the pop, and the next message's turn. */
  function FinishHead(k: Kind, w: Writer, error: bool, reported: nat): Writer
    requires w.queue != []
  {
    var popped := w.(
      queue := w.queue[1..], flight := Idle, offset := 0, pieces := [],
      done := w.done + [Outcome(w.queue[0], w.offset, error, reported, w.pieces)]);
    if popped.queue == [] then popped else StartHead(k, popped)
  }

  function WriteHandler(k: Kind, w: Writer): Writer
    requires w.flight.Completed? && w.queue != [] && w.flight.total + w.flight.bytes <= |w.queue[0]|
  {
    var f := w.flight;
    var total := f.total + f.bytes;
    if !f.error && f.bytes < f.length then AsyncWrite(k, w, |w.queue[0]| - total, total)
    else FinishHead(k, w, f.error, f.bytes)
  }

  predicate Enabled(w: Writer, s: Step) {
    match s
    case Post(_) => true
    case Transfer(bytes, _) =>
      w.flight.Started? && bytes <= w.flight.length && w.queue != [] && w.flight.total + bytes <= |w.queue[0]|
    case Handle => w.flight.Completed? && w.queue != [] && w.flight.total + w.flight.bytes <= |w.queue[0]|
    case Close => true
  }

  /** What a step does; one that is not enabled does nothing. */
  function Apply(k: Kind, w: Writer, s: Step): Writer {
    if !Enabled(w, s) then w
    else match s
      case Post(message) => WriteImpl(k, w, message)
      case Transfer(bytes, error) =>
        w.(wire := w.wire + w.queue[0][w.flight.total..w.flight.total + bytes],
           offset := w.offset + bytes, pieces := w.pieces + [bytes],
           flight := Completed(w.flight.length, w.flight.total, bytes, error))
      case Handle => WriteHandler(k, w)
      case Close => w.(active := false)
  }

  function Exec(k: Kind, w: Writer, steps: seq<Step>): Writer
    decreases |steps|
  {
    if steps == [] then w else Exec(k, Apply(k, w, steps[0]), steps[1..])
  }

  // ----- what holds in every reachable state

  function Sent(done: seq<Outcome>): seq<byte>
    requires forall o :: o in done ==> o.sent <= |o.message|
  {
    if done == [] then []
    else Sent(done[..|done| - 1]) + done[|done| - 1].message[..done[|done| - 1].sent]
  }

  /** One callback per message, in the order of submission, each message transformed once. */
  predicate InOrder(k: Kind, w: Writer) {
    && |w.posted| == |w.done| + |w.queue|
    && w.transforms == |w.done| + (if w.queue == [] then 0 else 1)
    && (forall i :: 0 <= i < |w.done| ==> w.done[i].message == k.transform(i, w.posted[i]))
    && (w.queue != [] ==> w.queue[0] == k.transform(|w.done|, w.posted[|w.done|]))
    && (forall i :: 1 <= i < |w.queue| ==> w.queue[i] == w.posted[|w.done| + i])
  }

  predicate InFlight(k: Kind, w: Writer) {
    && (w.flight != Idle ==> w.queue != [] && w.flight.total + w.flight.length == |w.queue[0]|)
    && (w.flight.Started? ==> w.flight.total == w.offset)
    && (w.flight.Completed? ==> w.flight.bytes <= w.flight.length && w.flight.total + w.flight.bytes == w.offset)
    && (w.active || !k.gated ==> (w.flight == Idle <==> w.queue == []))
  }

  function Head(w: Writer): seq<byte> {
    if w.queue == [] then [] else w.queue[0]
  }

  /** The wire carries the finished messages, cut where an error cut them, and the head's progress. */
  predicate OnTheWire(w: Writer) {
    && (forall o :: o in w.done ==> o.sent <= |o.message| && (!o.error ==> o.sent == |o.message|))
    && w.offset <= |Head(w)|
    && w.wire == Sent(w.done) + Head(w)[..w.offset]
  }

  predicate Inv(k: Kind, w: Writer) {
    InOrder(k, w) && InFlight(k, w) && OnTheWire(w)
  }

  lemma SentSnoc(done: seq<Outcome>, o: Outcome)
    requires forall d :: d in done + [o] ==> d.sent <= |d.message|
    ensures (forall d :: d in done ==> d.sent <= |d.message|) && o.sent <= |o.message|
    ensures Sent(done + [o]) == Sent(done) + o.message[..o.sent]
  {
    assert (done + [o])[|done|] == o && (done + [o])[..|done|] == done;
    forall d | d in done ensures d in done + [o] {}
  }

  /** Between messages: the head has been popped and its successor not yet started. */
  ghost predicate Between(k: Kind, w: Writer) {
    && w.flight == Idle && w.offset == 0 && w.transforms == |w.done|
    && |w.posted| == |w.done| + |w.queue|
    && (forall i :: 0 <= i < |w.done| ==> w.done[i].message == k.transform(i, w.posted[i]))
    && (forall i :: 0 <= i < |w.queue| ==> w.queue[i] == w.posted[|w.done| + i])
    && (forall o :: o in w.done ==> o.sent <= |o.message| && (!o.error ==> o.sent == |o.message|))
    && w.wire == Sent(w.done)
  }

  lemma BetweenThenStart(k: Kind, w: Writer)
    requires Between(k, w)
    ensures Inv(k, if w.queue == [] then w else StartHead(k, w))
  {
    assert Sent(w.done) + [] == Sent(w.done);
  }

  lemma FinishHeadKeepsInv(k: Kind, w: Writer, error: bool, reported: nat)
    requires Inv(k, w) && w.queue != [] && (error || w.offset == |w.queue[0]|)
    ensures Inv(k, FinishHead(k, w, error, reported))
  {
    var o := Outcome(w.queue[0], w.offset, error, reported, w.pieces);
    var popped := w.(queue := w.queue[1..], flight := Idle, offset := 0, pieces := [], done := w.done + [o]);
    SentSnoc(w.done, o);
    BetweenThenStart(k, popped);
  }

  lemma TransferKeepsWire(sent: seq<byte>, head: seq<byte>, t: nat, n: nat)
    requires t + n <= |head|
    ensures sent + head[..t] + head[t..t + n] == sent + head[..t + n]
  {
    assert head[..t] + head[t..t + n] == head[..t + n];
  }

  lemma PostKeepsInv(k: Kind, w: Writer, message: seq<byte>)
    requires Inv(k, w)
    ensures Inv(k, WriteImpl(k, w, message))
  {
    if w.queue == [] {
      assert Sent(w.done) + [] == Sent(w.done);
      BetweenThenStart(k, w.(queue := w.queue + [message], posted := w.posted + [message]));
    }
  }

  lemma TransferKeepsInv(k: Kind, w: Writer, bytes: nat, error: bool)
    requires Inv(k, w) && Enabled(w, Transfer(bytes, error))
    ensures Inv(k, Apply(k, w, Transfer(bytes, error)))
  {
    TransferKeepsWire(Sent(w.done), w.queue[0], w.flight.total, bytes);
  }

  lemma HandleKeepsInv(k: Kind, w: Writer)
    requires Inv(k, w) && Enabled(w, Handle)
    ensures Inv(k, WriteHandler(k, w))
  {
    if w.flight.error || w.flight.bytes == w.flight.length {
      FinishHeadKeepsInv(k, w, w.flight.error, w.flight.bytes);
    }
  }

  lemma ApplyKeepsInv(k: Kind, w: Writer, s: Step)
    requires Inv(k, w)
    ensures Inv(k, Apply(k, w, s))
  {
    if Enabled(w, s) {
      match s
      case Post(message) => PostKeepsInv(k, w, message);
      case Transfer(bytes, error) => TransferKeepsInv(k, w, bytes, error);
      case Handle => HandleKeepsInv(k, w);
      case Close =>
    }
  }

  /** Steps only ever lengthen the wire, and only a post adds to what was posted. */
  lemma ApplyGrows(k: Kind, w: Writer, s: Step)
    ensures w.wire <= Apply(k, w, s).wire
    ensures Apply(k, w, s).posted == if s.Post? then w.posted + [s.message] else w.posted
  {
  }

  lemma {:induction false} ExecKeepsInv(k: Kind, w: Writer, steps: seq<Step>)
    requires Inv(k, w)
    ensures Inv(k, Exec(k, w, steps))
    decreases |steps|
  {
    if steps != [] {
      ApplyKeepsInv(k, w, steps[0]);
      ExecKeepsInv(k, Apply(k, w, steps[0]), steps[1..]);
    }
  }

  // ----- consequences over whole runs

  function Transformed(k: Kind, ms: seq<seq<byte>>): (r: seq<seq<byte>>)
    ensures |r| == |ms|
  {
    seq(|ms|, i requires 0 <= i < |ms| => k.transform(i, ms[i]))
  }

  predicate ErrorFree(w: Writer) {
    (forall o :: o in w.done ==> !o.error) && !(w.flight.Completed? && w.flight.error)
  }

  lemma {:induction false} ExecErrorFree(k: Kind, w: Writer, steps: seq<Step>)
    requires ErrorFree(w) && forall s :: s in steps ==> !(s.Transfer? && s.error)
    ensures ErrorFree(Exec(k, w, steps))
    decreases |steps|
  {
    if steps != [] {
      ExecErrorFree(k, Apply(k, w, steps[0]), steps[1..]);
    }
  }

  lemma {:induction false} SentWhole(done: seq<Outcome>)
    requires forall o :: o in done ==> o.sent == |o.message|
    ensures Sent(done) == Flatten(seq(|done|, i requires 0 <= i < |done| => done[i].message))
  {
    if done != [] {
      var n := |done| - 1;
      var messages := seq(|done|, i requires 0 <= i < |done| => done[i].message);
      SentWhole(done[..n]);
      assert messages == messages[..n] + [messages[n]];
      assert messages[..n] == seq(n, i requires 0 <= i < n => done[..n][i].message);
      FlattenAppend(messages[..n], [messages[n]]);
      FlattenSingle(messages[n]);
      assert done[n].message[..done[n].sent] == done[n].message;
    }
  }

  /**
   * However the socket cuts the writes, without errors the wire is always a prefix of the posted
   * messages, each transformed exactly once, and all of them when the queue is empty.
   */
  lemma WireOfErrorFreeRun(k: Kind, steps: seq<Step>)
    requires forall s :: s in steps ==> !(s.Transfer? && s.error)
    ensures var w := Exec(k, INIT, steps);
      && w.wire <= Flatten(Transformed(k, w.posted))
      && (w.queue == [] ==> w.wire == Flatten(Transformed(k, w.posted)))
  {
    ExecKeepsInv(k, INIT, steps);
    ExecErrorFree(k, INIT, steps);
    WireOfErrorFree(k, Exec(k, INIT, steps));
  }

  lemma WireOfErrorFree(k: Kind, w: Writer)
    requires Inv(k, w) && ErrorFree(w)
    ensures w.wire <= Flatten(Transformed(k, w.posted))
    ensures w.queue == [] ==> w.wire == Flatten(Transformed(k, w.posted))
  {
    var all, n := Transformed(k, w.posted), |w.done|;
    SentWhole(w.done);
    assert all[..n] == seq(n, i requires 0 <= i < n => w.done[i].message);
    assert all == all[..n] + all[n..];
    FlattenAppend(all[..n], all[n..]);
    if w.queue != [] {
      assert all[n] == w.queue[0];
      assert Flatten(all[n..]) == all[n] + Flatten(all[n..][1..]);
    }
  }

  // ----- what a message's callback is told

  function Sum(pieces: seq<nat>): nat {
    if pieces == [] then 0 else Sum(pieces[..|pieces| - 1]) + pieces[|pieces| - 1]
  }

  /** The callback was told the length of the last piece, whatever went before it. */
  predicate Told(o: Outcome) {
    o.pieces != [] && Sum(o.pieces) == o.sent && o.reported == o.pieces[|o.pieces| - 1]
  }

  predicate Reports(w: Writer) {
    && (forall o :: o in w.done ==> Told(o))
    && Sum(w.pieces) == w.offset
    && (w.flight.Completed? ==> w.pieces != [] && w.pieces[|w.pieces| - 1] == w.flight.bytes)
  }

  lemma PieceTaken(pieces: seq<nat>, bytes: nat)
    ensures Sum(pieces + [bytes]) == Sum(pieces) + bytes
  {
    assert (pieces + [bytes])[..|pieces|] == pieces;
  }

  lemma OneMoreTold(done: seq<Outcome>, o: Outcome)
    requires (forall d :: d in done ==> Told(d)) && Told(o)
    ensures forall d :: d in done + [o] ==> Told(d)
  {
  }

  lemma HandleKeepsReports(k: Kind, w: Writer)
    requires Inv(k, w) && Reports(w) && Enabled(w, Handle)
    ensures Reports(WriteHandler(k, w))
  {
    OneMoreTold(w.done, Outcome(w.queue[0], w.offset, w.flight.error, w.flight.bytes, w.pieces));
  }

  lemma ApplyKeepsReports(k: Kind, w: Writer, s: Step)
    requires Inv(k, w) && Reports(w)
    ensures Reports(Apply(k, w, s))
  {
    if Enabled(w, s) {
      match s
      case Post(_) =>
      case Transfer(bytes, _) => PieceTaken(w.pieces, bytes);
      case Handle => HandleKeepsReports(k, w);
      case Close =>
    }
  }

  lemma {:induction false} ExecKeepsReports(k: Kind, w: Writer, steps: seq<Step>)
    requires Inv(k, w) && Reports(w)
    ensures Reports(Exec(k, w, steps))
    decreases |steps|
  {
    if steps != [] {
      ApplyKeepsInv(k, w, steps[0]);
      ApplyKeepsReports(k, w, steps[0]);
      ExecKeepsReports(k, Apply(k, w, steps[0]), steps[1..]);
    }
  }

  /** Everything went out in the last piece. */
  predicate InOnePiece(pieces: seq<nat>) {
    forall i :: 0 <= i < |pieces| - 1 ==> pieces[i] == 0
  }

  lemma {:induction false} SumIsZero(pieces: seq<nat>)
    ensures Sum(pieces) == 0 <==> forall i :: 0 <= i < |pieces| ==> pieces[i] == 0
    decreases |pieces|
  {
    if pieces != [] {
      SumIsZero(pieces[..|pieces| - 1]);
      assert forall i :: 0 <= i < |pieces| - 1 ==> pieces[..|pieces| - 1][i] == pieces[i];
    }
  }

  /** A handler that finishes a message tells the callback all of it exactly if nothing had gone before. */
  lemma FinishReports(k: Kind, w: Writer)
    requires Inv(k, w) && Enabled(w, Handle) && (w.flight.error || w.flight.bytes == w.flight.length)
    ensures var done := Apply(k, w, Handle).done;
      && |done| == |w.done| + 1
      && (done[|w.done|].reported == done[|w.done|].sent <==> w.flight.total == 0)
  {
  }

  /**
   * Over every run, a callback is told how much of its message was written if and only if all of
   * that went out in the last piece.
   */
  lemma ReportedInFull(k: Kind, steps: seq<Step>, i: nat)
    requires i < |Exec(k, INIT, steps).done|
    ensures var o := Exec(k, INIT, steps).done[i]; Told(o) && (o.reported == o.sent <==> InOnePiece(o.pieces))
  {
    ExecKeepsReports(k, INIT, steps);
    var o := Exec(k, INIT, steps).done[i];
    assert o in Exec(k, INIT, steps).done;
    var before := o.pieces[..|o.pieces| - 1];
    SumIsZero(before);
    assert forall j :: 0 <= j < |before| ==> before[j] == o.pieces[j];
  }

  /** Two bytes written one by one: no error, and the callback is told of one byte. */
  lemma TwoPieceRun(k: Kind)
    requires k.transform(0, [1, 2]) == [1, 2]
    ensures Exec(k, INIT, [Post([1, 2]), Transfer(1, false), Handle, Transfer(1, false), Handle]).done
      == [Outcome([1, 2], 2, false, 1, [1, 1])]
  {
    var m: seq<byte> := [1, 2];
    FirstPiece(k, m);
    SecondPiece(k, m);
    RunOfFive(k, INIT, Post(m), Transfer(1, false), Handle, Transfer(1, false), Handle);
  }

  lemma FirstPiece(k: Kind, m: seq<byte>)
    requires m == [1, 2] && k.transform(0, m) == m
    ensures Apply(k, INIT, Post(m)) == Writer(true, [m], Started(2, 0), 1, [], 0, [], [], [m])
    ensures Apply(k, Apply(k, Apply(k, INIT, Post(m)), Transfer(1, false)), Handle)
      == Writer(true, [m], Started(1, 1), 1, [1], 1, [1], [], [m])
  {
    var w := Apply(k, Apply(k, INIT, Post(m)), Transfer(1, false));
    assert w == Writer(true, [m], Completed(2, 0, 1, false), 1, [1], 1, [1], [], [m]);
  }

  lemma SecondPiece(k: Kind, m: seq<byte>)
    requires m == [1, 2]
    ensures var w := Writer(true, [m], Started(1, 1), 1, [1], 1, [1], [], [m]);
      Apply(k, Apply(k, w, Transfer(1, false)), Handle).done == [Outcome(m, 2, false, 1, [1, 1])]
  {
    var w := Apply(k, Writer(true, [m], Started(1, 1), 1, [1], 1, [1], [], [m]), Transfer(1, false));
    assert w == Writer(true, [m], Completed(1, 1, 1, false), 1, [1, 2], 2, [1, 1], [], [m]);
  }

  lemma RunOfFive(k: Kind, w: Writer, a: Step, b: Step, c: Step, d: Step, e: Step)
    ensures Exec(k, w, [a, b, c, d, e]) == Apply(k, Apply(k, Apply(k, Apply(k, Apply(k, w, a), b), c), d), e)
  {
    var v := Apply(k, Apply(k, w, a), b);
    ExecTwo(k, w, a, b, [c, d, e]);
    ExecTwo(k, v, c, d, [e]);
    assert [a, b] + [c, d, e] == [a, b, c, d, e] && [c, d] + [e] == [c, d, e] && [e][1..] == [];
  }

  lemma ExecTwo(k: Kind, w: Writer, a: Step, b: Step, more: seq<Step>)
    ensures Exec(k, w, [a, b] + more) == Exec(k, Apply(k, Apply(k, w, a), b), more)
  {
    assert ([a, b] + more)[1..] == [b] + more && ([b] + more)[1..] == more;
  }

  /** The messages that ended in an error. */
  function Errors(done: seq<Outcome>): nat {
    if done == [] then 0
    else Errors(done[..|done| - 1]) + (if done[|done| - 1].error then 1 else 0)
  }

  lemma ErrorsMore(before: seq<Outcome>, o: Outcome, after: seq<Outcome>)
    requires after == before + [o]
    ensures Errors(after) == Errors(before) + (if o.error then 1 else 0)
  {
    assert after[..|before|] == before;
  }

  /** A posted message waits for nothing but the socket: an open transport is never stuck. */
  lemma OpenIsBusyOrEmpty(k: Kind, steps: seq<Step>)
    ensures var w := Exec(k, INIT, steps); w.active || !k.gated ==> (w.queue == [] <==> w.flight == Idle)
    ensures var w := Exec(k, INIT, steps); |w.done| <= |w.posted| && |w.done| + |w.queue| == |w.posted|
  {
    ExecKeepsInv(k, INIT, steps);
  }

  // ----- whether the queue can still be emptied

  /** The write in flight will go on to the end of the message with no other being started. */
  predicate Ending(f: Flight) {
    f.Started? || (f.Completed? && (f.error || f.bytes == f.length))
  }

  /** Open, or nothing is left but a message that needs no further write. */
  predicate CanEmpty(k: Kind, w: Writer) {
    w.active || !k.gated || w.queue == [] || (|w.queue| == 1 && Ending(w.flight))
  }

  predicate Progress(s: Step) {
    s == Handle || (s.Transfer? && !s.error)
  }

  /** How far the write in flight is from the end of its message. */
  function Distance(f: Flight): nat {
    if f.Completed? then (if f.error || f.bytes == f.length then 1 else 3) else 2
  }

  /** The step to take next: the socket takes all it was given, or the handler runs. */
  function NextStep(w: Writer): Step {
    if w.flight.Started? then Transfer(w.flight.length, false) else Handle
  }

  lemma NextProgress(k: Kind, w: Writer)
    requires Inv(k, w) && CanEmpty(k, w) && w.queue != []
    ensures Progress(NextStep(w))
    ensures var v := Apply(k, w, NextStep(w));
      && Inv(k, v) && CanEmpty(k, v) && v.posted == w.posted && v.active == w.active
      && |v.queue| <= |w.queue| && (|v.queue| == |w.queue| ==> Distance(v.flight) < Distance(w.flight))
  {
    ApplyKeepsInv(k, w, NextStep(w));
  }

  /** Error-free steps of socket and handlers empty the queue. */
  lemma {:induction false} Emptied(k: Kind, w: Writer) returns (steps: seq<Step>)
    requires Inv(k, w) && CanEmpty(k, w)
    ensures forall s :: s in steps ==> Progress(s)
    ensures var v := Exec(k, w, steps); v.queue == [] && v.posted == w.posted && v.active == w.active
    decreases |w.queue|, Distance(w.flight)
  {
    if w.queue == [] {
      steps := [];
    } else {
      NextProgress(k, w);
      var more := Emptied(k, Apply(k, w, NextStep(w)));
      steps := [NextStep(w)] + more;
      assert steps[1..] == more;
    }
  }

  lemma StuckStep(k: Kind, w: Writer, s: Step)
    requires Inv(k, w) && !CanEmpty(k, w)
    ensures !CanEmpty(k, Apply(k, w, s))
  {
  }

  /** Otherwise no steps at all do: what waits behind a closed transport's last write is never written. */
  lemma {:induction false} StuckForGood(k: Kind, w: Writer, steps: seq<Step>)
    requires Inv(k, w) && !CanEmpty(k, w)
    ensures !CanEmpty(k, Exec(k, w, steps)) && Exec(k, w, steps).queue != []
    decreases |steps|
  {
    if steps != [] {
      ApplyKeepsInv(k, w, steps[0]);
      StuckStep(k, w, steps[0]);
      StuckForGood(k, Apply(k, w, steps[0]), steps[1..]);
    }
  }

  /** Exactly when the queue can still be emptied. */
  lemma CanEmptyIff(k: Kind, w: Writer)
    requires Inv(k, w)
    ensures CanEmpty(k, w) <==> exists steps :: Exec(k, w, steps).queue == []
  {
    if CanEmpty(k, w) {
      var steps := Emptied(k, w);
      assert Exec(k, w, steps).queue == [];
    } else {
      forall steps: seq<Step> ensures Exec(k, w, steps).queue != [] {
        StuckForGood(k, w, steps);
      }
    }
  }

  /** What may still reach the wire of the write in flight. */
  function Pending(w: Writer): seq<byte> {
    if w.flight.Started? && w.queue != [] && w.offset <= |w.queue[0]| then w.queue[0][w.offset..] else []
  }

  /** After close no write is started: at most the one in flight comes to its end. */
  lemma {:induction false} ClosedStartsNothing(k: Kind, w: Writer, steps: seq<Step>)
    requires Inv(k, w) && k.gated && !w.active
    ensures var v := Exec(k, w, steps);
      && !v.active
      && w.wire <= v.wire <= w.wire + Pending(w)
      && |w.done| <= |v.done| <= |w.done| + (if w.flight == Idle then 0 else 1)
      && (w.flight == Idle ==> v.flight == Idle && v.done == w.done)
    decreases |steps|
  {
    if steps != [] {
      var next := Apply(k, w, steps[0]);
      ApplyKeepsInv(k, w, steps[0]);
      ClosedStep(k, w, steps[0]);
      ClosedStartsNothing(k, next, steps[1..]);
    }
  }

  lemma ClosedStep(k: Kind, w: Writer, s: Step)
    requires Inv(k, w) && k.gated && !w.active
    ensures var v := Apply(k, w, s);
      && !v.active
      && w.wire <= v.wire && v.wire + Pending(v) <= w.wire + Pending(w)
      && (v.flight == Idle ==> |v.done| <= |w.done| + (if w.flight == Idle then 0 else 1))
      && (v.flight != Idle ==> w.flight != Idle && v.done == w.done)
      && w.done <= v.done
      && (w.flight == Idle ==> v.flight == Idle && v.done == w.done)
  {
    if s.Transfer? && Enabled(w, s) {
      var t, n := w.flight.total, s.bytes;
      assert w.queue[0][t..] == w.queue[0][t..t + n] + w.queue[0][t + n..];
      Associative(w.wire, w.queue[0][t..t + n], w.queue[0][t + n..]);
    }
  }
}
