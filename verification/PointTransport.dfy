/** `async_reader::point_iface`: a write queue whose messages are transformed as they reach its head. */
module PointTransport {
  import opened Bytes
  import Q = WriteQueue
  import opened WriteQueue

  class Point {
    /** Whether OPT_TRANSFORM_MESSAGE was given, and the overridden `on_transform_message`. */
    const transforming: bool
    const onTransformMessage: Transform
    var active: bool
    var writeQueue: seq<seq<byte>>
    var flight: Flight
    var transforms: nat
    /** Calls of `on_write_error`, and whether `stream_` has been closed. */
    var writeErrors: nat
    var streamClosed: bool
    ghost var wire: seq<byte>
    ghost var offset: nat
    ghost var pieces: seq<nat>
    ghost var done: seq<Outcome>
    ghost var posted: seq<seq<byte>>

    ghost function TheKind(): Kind {
      Kind(false, if transforming then onTransformMessage else (n, m) => m)
    }

    ghost function State(): Writer
      reads this
    {
      Writer(active, writeQueue, flight, transforms, wire, offset, pieces, done, posted)
    }

    ghost predicate Valid()
      reads this
    {
      Inv(TheKind(), State()) && writeErrors == Errors(done) && streamClosed == !active
    }

    lemma Settled(w: Writer)
      requires Inv(TheKind(), w) && State() == w
      requires writeErrors == Errors(done) && streamClosed == !active
      ensures Valid()
    {
    }

    /** What goes out of the `i`-th message posted. */
    function Outgoing(i: nat, message: seq<byte>): seq<byte> {
      if transforming then onTransformMessage(i, message) else message
    }

    /** What goes out of all messages posted. */
    function AllOutgoing(messages: seq<seq<byte>>): (r: seq<seq<byte>>)
      ensures |r| == |messages|
      ensures forall i :: 0 <= i < |r| ==>
        r[i] == if transforming then onTransformMessage(i, messages[i]) else messages[i]
    {
      seq(|messages|, i requires 0 <= i < |messages| => Outgoing(i, messages[i]))
    }

    /**
     * Without errors the wire carries a first part of the messages posted, in order, each
     * transformed once if the option was given, and all of them when the queue is empty.
     */
    lemma WireIsPosted()
      requires Valid() && (forall o :: o in done ==> !o.error) && !(flight.Completed? && flight.error)
      ensures wire <= Flatten(AllOutgoing(posted)) && (writeQueue == [] ==> wire == Flatten(AllOutgoing(posted)))
    {
      WireOfErrorFree(TheKind(), State());
      assert Transformed(TheKind(), posted) == AllOutgoing(posted);
    }

    /** Closed or not, a write is in flight exactly when messages wait: closing stops nothing. */
    lemma BusyOrEmpty()
      requires Valid()
      ensures writeQueue == [] <==> flight == Idle
      ensures flight.Started? ==> flight.total == offset && flight.total + flight.length == |writeQueue[0]|
    {
    }

    constructor (transforming: bool, onTransformMessage: Transform)
      ensures Valid() && State() == INIT
      ensures this.transforming == transforming && this.onTransformMessage == onTransformMessage
    {
      this.transforming, this.onTransformMessage := transforming, onTransformMessage;
      active, writeQueue, flight, transforms := true, [], Idle, 0;
      writeErrors, streamClosed := 0, false;
      wire, offset, pieces, done, posted := [], 0, [], [], [];
    }

    method AsyncWrite(length: nat, total: nat)
      modifies `flight
      ensures State() == Q.AsyncWrite(TheKind(), old(State()), length, total)
      ensures flight == Started(length, total)
    {
      flight := Started(length, total);
    }

    method AsyncWriteTop()
      requires writeQueue != []
      modifies `writeQueue, `flight, `transforms
      ensures State() == StartHead(TheKind(), old(State()))
      ensures writeQueue == old(writeQueue)[0 := Outgoing(old(transforms), old(writeQueue)[0])]
      ensures flight == Started(|writeQueue[0]|, 0)
    {
      if transforming {
        AsyncWriteTransform();
      } else {
        AsyncWriteNoTransform();
      }
    }

    method AsyncWriteTransform()
      requires writeQueue != [] && transforming
      modifies `writeQueue, `flight, `transforms
      ensures State() == StartHead(TheKind(), old(State()))
      ensures writeQueue == old(writeQueue)[0 := onTransformMessage(old(transforms), old(writeQueue)[0])]
      ensures flight == Started(|writeQueue[0]|, 0) && transforms == old(transforms) + 1
    {
      writeQueue := writeQueue[0 := onTransformMessage(transforms, writeQueue[0])];
      transforms := transforms + 1;
      AsyncWrite(|writeQueue[0]|, 0);
    }

    method AsyncWriteNoTransform()
      requires writeQueue != [] && !transforming
      modifies `flight, `transforms
      ensures State() == StartHead(TheKind(), old(State()))
      ensures flight == Started(|writeQueue[0]|, 0) && transforms == old(transforms) + 1
    {
      assert writeQueue == writeQueue[0 := writeQueue[0]];
      transforms := transforms + 1;
      AsyncWrite(|writeQueue[0]|, 0);
    }

    method WriteImpl(data: seq<byte>)
      requires Valid()
      modifies this
      ensures Valid() && State() == Apply(TheKind(), old(State()), Post(data))
      ensures posted == old(posted) + [data]
      ensures if old(writeQueue) != [] then writeQueue == old(writeQueue) + [data] && flight == old(flight)
        else writeQueue == [Outgoing(old(transforms), data)] && flight == Started(|writeQueue[0]|, 0)
    {
      ApplyKeepsInv(TheKind(), State(), Post(data));
      var empty := writeQueue == [];
      posted := posted + [data];
      writeQueue := writeQueue + [data];
      if empty {
        AsyncWriteTop();
      }
    }

    /** The socket's part: it takes the first `bytes` bytes it was given and queues the handler. */
    method SocketTakes(bytes: nat, error: bool)
      requires Valid() && flight.Started? && bytes <= flight.length
      modifies `flight, `wire, `offset, `pieces
      ensures Valid() && State() == Apply(TheKind(), old(State()), Transfer(bytes, error))
    {
      ghost var next := Apply(TheKind(), State(), Transfer(bytes, error));
      ApplyKeepsInv(TheKind(), State(), Transfer(bytes, error));
      var total := flight.total;
      wire := wire + writeQueue[0][total..total + bytes];
      offset, pieces := offset + bytes, pieces + [bytes];
      flight := Completed(flight.length, total, bytes, error);
      Settled(next);
    }

    method WriteHandler(error: bool, bytes: nat, length: nat, bound: nat)
      requires Valid() && flight == Completed(length, bound, bytes, error)
      modifies `writeQueue, `flight, `transforms, `offset, `pieces, `done, `writeErrors
      ensures Valid() && State() == Apply(TheKind(), old(State()), Handle)
    {
      ghost var next := Apply(TheKind(), State(), Handle);
      ApplyKeepsInv(TheKind(), State(), Handle);
      GoOnOrFinish(error, bytes, length, bound);
      Settled(next);
    }

    /** The handler's body: what is left of the head message is written, or the message is finished. */
    method GoOnOrFinish(error: bool, bytes: nat, length: nat, bound: nat)
      requires flight == Completed(length, bound, bytes, error)
      requires writeQueue != [] && bound + bytes <= |writeQueue[0]|
      modifies `writeQueue, `flight, `transforms, `offset, `pieces, `done, `writeErrors
      ensures State() == Q.WriteHandler(TheKind(), old(State()))
      ensures writeErrors - old(writeErrors) == Errors(done) - Errors(old(done))
    {
      var top := writeQueue[0];
      if !error && bytes < length {
        var total := bound + bytes;
        AsyncWrite(|top| - total, total);
      } else {
        FinishTop(error, bytes);
      }
    }

    /** Call back, pop, and start the next message. */
    method FinishTop(error: bool, bytes: nat)
      requires writeQueue != []
      modifies `writeQueue, `flight, `transforms, `offset, `pieces, `done, `writeErrors
      ensures State() == FinishHead(TheKind(), old(State()), error, bytes)
      ensures writeErrors == old(writeErrors) + (if error then 1 else 0)
      ensures Errors(done) == Errors(old(done)) + (if error then 1 else 0)
    {
      Success(error, bytes);
      if error {
        writeErrors := writeErrors + 1;
      }
      QueuePop();
      if writeQueue != [] {
        AsyncWriteTop();
      }
    }

    method QueuePop()
      requires writeQueue != []
      modifies `writeQueue, `flight, `offset, `pieces
      ensures writeQueue == old(writeQueue)[1..] && flight == Idle && offset == 0 && pieces == []
    {
      writeQueue := writeQueue[1..];
      flight, offset, pieces := Idle, 0, [];
    }

    /** The message's own callback, told only whether there was an error. */
    ghost method Success(error: bool, bytes: nat)
      requires writeQueue != []
      modifies `done
      ensures done == old(done) + [Outcome(writeQueue[0], offset, error, bytes, pieces)]
      ensures Errors(done) == Errors(old(done)) + (if error then 1 else 0)
    {
      var before, o := done, Outcome(writeQueue[0], offset, error, bytes, pieces);
      done := before + [o];
      ErrorsMore(before, o, done);
    }

    method CloseImpl()
      requires Valid()
      modifies `active, `streamClosed
      ensures Valid() && State() == Apply(TheKind(), old(State()), Close) && streamClosed
    {
      ghost var next := Apply(TheKind(), State(), Close);
      ApplyKeepsInv(TheKind(), State(), Close);
      if active {
        active := false;
        streamClosed := true;
      }
      Settled(next);
    }
  }
}
