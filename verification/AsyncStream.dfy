/** `transport::async::stream` with `async::base`: a write queue that starts nothing once closed. */
module AsyncStream {
  import opened Bytes
  import Q = WriteQueue
  import opened WriteQueue

  const KIND := Kind(true, (n, m) => m)

  class Stream {
    var active: bool
    var writeQueue: seq<seq<byte>>
    /** The operation the socket holds, with the arguments bound into its handler. */
    var flight: Flight
    /** Calls of the delegate's `on_write_error` and `on_close`, and of the socket's `close`. */
    var writeErrors: nat
    var closeCalls: nat
    var socketClosed: bool
    ghost var transforms: nat
    ghost var wire: seq<byte>
    ghost var offset: nat
    ghost var pieces: seq<nat>
    ghost var done: seq<Outcome>
    ghost var posted: seq<seq<byte>>

    ghost function State(): Writer
      reads this
    {
      Writer(active, writeQueue, flight, transforms, wire, offset, pieces, done, posted)
    }

    /** Each failed message has been reported once to the delegate, and closing once if ever. */
    ghost predicate Valid()
      reads this
    {
      && Inv(KIND, State())
      && writeErrors == Errors(done)
      && closeCalls == (if active then 0 else 1) && socketClosed == !active
    }

    lemma Settled(w: Writer)
      requires Inv(KIND, w) && State() == w
      requires writeErrors == Errors(done) && closeCalls == (if active then 0 else 1) && socketClosed == !active
      ensures Valid()
    {
    }

    /**
     * Without errors the wire carries a first part of the messages posted, in order and as they
     * are, and all of them when the queue is empty.
     */
    lemma WireIsPosted()
      requires Valid() && (forall o :: o in done ==> !o.error) && !(flight.Completed? && flight.error)
      ensures wire <= Flatten(posted) && (writeQueue == [] ==> wire == Flatten(posted))
    {
      WireOfErrorFree(KIND, State());
      assert Transformed(KIND, posted) == posted;
    }

    /** While open a write is in flight exactly when messages wait. */
    lemma BusyOrEmpty()
      requires Valid() && active
      ensures writeQueue == [] <==> flight == Idle
      ensures flight.Started? ==> flight.total == offset && flight.total + flight.length == |writeQueue[0]|
    {
    }

    constructor ()
      ensures Valid() && State() == INIT
    {
      active, writeQueue, flight := true, [], Idle;
      writeErrors, closeCalls, socketClosed := 0, 0, false;
      transforms, wire, offset, pieces, done, posted := 0, [], 0, [], [], [];
    }

    method AsyncWrite(length: nat, total: nat)
      modifies `flight
      ensures State() == Q.AsyncWrite(KIND, old(State()), length, total)
      ensures flight == if active then Started(length, total) else Idle
    {
      if active {
        flight := Started(length, total);
      } else {
        flight := Idle;
      }
    }

    method AsyncWriteTop()
      requires writeQueue != []
      modifies `flight, `transforms
      ensures State() == StartHead(KIND, old(State()))
      ensures flight == if active then Started(|writeQueue[0]|, 0) else Idle
    {
      assert writeQueue == writeQueue[0 := writeQueue[0]];
      transforms := transforms + 1;
      AsyncWrite(|writeQueue[0]|, 0);
    }

    method WriteImpl(data: seq<byte>)
      requires Valid()
      modifies this
      ensures Valid() && State() == Apply(KIND, old(State()), Post(data))
      ensures posted == old(posted) + [data] && writeQueue == old(writeQueue) + [data]
      ensures flight == if old(writeQueue) != [] then old(flight) else if active then Started(|data|, 0) else Idle
    {
      ApplyKeepsInv(KIND, State(), Post(data));
      var empty := writeQueue == [];
      posted := posted + [data];
      writeQueue := writeQueue + [data];
      if empty {
        AsyncWriteTop();
      }
    }

    /** The socket's part: it takes the first `bytes` bytes it was given and queues the handler. */
    method SocketTakes(bytes: nat, error: bool)
      requires Valid() && flight.Started? && bytes <= flight.length
      modifies `flight, `wire, `offset, `pieces
      ensures Valid() && State() == Apply(KIND, old(State()), Transfer(bytes, error))
    {
      ghost var next := Apply(KIND, State(), Transfer(bytes, error));
      ApplyKeepsInv(KIND, State(), Transfer(bytes, error));
      var total := flight.total;
      wire := wire + writeQueue[0][total..total + bytes];
      offset, pieces := offset + bytes, pieces + [bytes];
      flight := Completed(flight.length, total, bytes, error);
      Settled(next);
    }

    method WriteHandler(error: bool, bytes: nat, length: nat, bound: nat)
      requires Valid() && flight == Completed(length, bound, bytes, error)
      modifies `writeQueue, `flight, `transforms, `offset, `pieces, `done, `writeErrors
      ensures Valid() && State() == Apply(KIND, old(State()), Handle)
      ensures !active ==> flight == Idle
    {
      ghost var next := Apply(KIND, State(), Handle);
      ApplyKeepsInv(KIND, State(), Handle);
      GoOnOrFinish(error, bytes, length, bound);
      Settled(next);
    }

    /** The handler's body: what is left of the head message is written, or the message is finished. */
    method GoOnOrFinish(error: bool, bytes: nat, length: nat, bound: nat)
      requires flight == Completed(length, bound, bytes, error)
      requires writeQueue != [] && bound + bytes <= |writeQueue[0]|
      modifies `writeQueue, `flight, `transforms, `offset, `pieces, `done, `writeErrors
      ensures State() == Q.WriteHandler(KIND, old(State()))
      ensures writeErrors - old(writeErrors) == Errors(done) - Errors(old(done))
    {
      var top := writeQueue[0];
      if !error && bytes < length {
        var total := bound + bytes;
        AsyncWrite(|top| - total, total);
      } else {
        FinishTop(error, bytes);
      }
    }

    /** Call back, pop, and start the next message. */
    method FinishTop(error: bool, bytes: nat)
      requires writeQueue != []
      modifies `writeQueue, `flight, `transforms, `offset, `pieces, `done, `writeErrors
      ensures State() == FinishHead(KIND, old(State()), error, bytes)
      ensures writeErrors == old(writeErrors) + (if error then 1 else 0)
      ensures Errors(done) == Errors(old(done)) + (if error then 1 else 0)
    {
      PostCall(error, bytes);
      if error {
        writeErrors := writeErrors + 1;
      }
      QueuePop();
      if writeQueue != [] {
        AsyncWriteTop();
      }
    }

    method QueuePop()
      requires writeQueue != []
      modifies `writeQueue, `flight, `offset, `pieces
      ensures writeQueue == old(writeQueue)[1..] && flight == Idle && offset == 0 && pieces == []
    {
      writeQueue := writeQueue[1..];
      flight, offset, pieces := Idle, 0, [];
    }

    /** The message's own callback, told of the last piece only. */
    ghost method PostCall(error: bool, bytes: nat)
      requires writeQueue != []
      modifies `done
      ensures done == old(done) + [Outcome(writeQueue[0], offset, error, bytes, pieces)]
      ensures Errors(done) == Errors(old(done)) + (if error then 1 else 0)
    {
      var before, o := done, Outcome(writeQueue[0], offset, error, bytes, pieces);
      done := before + [o];
      ErrorsMore(before, o, done);
    }

    method CloseUnsafe()
      requires Valid()
      modifies `active, `closeCalls, `socketClosed
      ensures Valid() && State() == Apply(KIND, old(State()), Close)
      ensures socketClosed && closeCalls == old(closeCalls) + (if old(active) then 1 else 0)
    {
      ghost var next := Apply(KIND, State(), Close);
      ApplyKeepsInv(KIND, State(), Close);
      if active {
        closeCalls := closeCalls + 1;
        socketClosed := true;
        active := false;
      }
      Settled(next);
    }
  }
}
