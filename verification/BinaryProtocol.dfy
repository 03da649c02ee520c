/** `protocol::binary` with its default tag policy: checksummed blocks over the buffering decoder. */
module BinaryProtocol {
  import opened Bytes
  import opened SizePolicy
  import opened Framing
  import opened Packer
  import M = MessageDelegate
  import Crc

  datatype Option<T> = None | Some(value: T)

  const HASH_SIZE := 4

  /** A body followed by its checksum. */
  function Seal(body: seq<byte>): seq<byte> {
    body + Crc.Checksum(body)
  }

  /** The body of a block that ends in its own checksum. */
  function Open(block: seq<byte>): Option<seq<byte>> {
    if |block| < HASH_SIZE then None
    else
      var body := block[..|block| - HASH_SIZE];
      if block[|body|..] == Crc.Checksum(body) then Some(body) else None
  }

  /** What reaches `on_message_ready`, and how many blocks are refused. */
  function Ready(blocks: seq<seq<byte>>): seq<seq<byte>> {
    if blocks == [] then []
    else (if Open(blocks[0]).Some? then [Open(blocks[0]).value] else []) + Ready(blocks[1..])
  }

  function Refused(blocks: seq<seq<byte>>): nat {
    if blocks == [] then 0 else (if Open(blocks[0]).Some? then 0 else 1) + Refused(blocks[1..])
  }

  function Seals(bodies: seq<seq<byte>>): (s: seq<seq<byte>>)
    ensures |s| == |bodies|
  {
    seq(|bodies|, i requires 0 <= i < |bodies| => Seal(bodies[i]))
  }

  /** Opening undoes sealing and nothing else opens to the body. */
  lemma OpenIffSealed(block: seq<byte>, body: seq<byte>)
    ensures Open(block) == Some(body) <==> block == Seal(body)
  {
    if |block| >= HASH_SIZE {
      assert block == block[..|block| - HASH_SIZE] + block[|block| - HASH_SIZE..];
    }
    assert Seal(body)[..|body|] == body && Seal(body)[|body|..] == Crc.Checksum(body);
  }

  /** A block whose body was changed within four consecutive bytes is refused. */
  lemma CorruptedBodyRefused(before: seq<byte>, x: seq<byte>, y: seq<byte>, after: seq<byte>)
    requires |x| == |y| <= 4 && x != y
    ensures Open(before + y + after + Crc.Checksum(before + x + after)) == None
  {
    var bad, sum := before + y + after, Crc.Checksum(before + x + after);
    Crc.FourByteChangeDetected(before, x, y, after);
    assert (bad + sum)[..|bad|] == bad && (bad + sum)[|bad|..] == sum;
  }

  lemma {:induction false} ReadyAppend(xs: seq<seq<byte>>, ys: seq<seq<byte>>)
    ensures Ready(xs + ys) == Ready(xs) + Ready(ys) && Refused(xs + ys) == Refused(xs) + Refused(ys)
  {
    if xs == [] {
      assert xs + ys == ys;
    } else {
      assert (xs + ys)[0] == xs[0] && (xs + ys)[1..] == xs[1..] + ys;
      ReadyAppend(xs[1..], ys);
    }
  }

  lemma {:induction false} ReadySeals(bodies: seq<seq<byte>>)
    ensures Ready(Seals(bodies)) == bodies && Refused(Seals(bodies)) == 0
  {
    if bodies != [] {
      OpenIffSealed(Seal(bodies[0]), bodies[0]);
      assert Seals(bodies)[1..] == Seals(bodies[1..]);
      ReadySeals(bodies[1..]);
    }
  }

  /** A block opens exactly if it is some body followed by that body's checksum. */
  lemma OpensIffSealed(block: seq<byte>)
    ensures Open(block).Some? <==> exists body :: block == body + Crc.Checksum(body)
  {
    if Open(block).Some? {
      OpenIffSealed(block, Open(block).value);
    }
    forall body | block == body + Crc.Checksum(body) ensures Open(block) == Some(body) {
      OpenIffSealed(block, body);
    }
  }

  /** Only bodies that came with their checksum are made ready, and every other block is refused. */
  lemma {:induction false} ReadyWasSealed(blocks: seq<seq<byte>>)
    ensures forall body :: body in Ready(blocks) <==> body + Crc.Checksum(body) in blocks
    ensures |Ready(blocks)| + Refused(blocks) == |blocks|
  {
    if blocks != [] {
      ReadyWasSealed(blocks[1..]);
      forall body ensures body in Ready(blocks) <==> body + Crc.Checksum(body) in blocks {
        OpenIffSealed(blocks[0], body);
        assert body + Crc.Checksum(body) in blocks
          <==> body + Crc.Checksum(body) == blocks[0] || body + Crc.Checksum(body) in blocks[1..];
      }
    }
  }

  lemma ReadyOne(m: seq<byte>)
    ensures Ready([m]) == (if Open(m).Some? then [Open(m).value] else [])
    ensures Refused([m]) == if Open(m).Some? then 0 else 1
  {
    assert [m][1..] == [];
  }

  /** Each body's block fits the size type and the protocol's limit. */
  predicate Fit(p: Policy, maxLength: nat, bodies: seq<seq<byte>>) {
    forall b :: b in bodies ==> |b| + HASH_SIZE < Limit(p) && |b| + HASH_SIZE <= maxLength
  }

  /** The bytes a sender makes of the bodies: each sealed, then given its size by the framer. */
  function Wire(p: Policy, bodies: seq<seq<byte>>): seq<byte> {
    if bodies == [] then [] else Packed(p, Seal(bodies[0])) + Wire(p, bodies[1..])
  }

  /** Blocks are never empty, so the framer frames all that fit. */
  lemma {:induction false} WireIsStream(p: Policy, bodies: seq<seq<byte>>)
    requires forall b :: b in bodies ==> |b| + HASH_SIZE < Limit(p)
    ensures Wire(p, bodies) == Stream(p, Seals(bodies))
  {
    if bodies != [] {
      assert bodies[0] in bodies;
      PackedIsFrame(p, Seal(bodies[0]));
      WireIsStream(p, bodies[1..]);
      assert Seals(bodies)[0] == Seal(bodies[0]) && Seals(bodies)[1..] == Seals(bodies[1..]);
      StreamCons(p, Seals(bodies));
    }
  }

  /**
   * Sealed and framed bodies, cut into any chunks, all come out as they went in; none is refused
   * and the decoder never fails.
   */
  lemma SealedStreamDelivered(p: Policy, maxLength: nat, bodies: seq<seq<byte>>, chunks: seq<seq<byte>>)
    requires Fit(p, maxLength, bodies) && Flatten(chunks) == Wire(p, bodies)
    ensures var run := M.Run(p, n => n <= maxLength, [], chunks);
      && Ready(M.Payloads(run.0)) == bodies && Refused(M.Payloads(run.0)) == 0
      && M.Error !in run.0 && run.1 == []
  {
    var accept: Validator := n => n <= maxLength;
    WireParses(p, maxLength, bodies);
    WireIsStream(p, bodies);
    SealsCarried(p, accept, bodies);
    assert [] + Flatten(chunks) == Flatten(chunks) && Parse(p, accept, []) == Parsed([], []);
    M.ChunkingIndependence(p, accept, [], chunks);
    M.WellFormedNeverFails(p, accept, Seals(bodies), [], chunks);
  }

  lemma WireParses(p: Policy, maxLength: nat, bodies: seq<seq<byte>>)
    requires Fit(p, maxLength, bodies)
    ensures var r := Parse(p, n => n <= maxLength, Wire(p, bodies));
      r.rest == [] && Ready(r.messages) == bodies && Refused(r.messages) == 0
  {
    var accept: Validator := n => n <= maxLength;
    WireIsStream(p, bodies);
    SealsCarried(p, accept, bodies);
    ReadySeals(bodies);
    ParseStream(p, accept, Seals(bodies));
  }

  lemma SealsCarried(p: Policy, accept: Validator, bodies: seq<seq<byte>>)
    requires forall b :: b in bodies ==> |b| + HASH_SIZE < Limit(p) && accept(|b| + HASH_SIZE)
    ensures forall m :: m in Seals(bodies) ==> Carried(p, accept, m)
  {
    forall m | m in Seals(bodies) ensures Carried(p, accept, m) {
      var i :| 0 <= i < |bodies| && Seals(bodies)[i] == m;
      assert bodies[i] in bodies;
    }
  }

  class Binary {
    const decoder: M.Decoder
    var ready: seq<seq<byte>>
    /** Calls of `transport_->close` made for bad data, and of `transport_->read`. */
    var closeCalls: nat
    var readCalls: nat
    /** Messages of the decoder already passed to `OnMessage`. */
    ghost var seen: seq<seq<byte>>

    /** Up to the `n`-th of its callbacks, the decoder's are reflected one for one. */
    ghost predicate Reflects(n: nat)
      reads this, decoder
      requires n <= |decoder.events|
    {
      var es := decoder.events[..n];
      && seen == M.Payloads(es) && ready == Ready(seen)
      && closeCalls == Refused(seen) + multiset(es)[M.Error] && readCalls == multiset(es)[M.NeedRead]
    }

    /** Everything ready or refused so far is what the received bytes contain. */
    ghost predicate Valid()
      reads this, decoder
    {
      decoder.Valid() && Reflects(|decoder.events|)
    }

    constructor (policy: Policy, maxLength: nat)
      ensures Valid() && fresh(decoder) && ready == [] && closeCalls == 0
      ensures decoder.received == [] && decoder.unpacked == [] && decoder.events == []
      ensures decoder.policy == policy && decoder.accept == (n => n <= maxLength)
    {
      decoder := new M.Decoder(policy, n => n <= maxLength);
      ready, closeCalls, readCalls, seen := [], 0, 0, [];
    }

    lemma Tally()
      requires Valid()
      ensures ready == Ready(M.Payloads(decoder.events))
      ensures closeCalls == Refused(M.Payloads(decoder.events)) + multiset(decoder.events)[M.Error]
      ensures readCalls == multiset(decoder.events)[M.NeedRead]
    {
      var es := decoder.events;
      assert es[..|es|] == es;
    }

    /** Once exactly the sealed and framed bodies have come in, exactly they are ready and nothing is left over. */
    lemma BodiesReady(maxLength: nat, bodies: seq<seq<byte>>)
      requires Valid() && decoder.accept == (n => n <= maxLength)
      requires Fit(decoder.policy, maxLength, bodies) && decoder.received == Wire(decoder.policy, bodies)
      ensures ready == bodies && decoder.unpacked == []
    {
      Tally();
      WireParses(decoder.policy, maxLength, bodies);
    }

    /** If the bytes came in as those chunks, the transport has not been closed either. */
    lemma NothingClosed(maxLength: nat, bodies: seq<seq<byte>>, chunks: seq<seq<byte>>)
      requires Valid() && decoder.accept == (n => n <= maxLength)
      requires decoder.events == M.Run(decoder.policy, decoder.accept, [], chunks).0
      requires Fit(decoder.policy, maxLength, bodies) && Flatten(chunks) == Wire(decoder.policy, bodies)
      ensures closeCalls == 0
    {
      Tally();
      SealedStreamDelivered(decoder.policy, maxLength, bodies, chunks);
    }

    method OnMessage(m: seq<byte>)
      modifies `ready, `closeCalls, `seen
      ensures seen == old(seen) + [m]
      ensures ready == old(ready) + Ready([m]) && closeCalls == old(closeCalls) + Refused([m])
      ensures forall body :: m == body + Crc.Checksum(body) ==>
        ready == old(ready) + [body] && closeCalls == old(closeCalls)
      ensures (forall body :: m != body + Crc.Checksum(body)) ==>
        ready == old(ready) && closeCalls == old(closeCalls) + 1
    {
      ReadyOne(m);
      OpensIffSealed(m);
      forall body | m == body + Crc.Checksum(body) ensures Open(m) == Some(body) {
        OpenIffSealed(m, body);
      }
      seen := seen + [m];
      assert [m][1..] == [];
      if |m| >= HASH_SIZE {
        var ok := Crc.Check(m[..|m| - HASH_SIZE], m[|m| - HASH_SIZE..]);
        if !ok {
          closeCalls := closeCalls + 1;
          return;
        }
      } else {
        closeCalls := closeCalls + 1;
        return;
      }
      ready := ready + [m[..|m| - HASH_SIZE]];
    }

    /** One callback of the decoder. */
    method Callback(e: M.Event, ghost n: nat)
      requires n < |decoder.events| && e == decoder.events[n] && Reflects(n)
      modifies `ready, `closeCalls, `readCalls, `seen
      ensures Reflects(n + 1)
    {
      assert decoder.events[..n + 1] == decoder.events[..n] + [e];
      M.PayloadsAppend(decoder.events[..n], [e]);
      assert [e][1..] == [];
      match e
      case Message(m) =>
        ReadyAppend(seen, [m]);
        OnMessage(m);
      case Error => closeCalls := closeCalls + 1;
      case NeedRead => readCalls := readCalls + 1;
    }

    /** The decoder's callbacks take effect in the order the decoder makes them. */
    method OnData(data: seq<byte>)
      requires Valid()
      modifies this, decoder
      ensures Valid() && decoder.received == old(decoder.received) + data
      ensures var buffered := old(decoder.unpacked) + data;
        && decoder.events == old(decoder.events) + M.OnDataEvents(decoder.policy, decoder.accept, buffered)
        && decoder.unpacked == Parse(decoder.policy, decoder.accept, buffered).rest
    {
      var i := |decoder.events|;
      ghost var before := decoder.events;
      decoder.OnData(data);
      assert decoder.events[..i] == before[..i];
      TakeCalls(i);
    }

    /** The decoder's calls from the `from`-th on. */
    method TakeCalls(from: nat)
      requires from <= |decoder.events| && Reflects(from)
      modifies this
      ensures Reflects(|decoder.events|)
    {
      var i := from;
      while i < |decoder.events|
        invariant i <= |decoder.events| && Reflects(i)
        decreases |decoder.events| - i
      {
        Callback(decoder.events[i], i);
        i := i + 1;
      }
    }

    /** The reads of a connection, each chunk handed over as it comes in. */
    method OnReads(chunks: seq<seq<byte>>)
      requires Valid()
      modifies this, decoder
      ensures Valid() && decoder.received == old(decoder.received) + Flatten(chunks)
      ensures var run := M.Run(decoder.policy, decoder.accept, old(decoder.unpacked), chunks);
        decoder.events == old(decoder.events) + run.0 && decoder.unpacked == run.1
    {
      var i := 0;
      ghost var p, accept, before, start := decoder.policy, decoder.accept, decoder.events, decoder.received;
      ghost var run := M.Run(p, accept, decoder.unpacked, chunks);
      assert chunks[0..] == chunks;
      while i < |chunks|
        invariant i <= |chunks| && Valid()
        invariant decoder.received + Flatten(chunks[i..]) == start + Flatten(chunks)
        invariant GoesOn(decoder.events, M.Run(p, accept, decoder.unpacked, chunks[i..]), before, run)
      {
        ReadGoesOn(p, accept, decoder.unpacked, decoder.events, decoder.received, chunks, i, before, run);
        OnData(chunks[i]);
        i := i + 1;
      }
      assert chunks[|chunks|..] == [];
      EndOfReads(decoder.events, decoder.unpacked, before, run);
    }
  }

  /** The calls made so far and those to come are all the calls of the run. */
  predicate GoesOn(events: seq<M.Event>, later: (seq<M.Event>, seq<byte>), before: seq<M.Event>,
                   run: (seq<M.Event>, seq<byte>))
  {
    events + later.0 == before + run.0 && later.1 == run.1
  }

  lemma ReadGoesOn(p: Policy, accept: Validator, buffer: seq<byte>, events: seq<M.Event>, received: seq<byte>,
                   chunks: seq<seq<byte>>, i: nat, before: seq<M.Event>, run: (seq<M.Event>, seq<byte>))
    requires i < |chunks| && GoesOn(events, M.Run(p, accept, buffer, chunks[i..]), before, run)
    ensures var now := buffer + chunks[i];
      GoesOn(events + M.OnDataEvents(p, accept, now), M.Run(p, accept, Parse(p, accept, now).rest, chunks[i + 1..]),
             before, run)
    ensures received + chunks[i] + Flatten(chunks[i + 1..]) == received + Flatten(chunks[i..])
  {
    assert chunks[i..][0] == chunks[i] && chunks[i..][1..] == chunks[i + 1..];
    var now := buffer + chunks[i];
    var later := M.Run(p, accept, Parse(p, accept, now).rest, chunks[i + 1..]);
    Associative(events, M.OnDataEvents(p, accept, now), later.0);
    Associative(received, chunks[i], Flatten(chunks[i + 1..]));
  }

  lemma EndOfReads(events: seq<M.Event>, buffer: seq<byte>, before: seq<M.Event>, run: (seq<M.Event>, seq<byte>))
    requires GoesOn(events, ([], buffer), before, run)
    ensures events == before + run.0 && buffer == run.1
  {
    assert events + [] == events;
  }

  /** A new connection that reads the sealed and framed bodies in any chunks has them all, and stays open. */
  method ReadBodies(p: Policy, maxLength: nat, chunks: seq<seq<byte>>, ghost bodies: seq<seq<byte>>) returns (b: Binary)
    requires Fit(p, maxLength, bodies) && Flatten(chunks) == Wire(p, bodies)
    ensures b.ready == bodies && b.closeCalls == 0 && b.decoder.unpacked == []
  {
    b := new Binary(p, maxLength);
    b.OnReads(chunks);
    assert [] + Flatten(chunks) == Flatten(chunks);
    b.BodiesReady(maxLength, bodies);
    assert [] + M.Run(p, b.decoder.accept, [], chunks).0 == M.Run(p, b.decoder.accept, [], chunks).0;
    b.NothingClosed(maxLength, bodies, chunks);
  }
}
