/** The buffering decoder: bytes are kept until a frame is whole, then its payload is handed on. */
module MessageDelegate {
  import opened Bytes
  import opened SizePolicy
  import opened Framing

  /** The callbacks a delegate makes, in order. */
  datatype Event = Message(payload: seq<byte>) | Error | NeedRead

  function Delivered(messages: seq<seq<byte>>): (es: seq<Event>)
    ensures |es| == |messages|
  {
    seq(|messages|, i requires 0 <= i < |messages| => Message(messages[i]))
  }

  /** The payloads handed to `on_message`. */
  function Payloads(es: seq<Event>): seq<seq<byte>> {
    if es == [] then []
    else (if es[0].Message? then [es[0].payload] else []) + Payloads(es[1..])
  }

  /** Callbacks of one `on_data`, `buffered` being the kept bytes together with the new ones. */
  function OnDataEvents(p: Policy, accept: Validator, buffered: seq<byte>): seq<Event> {
    var r := Parse(p, accept, buffered);
    Delivered(r.messages) + (if Overlong(p, r.rest) then [Error] else []) + [NeedRead]
  }

  /** A decoder holding `buffer` is given the chunks one by one. */
  function Run(p: Policy, accept: Validator, buffer: seq<byte>, chunks: seq<seq<byte>>): (seq<Event>, seq<byte>)
    decreases |chunks|
  {
    if chunks == [] then ([], buffer)
    else
      var later := Run(p, accept, Parse(p, accept, buffer + chunks[0]).rest, chunks[1..]);
      (OnDataEvents(p, accept, buffer + chunks[0]) + later.0, later.1)
  }

  lemma {:induction false} PayloadsAppend(xs: seq<Event>, ys: seq<Event>)
    ensures Payloads(xs + ys) == Payloads(xs) + Payloads(ys)
  {
    if xs == [] {
      assert xs + ys == ys;
    } else {
      assert (xs + ys)[0] == xs[0] && (xs + ys)[1..] == xs[1..] + ys;
      PayloadsAppend(xs[1..], ys);
    }
  }

  lemma {:induction false} PayloadsDelivered(ms: seq<seq<byte>>)
    ensures Payloads(Delivered(ms)) == ms
  {
    if ms != [] {
      assert Delivered(ms)[1..] == Delivered(ms[1..]);
      PayloadsDelivered(ms[1..]);
    }
  }

  lemma OnDataPayloads(p: Policy, accept: Validator, buffered: seq<byte>)
    ensures Payloads(OnDataEvents(p, accept, buffered)) == Parse(p, accept, buffered).messages
  {
    var r := Parse(p, accept, buffered);
    var error := if Overlong(p, r.rest) then [Error] else [];
    PayloadsAppend(Delivered(r.messages) + error, [NeedRead]);
    PayloadsAppend(Delivered(r.messages), error);
    PayloadsDelivered(r.messages);
    assert [NeedRead][1..] == [] && [Error][1..] == [];
  }

  /** Handling one more chunk keeps the link between all the bytes seen and all the callbacks made. */
  lemma Continue(p: Policy, accept: Validator, received: seq<byte>,
                 events: seq<Event>, buffer: seq<byte>, data: seq<byte>)
    requires Parse(p, accept, received) == Parsed(Payloads(events), buffer)
    ensures Parse(p, accept, received + data)
      == Parsed(Payloads(events + OnDataEvents(p, accept, buffer + data)), Parse(p, accept, buffer + data).rest)
  {
    ParseAppend(p, accept, received, data);
    PayloadsAppend(events, OnDataEvents(p, accept, buffer + data));
    OnDataPayloads(p, accept, buffer + data);
  }

  lemma CallsOfOnData(p: Policy, accept: Validator, buffered: seq<byte>, before: seq<Event>)
    ensures var r := Parse(p, accept, buffered);
      before + Delivered(r.messages) + (if Overlong(p, r.rest) then [Error] else []) + [NeedRead]
        == before + OnDataEvents(p, accept, buffered)
  {
  }

  /** The callbacks of one `on_data`, the error told by the bytes that are kept. */
  lemma CallsSpelled(p: Policy, accept: Validator, buffered: seq<byte>, before: seq<Event>)
    ensures var r := Parse(p, accept, buffered);
      before + OnDataEvents(p, accept, buffered) == before + Delivered(r.messages)
        + if |r.rest| > MaxLength(p) && !HasSize(p, r.rest) then [Error, NeedRead] else [NeedRead]
  {
  }

  lemma DeliveredCons(events: seq<Event>, m: seq<byte>, later: seq<seq<byte>>)
    ensures events + Delivered([m] + later) == events + [Message(m)] + Delivered(later)
  {
    assert Delivered([m] + later) == [Message(m)] + Delivered(later);
  }

  /** Delivering the first whole frame of `s` brings the callbacks one closer to all those `s` calls for. */
  lemma TakeFrame(p: Policy, accept: Validator, s: seq<byte>, len: nat, size: nat, events: seq<Event>)
    requires HasFrame(p, accept, s) && len == SizeLength(p, s) && size == Unpack(p, s)
    ensures Parse(p, accept, s).rest == Parse(p, accept, s[len + size..]).rest
    ensures events + Delivered(Parse(p, accept, s).messages)
         == events + [Message(s[len..len + size])] + Delivered(Parse(p, accept, s[len + size..]).messages)
  {
    DeliveredCons(events, s[len..len + size], Parse(p, accept, s[len + size..]).messages);
  }

  lemma OnDataFailsOnlyIfOverlong(p: Policy, accept: Validator, buffered: seq<byte>)
    ensures Error in OnDataEvents(p, accept, buffered) <==> Overlong(p, Parse(p, accept, buffered).rest)
  {
    var r := Parse(p, accept, buffered);
    if Overlong(p, r.rest) {
      assert OnDataEvents(p, accept, buffered)[|r.messages|] == Error;
    }
  }

  /** However the input is cut, the messages and the residue are those of the uncut input. */
  lemma {:induction false} ChunkingIndependence(p: Policy, accept: Validator, buffer: seq<byte>, chunks: seq<seq<byte>>)
    requires !HasFrame(p, accept, buffer)
    ensures var run := Run(p, accept, buffer, chunks);
      Parse(p, accept, buffer + Flatten(chunks)) == Parsed(Payloads(run.0), run.1)
    decreases |chunks|
  {
    if chunks == [] {
      assert buffer + Flatten(chunks) == buffer;
    } else {
      var first := Parse(p, accept, buffer + chunks[0]);
      NoFrameLeft(p, accept, buffer + chunks[0]);
      ChunkingIndependence(p, accept, first.rest, chunks[1..]);
      PayloadsAppend(OnDataEvents(p, accept, buffer + chunks[0]), Run(p, accept, first.rest, chunks[1..]).0);
      OnDataPayloads(p, accept, buffer + chunks[0]);
      Associative(buffer, chunks[0], Flatten(chunks[1..]));
      ParseAppend(p, accept, buffer + chunks[0], Flatten(chunks[1..]));
    }
  }

  /** Two cuts of the same bytes cannot be told apart by the messages or by what stays buffered. */
  lemma AnyTwoChunkings(p: Policy, accept: Validator, xs: seq<seq<byte>>, ys: seq<seq<byte>>)
    requires Flatten(xs) == Flatten(ys)
    ensures Payloads(Run(p, accept, [], xs).0) == Payloads(Run(p, accept, [], ys).0)
    ensures Run(p, accept, [], xs).1 == Run(p, accept, [], ys).1
  {
    ChunkingIndependence(p, accept, [], xs);
    ChunkingIndependence(p, accept, [], ys);
  }

  /** A decoder that has seen `before` does not fail on a chunk that goes on with accepted frames. */
  lemma ChunkNeverFails(p: Policy, accept: Validator, ms: seq<seq<byte>>, before: seq<byte>, chunk: seq<byte>)
    requires forall m :: m in ms ==> Carried(p, accept, m)
    requires before + chunk <= Stream(p, ms)
    ensures Error !in OnDataEvents(p, accept, Parse(p, accept, before).rest + chunk)
  {
    ParseAppend(p, accept, before, chunk);
    ParsePrefixOfStream(p, accept, ms, before + chunk);
    OnDataFailsOnlyIfOverlong(p, accept, Parse(p, accept, before).rest + chunk);
  }

  /** Accepted frames never make the decoder fail, wherever the input has been cut. */
  lemma {:induction false} WellFormedNeverFails(
      p: Policy, accept: Validator, ms: seq<seq<byte>>, before: seq<byte>, chunks: seq<seq<byte>>)
    requires forall m :: m in ms ==> Carried(p, accept, m)
    requires before + Flatten(chunks) <= Stream(p, ms)
    ensures Error !in Run(p, accept, Parse(p, accept, before).rest, chunks).0
    decreases |chunks|
  {
    if chunks != [] {
      Associative(before, chunks[0], Flatten(chunks[1..]));
      assert before + chunks[0] <= Stream(p, ms);
      ParseAppend(p, accept, before, chunks[0]);
      ChunkNeverFails(p, accept, ms, before, chunks[0]);
      WellFormedNeverFails(p, accept, ms, before + chunks[0], chunks[1..]);
    }
  }

  class Decoder {
    const policy: Policy
    const accept: Validator
    var unpacked: seq<byte>
    var events: seq<Event>
    /** Every byte passed to `OnData` so far. */
    ghost var received: seq<byte>

    /** What has been delivered and what is kept depend on the bytes alone, not on their cutting. */
    ghost predicate Valid()
      reads this
    {
      Parse(policy, accept, received) == Parsed(Payloads(events), unpacked)
    }

    constructor (policy: Policy, accept: Validator)
      ensures Valid() && this.policy == policy && this.accept == accept
      ensures unpacked == [] && events == [] && received == []
    {
      this.policy, this.accept := policy, accept;
      unpacked, events, received := [], [], [];
    }

    method Chck(len: nat) returns (ok: bool)
      modifies `events
      ensures ok <==> !(|unpacked| > MaxLength(policy) && len < MinLength(policy))
      ensures events == if ok then old(events) else old(events) + [Error]
    {
      ok := true;
      if |unpacked| > MaxLength(policy) && len < MinLength(policy) {
        events := events + [Error];
        ok := false;
      }
    }

    /** The loop condition: a complete size is at hand; a hopeless one is reported on the way. */
    method Ready(len: nat) returns (go: bool)
      requires len == SizeLength(policy, unpacked)
      modifies `events
      ensures go <==> HasSize(policy, unpacked)
      ensures events == if Overlong(policy, unpacked) then old(events) + [Error] else old(events)
    {
      go := unpacked != [];
      if go {
        go := Chck(len);
      }
      go := go && len >= MinLength(policy);
    }

    method OnData(data: seq<byte>)
      requires Valid()
      modifies this
      ensures Valid() && received == old(received) + data
      ensures events == old(events) + OnDataEvents(policy, accept, old(unpacked) + data)
      ensures unpacked == Parse(policy, accept, old(unpacked) + data).rest
      ensures events == old(events) + Delivered(Parse(policy, accept, old(unpacked) + data).messages)
        + (if |unpacked| > MaxLength(policy) && !HasSize(policy, unpacked) then [Error, NeedRead] else [NeedRead])
    {
      Continue(policy, accept, received, events, unpacked, data);
      received := received + data;
      unpacked := unpacked + data;
      Drain();
      events := events + [NeedRead];
      CallsOfOnData(policy, accept, old(unpacked) + data, old(events));
      CallsSpelled(policy, accept, old(unpacked) + data, old(events));
    }

    /** The loop of `on_data`: whole frames leave the front of the buffer until none is there. */
    method Drain()
      modifies `unpacked, `events
      ensures var r := Parse(policy, accept, old(unpacked));
        && unpacked == r.rest
        && events == old(events) + Delivered(r.messages) + if Overlong(policy, r.rest) then [Error] else []
    {
      ghost var whole, before := Parse(policy, accept, unpacked), events;
      var packLen := ComputeSizeLength(policy, unpacked);
      ghost var done := events;
      var go := Ready(packLen);
      while go
        invariant packLen == SizeLength(policy, unpacked) && go == HasSize(policy, unpacked)
        invariant events == if Overlong(policy, unpacked) then done + [Error] else done
        invariant done + Delivered(Parse(policy, accept, unpacked).messages) == before + Delivered(whole.messages)
        invariant Parse(policy, accept, unpacked).rest == whole.rest
        decreases |unpacked|
      {
        var size := ComputeUnpack(policy, unpacked);
        if !accept(size) || |unpacked| < size + packLen {
          break;
        }
        TakeFrame(policy, accept, unpacked, packLen, size, done);
        events := events + [Message(unpacked[packLen..packLen + size])];
        done := events;
        unpacked := unpacked[packLen + size..];
        packLen := ComputeSizeLength(policy, unpacked);
        go := Ready(packLen);
      }
      assert !HasFrame(policy, accept, unpacked);
    }
  }
}
