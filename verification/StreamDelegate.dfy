/**
 * The forwarding decoder: payload bytes are passed on as they come, a cursor counting down
 * what is left of the current frame; only size prefixes are ever buffered.
 */
module StreamDelegate {
  import opened Bytes
  import opened SizePolicy
  import opened Framing
  import M = MessageDelegate

  datatype Event = Begin(size: nat) | Update(part: seq<byte>) | End | Error | NeedRead

  datatype State = State(tmp: seq<byte>, cursor: nat)

  /** Where the decoder stands after a piece of input, what it has called, and the input it leaves. */
  datatype Outcome = Outcome(state: State, events: seq<Event>, left: seq<byte>)

  predicate Sane(p: Policy, st: State) {
    !HasSize(p, st.tmp) && |st.tmp| <= MaxLength(p) && (st.cursor > 0 ==> st.tmp == [])
  }

  function Updated(st: State, data: seq<byte>): Outcome {
    if st.cursor <= |data|
    then Outcome(st.(cursor := 0), [Update(data[..st.cursor]), End], data[st.cursor..])
    else Outcome(st.(cursor := st.cursor - |data|), [Update(data)], [])
  }

  /** At most one byte more than a prefix may have is looked at. */
  function Window(p: Policy, data: seq<byte>): nat {
    if |data| < MaxLength(p) + 1 then |data| else MaxLength(p) + 1
  }

  function Started(p: Policy, accept: Validator, st: State, data: seq<byte>): (r: Outcome)
    requires Sane(p, st) && st.cursor == 0 && data != []
    ensures Sane(p, r.state) && |r.left| < |data|
  {
    var seen := st.tmp + data[..Window(p, data)];
    if HasSize(p, seen) then
      if !accept(Unpack(p, seen)) then Outcome(st, [], [])
      else
        NewSizeIsNew(p, st.tmp, data[..Window(p, data)]);
        Outcome(State([], Unpack(p, seen)), [Begin(Unpack(p, seen))], data[SizeLength(p, seen) - |st.tmp|..])
    else if |seen| >= MaxLength(p) + 1 then Outcome(st, [Error], [])
    else Outcome(State(seen, 0), [], data[Window(p, data)..])
  }

  lemma NewSizeIsNew(p: Policy, a: seq<byte>, b: seq<byte>)
    requires !HasSize(p, a) && HasSize(p, a + b)
    ensures |a| < SizeLength(p, a + b) <= |a + b|
  {
    SizeShape(p, a);
    SizeShape(p, a + b);
    assert forall i :: 0 <= i < |a| ==> (a + b)[i] == a[i];
  }

  /** One turn of the loop, taken a call at a time. */
  function Advance(p: Policy, accept: Validator, st: State, data: seq<byte>): (r: Outcome)
    requires Sane(p, st)
    ensures Sane(p, r.state)
    ensures r.left != [] ==> |r.left| < |data|
  {
    if st.cursor > 0 then Updated(st, data)
    else if data == [] then Outcome(st, [], [])
    else Started(p, accept, st, data)
  }

  /** The whole loop: every turn that leaves input behind has consumed some. */
  function Consume(p: Policy, accept: Validator, st: State, data: seq<byte>): (r: (State, seq<Event>))
    requires Sane(p, st)
    ensures Sane(p, r.0)
    decreases |data|
  {
    var now := Advance(p, accept, st, data);
    if now.left == [] then (now.state, now.events)
    else
      var later := Consume(p, accept, now.state, now.left);
      (later.0, now.events + later.1)
  }

  function Run(p: Policy, accept: Validator, st: State, chunks: seq<seq<byte>>): (r: (State, seq<Event>))
    requires Sane(p, st)
    decreases |chunks|
  {
    if chunks == [] then (st, [])
    else
      var now := Consume(p, accept, st, chunks[0]);
      var later := Run(p, accept, now.0, chunks[1..]);
      (later.0, now.1 + [NeedRead] + later.1)
  }

  // ----- any input at all

  lemma {:induction false} ConsumeBeginsAccepted(p: Policy, accept: Validator, st: State, data: seq<byte>)
    requires Sane(p, st)
    ensures forall n :: Begin(n) in Consume(p, accept, st, data).1 ==> accept(n)
    decreases |data|
  {
    var now := Advance(p, accept, st, data);
    if now.left != [] {
      ConsumeBeginsAccepted(p, accept, now.state, now.left);
    }
  }

  /** Whatever comes in and wherever the decoder stands, no frame of a refused length is begun. */
  lemma {:induction false} BeginsAccepted(p: Policy, accept: Validator, st: State, chunks: seq<seq<byte>>)
    requires Sane(p, st)
    ensures forall n :: Begin(n) in Run(p, accept, st, chunks).1 ==> accept(n)
    decreases |chunks|
  {
    if chunks != [] {
      ConsumeBeginsAccepted(p, accept, st, chunks[0]);
      BeginsAccepted(p, accept, Consume(p, accept, st, chunks[0]).0, chunks[1..]);
    }
  }

  /** The bytes held back and the new ones show a size, not too late, that is refused. */
  predicate Refused(p: Policy, accept: Validator, held: seq<byte>, data: seq<byte>) {
    && HasSize(p, held + data) && SizeLength(p, held + data) <= |held| + MaxLength(p) + 1
    && !accept(Unpack(p, held + data))
  }

  /** They show no size in as many bytes as are looked at, which are more than a prefix may have. */
  predicate Hopeless(p: Policy, held: seq<byte>, data: seq<byte>) {
    && |held + data| > MaxLength(p)
    && (HasSize(p, held + data) ==> SizeLength(p, held + data) > |held| + MaxLength(p) + 1)
  }

  lemma SizeInWindow(p: Policy, held: seq<byte>, data: seq<byte>)
    ensures var seen := held + data[..Window(p, data)];
      && (HasSize(p, seen) <==> HasSize(p, held + data) && SizeLength(p, held + data) <= |held| + MaxLength(p) + 1)
      && (HasSize(p, seen) ==>
            SizeLength(p, seen) == SizeLength(p, held + data) && Unpack(p, seen) == Unpack(p, held + data))
  {
    var w := Window(p, data);
    var seen, rest := held + data[..w], data[w..];
    assert held + data == seen + rest;
    if HasSize(p, seen) {
      SizeStable(p, seen, rest);
    } else if w == |data| {
      assert seen == held + data;
    } else if HasSize(p, held + data) {
      SizeShape(p, seen);
      SizeShape(p, held + data);
      assert forall i :: 0 <= i < |seen| ==> (held + data)[i] == seen[i];
    }
  }

  /**
   * A chunk that comes while no frame is in progress: exactly if the size it completes is refused
   * it makes no call and changes nothing, and exactly if there is no size where one must be the
   * error is its only call and nothing changes. In both cases the chunk is gone.
   */
  lemma ChunkRefused(p: Policy, accept: Validator, st: State, data: seq<byte>)
    requires Sane(p, st) && st.cursor == 0 && data != []
    ensures Consume(p, accept, st, data) == (st, []) <==> Refused(p, accept, st.tmp, data)
    ensures Consume(p, accept, st, data) == (st, [Error]) <==> Hopeless(p, st.tmp, data)
  {
    SizeInWindow(p, st.tmp, data);
    var now := Advance(p, accept, st, data);
    if now.left != [] {
      assert now.events != [] ==> Consume(p, accept, st, data).1[0] == now.events[0];
    }
  }

  lemma ChunkDropped(p: Policy, accept: Validator, st: State, data: seq<byte>, es: seq<Event>)
    requires Sane(p, st)
    ensures var r := Consume(p, accept, st, data); var now := es + r.1 + [NeedRead];
      && (st.cursor == 0 && Refused(p, accept, st.tmp, data) ==> r.0 == st && now == es + [NeedRead])
      && (st.cursor == 0 && data != [] && Hopeless(p, st.tmp, data) ==> r.0 == st && now == es + [Error, NeedRead])
  {
    if st.cursor == 0 && data != [] {
      ChunkRefused(p, accept, st, data);
    } else if data == [] {
      assert st.tmp + data == st.tmp;
    }
  }

  /** The calls for a frame that comes whole. */
  function FrameCalls(m: seq<byte>): seq<Event> {
    [Begin(|m|)] + if m == [] then [] else [Update(m), End]
  }

  function FramesCalls(ms: seq<seq<byte>>): seq<Event> {
    if ms == [] then [] else FrameCalls(ms[0]) + FramesCalls(ms[1..])
  }

  lemma FrameStarts(p: Policy, accept: Validator, m: seq<byte>, rest: seq<byte>)
    requires Carried(p, accept, m)
    ensures Frame(p, m) + rest != []
    ensures Started(p, accept, State([], 0), Frame(p, m) + rest) == Outcome(State([], |m|), [Begin(|m|)], m + rest)
  {
    var data, header := Frame(p, m) + rest, Pack(p, |m|);
    UnpackPack(p, |m|, m + rest);
    PackedBounds(p, |m|);
    assert data == header + (m + rest) && [] + data == data;
    SizeInWindow(p, [], data);
    assert [] + data[..Window(p, data)] == data[..Window(p, data)];
  }

  lemma FrameWhole(p: Policy, accept: Validator, m: seq<byte>, rest: seq<byte>)
    requires Carried(p, accept, m)
    ensures var later := Consume(p, accept, State([], 0), rest);
      Consume(p, accept, State([], 0), Frame(p, m) + rest) == (later.0, FrameCalls(m) + later.1)
  {
    FrameStarts(p, accept, m, rest);
    if m == [] {
      var later := Consume(p, accept, State([], 0), rest);
      assert m + rest == rest && [Begin(0)] + [] == [Begin(0)];
      assert FrameCalls(m) == [Begin(0)];
    } else {
      PayloadWhole(p, accept, m, rest);
    }
  }

  lemma PayloadWhole(p: Policy, accept: Validator, m: seq<byte>, rest: seq<byte>)
    requires m != []
    ensures var later := Consume(p, accept, State([], 0), rest);
      var whole := Consume(p, accept, State([], |m|), m + rest);
      whole.0 == later.0 && [Begin(|m|)] + whole.1 == FrameCalls(m) + later.1
  {
    var later := Consume(p, accept, State([], 0), rest);
    assert (m + rest)[..|m|] == m && (m + rest)[|m|..] == rest;
    assert Advance(p, accept, State([], |m|), m + rest) == Outcome(State([], 0), [Update(m), End], rest);
    assert FrameCalls(m) + later.1 == [Begin(|m|)] + ([Update(m), End] + later.1);
    assert [Update(m), End] + [] == [Update(m), End];
  }

  /** Whole frames at the front of a chunk are forwarded, and what follows is treated as a chunk of its own. */
  lemma {:induction false} FramesThenRest(p: Policy, accept: Validator, ms: seq<seq<byte>>, rest: seq<byte>)
    requires forall m :: m in ms ==> Carried(p, accept, m)
    ensures var later := Consume(p, accept, State([], 0), rest);
      Consume(p, accept, State([], 0), Stream(p, ms) + rest) == (later.0, FramesCalls(ms) + later.1)
  {
    if ms == [] {
      var later := Consume(p, accept, State([], 0), rest);
      assert Stream(p, ms) + rest == rest && [] + later.1 == later.1;
    } else {
      StreamCons(p, ms);
      assert ms[0] in ms;
      FramesThenRest(p, accept, ms[1..], rest);
      FrameWhole(p, accept, ms[0], Stream(p, ms[1..]) + rest);
      Associative(Frame(p, ms[0]), Stream(p, ms[1..]), rest);
      Associative(FrameCalls(ms[0]), FramesCalls(ms[1..]), Consume(p, accept, State([], 0), rest).1);
    }
  }

  /** So a refused length in the middle of a chunk ends it: the frames before it are forwarded, the rest is gone. */
  lemma RefusedAfterFrames(p: Policy, accept: Validator, ms: seq<seq<byte>>, rest: seq<byte>)
    requires (forall m :: m in ms ==> Carried(p, accept, m)) && Refused(p, accept, [], rest)
    ensures Consume(p, accept, State([], 0), Stream(p, ms) + rest) == (State([], 0), FramesCalls(ms))
  {
    FramesThenRest(p, accept, ms, rest);
    assert [] + rest == rest;
    SizeShape(p, rest);
    assert rest != [];
    ChunkRefused(p, accept, State([], 0), rest);
    assert FramesCalls(ms) + [] == FramesCalls(ms);
  }

  // ----- what a receiver makes of the callbacks

  /** Frames put together so far and the one being received; broken once the callbacks make no sense. */
  datatype Assembly =
    | Assembly(done: seq<seq<byte>>, size: nat, part: seq<byte>, open: bool)
    | Broken

  const START := Assembly([], 0, [], false)

  function Receive(a: Assembly, e: Event): Assembly {
    if a.Broken? then Broken
    else match e
      case Begin(n) => if a.open then Broken else Assembly(a.done, n, [], true)
      case Update(b) => if a.open && |a.part| + |b| <= a.size then a.(part := a.part + b) else Broken
      case End => if a.open && |a.part| == a.size then Assembly(a.done + [a.part], 0, [], false) else Broken
      case Error => Broken
      case NeedRead => a
  }

  function Assemble(a: Assembly, es: seq<Event>): Assembly
    decreases |es|
  {
    if es == [] then a else Assemble(Receive(a, es[0]), es[1..])
  }

  lemma {:induction false} AssembleAppend(a: Assembly, xs: seq<Event>, ys: seq<Event>)
    ensures Assemble(a, xs + ys) == Assemble(Assemble(a, xs), ys)
    decreases |xs|
  {
    if xs == [] {
      assert xs + ys == ys;
    } else {
      assert (xs + ys)[0] == xs[0] && (xs + ys)[1..] == xs[1..] + ys;
      AssembleAppend(Receive(a, xs[0]), xs[1..], ys);
    }
  }

  // ----- inputs the two decoders can be compared on

  /** Every size in `s` is complete within `max_length` bytes and accepted. */
  predicate Clean(p: Policy, accept: Validator, s: seq<byte>)
    decreases |s|
  {
    if HasSize(p, s) then
      SizeLength(p, s) <= MaxLength(p) && accept(Unpack(p, s)) &&
      (HasFrame(p, accept, s) ==> Clean(p, accept, s[FrameEnd(p, s)..]))
    else
      |s| <= MaxLength(p)
  }

  /** A clean input stays clean seen from the point where the buffering decoder has got to. */
  lemma {:induction false} CleanFromRest(p: Policy, accept: Validator, a: seq<byte>, b: seq<byte>)
    requires Clean(p, accept, a + b)
    ensures Clean(p, accept, Parse(p, accept, a).rest + b)
    decreases |a|
  {
    if HasFrame(p, accept, a) {
      FrameStable(p, accept, a, b);
      CleanFromRest(p, accept, a[FrameEnd(p, a)..], b);
    }
  }

  lemma {:induction false} CleanPrefix(p: Policy, accept: Validator, a: seq<byte>, b: seq<byte>)
    requires Clean(p, accept, a + b)
    ensures Clean(p, accept, a)
    decreases |a|
  {
    if HasSize(p, a) {
      SizeStable(p, a, b);
      if HasFrame(p, accept, a) {
        FrameStable(p, accept, a, b);
        CleanPrefix(p, accept, a[FrameEnd(p, a)..], b);
      }
    } else if HasSize(p, a + b) {
      NewSizeIsNew(p, a, b);
    }
  }

  lemma {:induction false} FramesAreClean(p: Policy, accept: Validator, ms: seq<seq<byte>>)
    requires forall m :: m in ms ==> Carried(p, accept, m)
    ensures Clean(p, accept, Stream(p, ms))
  {
    if ms != [] {
      StreamCons(p, ms);
      PackAnnounces(p, accept, ms[0]);
      PackedBounds(p, |ms[0]|);
      var later := Stream(p, ms[1..]);
      FirstFrame(p, accept, Pack(p, |ms[0]|), ms[0], later);
      UnpackPack(p, |ms[0]|, ms[0] + later);
      Associative(Pack(p, |ms[0]|), ms[0], later);
      FramesAreClean(p, accept, ms[1..]);
    } else {
      assert SizeLength(p, []) == 0;
    }
  }

  // ----- the forwarding decoder against the parse of the bytes it has seen

  /** The decoder holds the unfinished prefix, or counts down the unfinished payload. */
  predicate Stands(p: Policy, accept: Validator, r: Parsed, st: State) {
    if st.cursor == 0 then st.tmp == r.rest
    else st.tmp == [] && HasSize(p, r.rest) && accept(Unpack(p, r.rest)) && FrameEnd(p, r.rest) == |r.rest| + st.cursor
  }

  /** All frames so far were nonempty and the receiver has them, and the current one's bytes so far. */
  predicate InStep(p: Policy, r: Parsed, st: State, a: Assembly) {
    && a.Assembly? && a.done == r.messages && [] !in r.messages
    && (if st.cursor == 0 then !a.open
        else a.open && a.size == Unpack(p, r.rest) && a.part == r.rest[SizeLength(p, r.rest)..])
  }

  /** An empty frame has been begun and will never be ended. */
  predicate Derailed(r: Parsed, st: State, a: Assembly) {
    && [] in r.messages
    && (a.Broken? || (a.open && a.size == 0 && a.part == [] && st.cursor == 0 && |a.done| < |r.messages|))
  }

  predicate Tracks(p: Policy, accept: Validator, r: Parsed, st: State, a: Assembly) {
    Stands(p, accept, r, st) && (InStep(p, r, st, a) || Derailed(r, st, a))
  }

  /** The part of `data` a call used up. */
  function Used(data: seq<byte>, left: seq<byte>): seq<byte>
    requires |left| <= |data|
  {
    data[..|data| - |left|]
  }

  lemma AssembleOne(a: Assembly, e: Event)
    ensures Assemble(a, [e]) == Receive(a, e)
  {
    assert [e][1..] == [];
  }

  lemma AssembleTwo(a: Assembly, e: Event, f: Event)
    ensures Assemble(a, [e, f]) == Receive(Receive(a, e), f)
  {
    assert [e, f][1..] == [f];
    AssembleOne(Receive(a, e), f);
  }

  /** The bytes that were missing complete the frame in progress. */
  lemma PayloadEnds(p: Policy, accept: Validator, seen: seq<byte>, d: seq<byte>)
    requires var r := Parse(p, accept, seen).rest;
      HasSize(p, r) && accept(Unpack(p, r)) && FrameEnd(p, r) == |r| + |d|
    ensures var r := Parse(p, accept, seen);
      Parse(p, accept, seen + d) == Parsed(r.messages + [r.rest[SizeLength(p, r.rest)..] + d], [])
  {
    ParseAppend(p, accept, seen, d);
    RestEnds(p, accept, Parse(p, accept, seen).rest, d);
  }

  lemma RestEnds(p: Policy, accept: Validator, r: seq<byte>, d: seq<byte>)
    requires HasSize(p, r) && accept(Unpack(p, r)) && FrameEnd(p, r) == |r| + |d|
    ensures Parse(p, accept, r + d) == Parsed([r[SizeLength(p, r)..] + d], [])
  {
    SizeStable(p, r, d);
    ParseOneFrame(p, accept, r + d);
    SliceOfJoin(r, d, SizeLength(p, r));
  }

  lemma ParseOneFrame(p: Policy, accept: Validator, s: seq<byte>)
    requires HasFrame(p, accept, s) && FrameEnd(p, s) == |s|
    ensures Parse(p, accept, s) == Parsed([s[SizeLength(p, s)..]], [])
  {
    var none: seq<seq<byte>> := [];
    assert s[FrameEnd(p, s)..] == [] && Parse(p, accept, []) == Parsed(none, []);
    assert Payload(p, s) == s[SizeLength(p, s)..] && [Payload(p, s)] + none == [Payload(p, s)];
  }

  /** Fewer bytes than are missing leave the frame in progress. */
  lemma PayloadGrows(p: Policy, accept: Validator, seen: seq<byte>, d: seq<byte>)
    requires var r := Parse(p, accept, seen).rest;
      HasSize(p, r) && FrameEnd(p, r) > |r| + |d|
    ensures var r := Parse(p, accept, seen);
      && Parse(p, accept, seen + d) == Parsed(r.messages, r.rest + d)
      && HasSize(p, r.rest + d) && Unpack(p, r.rest + d) == Unpack(p, r.rest)
      && SizeLength(p, r.rest + d) == SizeLength(p, r.rest)
      && (r.rest + d)[SizeLength(p, r.rest)..] == r.rest[SizeLength(p, r.rest)..] + d
  {
    var r := Parse(p, accept, seen);
    ParseAppend(p, accept, seen, d);
    RestGrows(p, accept, r.rest, d);
    assert r.messages + [] == r.messages;
  }

  lemma RestGrows(p: Policy, accept: Validator, r: seq<byte>, d: seq<byte>)
    requires HasSize(p, r) && FrameEnd(p, r) > |r| + |d|
    ensures Parse(p, accept, r + d) == Parsed([], r + d)
    ensures HasSize(p, r + d) && Unpack(p, r + d) == Unpack(p, r) && SizeLength(p, r + d) == SizeLength(p, r)
    ensures (r + d)[SizeLength(p, r)..] == r[SizeLength(p, r)..] + d
  {
    SizeStable(p, r, d);
    NoFrameYet(p, accept, r + d);
    SliceOfJoin(r, d, SizeLength(p, r));
  }

  /** A size just completed ends a frame at once if it is zero and starts a payload otherwise. */
  lemma SizeCompletes(p: Policy, accept: Validator, seen: seq<byte>, d: seq<byte>)
    requires var h := Parse(p, accept, seen).rest + d;
      HasSize(p, h) && SizeLength(p, h) == |h| && accept(Unpack(p, h))
    ensures var r := Parse(p, accept, seen); var h := r.rest + d;
      Parse(p, accept, seen + d) == if Unpack(p, h) == 0 then Parsed(r.messages + [[]], []) else Parsed(r.messages, h)
  {
    var r := Parse(p, accept, seen);
    var h := r.rest + d;
    ParseAppend(p, accept, seen, d);
    if Unpack(p, h) == 0 {
      ParseOneFrame(p, accept, h);
      assert h[|h|..] == [];
    } else {
      assert r.messages + [] == r.messages;
    }
  }

  lemma TracksAfterEnd(p: Policy, accept: Validator, r: Parsed, st: State, d: seq<byte>, a: Assembly)
    requires Tracks(p, accept, r, st, a) && st.cursor == |d| > 0
    ensures Tracks(p, accept, Parsed(r.messages + [r.rest[SizeLength(p, r.rest)..] + d], []),
                   st.(cursor := 0), Receive(Receive(a, Update(d)), End))
  {
  }

  lemma TracksAfterUpdate(p: Policy, accept: Validator, r: Parsed, st: State, d: seq<byte>, a: Assembly)
    requires Tracks(p, accept, r, st, a) && st.cursor > |d|
    requires Unpack(p, r.rest + d) == Unpack(p, r.rest) && HasSize(p, r.rest + d)
    requires SizeLength(p, r.rest + d) == SizeLength(p, r.rest)
    requires (r.rest + d)[SizeLength(p, r.rest)..] == r.rest[SizeLength(p, r.rest)..] + d
    ensures Tracks(p, accept, Parsed(r.messages, r.rest + d), st.(cursor := st.cursor - |d|), Receive(a, Update(d)))
  {
  }

  lemma TracksAfterBegin(p: Policy, accept: Validator, r: Parsed, st: State, h: seq<byte>, a: Assembly)
    requires Tracks(p, accept, r, st, a) && st.cursor == 0
    requires HasSize(p, h) && SizeLength(p, h) == |h| && accept(Unpack(p, h))
    ensures Tracks(p, accept, if Unpack(p, h) == 0 then Parsed(r.messages + [[]], []) else Parsed(r.messages, h),
                   State([], Unpack(p, h)), Receive(a, Begin(Unpack(p, h))))
  {
    if Unpack(p, h) == 0 {
      assert (r.messages + [[]])[|r.messages|] == [];
    }
  }

  /** A call that used up a part of `data` leaves decoder and receiver where that part should leave them. */
  ghost predicate KeepsTrack(p: Policy, accept: Validator, seen: seq<byte>, data: seq<byte>, a: Assembly, o: Outcome) {
    && |o.left| <= |data|
    && data == Used(data, o.left) + o.left
    && Tracks(p, accept, Parse(p, accept, seen + Used(data, o.left)), o.state, Assemble(a, o.events))
    && Error !in o.events
  }

  lemma KeepsTrackAfter(p: Policy, accept: Validator, seen: seq<byte>, d: seq<byte>, a: Assembly, o: Outcome)
    requires Tracks(p, accept, Parse(p, accept, seen + d), o.state, Assemble(a, o.events)) && Error !in o.events
    ensures KeepsTrack(p, accept, seen, d + o.left, a, o)
  {
    assert Used(d + o.left, o.left) == d;
  }

  /** Payload bytes complete the frame in progress or lengthen its received part. */
  lemma UpdateKeepsTrack(p: Policy, accept: Validator, seen: seq<byte>, st: State, data: seq<byte>, a: Assembly)
    requires st.cursor > 0 && Tracks(p, accept, Parse(p, accept, seen), st, a)
    ensures KeepsTrack(p, accept, seen, data, a, Updated(st, data))
  {
    if st.cursor <= |data| {
      UpdateEnds(p, accept, seen, st, data, a);
    } else {
      UpdateGrows(p, accept, seen, st, data, a);
    }
  }

  lemma UpdateEnds(p: Policy, accept: Validator, seen: seq<byte>, st: State, data: seq<byte>, a: Assembly)
    requires 0 < st.cursor <= |data| && Tracks(p, accept, Parse(p, accept, seen), st, a)
    ensures KeepsTrack(p, accept, seen, data, a, Updated(st, data))
  {
    var d := data[..st.cursor];
    assert Used(data, data[st.cursor..]) == d;
    PayloadEnds(p, accept, seen, d);
    AssembleTwo(a, Update(d), End);
    TracksAfterEnd(p, accept, Parse(p, accept, seen), st, d, a);
  }

  lemma UpdateGrows(p: Policy, accept: Validator, seen: seq<byte>, st: State, data: seq<byte>, a: Assembly)
    requires st.cursor > |data| && Tracks(p, accept, Parse(p, accept, seen), st, a)
    ensures KeepsTrack(p, accept, seen, data, a, Updated(st, data))
  {
    assert Used(data, []) == data;
    PayloadGrows(p, accept, seen, data);
    AssembleOne(a, Update(data));
    TracksAfterUpdate(p, accept, Parse(p, accept, seen), st, data, a);
  }

  /** The buffered prefix and the new bytes either complete a size or are kept. */
  lemma StartKeepsTrack(p: Policy, accept: Validator, seen: seq<byte>, st: State, data: seq<byte>, a: Assembly)
    requires Sane(p, st) && st.cursor == 0 && data != [] && Tracks(p, accept, Parse(p, accept, seen), st, a)
    requires Clean(p, accept, seen + data)
    ensures KeepsTrack(p, accept, seen, data, a, Started(p, accept, st, data))
  {
    CleanFromRest(p, accept, seen, data);
    StartWindow(p, accept, seen, st, data, data[..Window(p, data)], data[Window(p, data)..], a);
  }

  lemma StartWindow(p: Policy, accept: Validator, seen: seq<byte>, st: State, data: seq<byte>,
                    window: seq<byte>, more: seq<byte>, a: Assembly)
    requires Sane(p, st) && st.cursor == 0 && data != [] && Tracks(p, accept, Parse(p, accept, seen), st, a)
    requires Clean(p, accept, st.tmp + data)
    requires window == data[..Window(p, data)] && more == data[Window(p, data)..]
    ensures KeepsTrack(p, accept, seen, data, a, Started(p, accept, st, data))
  {
    assert data == window + more;
    Associative(st.tmp, window, more);
    if HasSize(p, st.tmp + window) {
      StartBehindSize(p, accept, seen, st, data, window, more, a);
    } else {
      StartWithoutSize(p, accept, seen, st, window, more, a);
    }
  }

  lemma StartWithoutSize(p: Policy, accept: Validator, seen: seq<byte>, st: State,
                         window: seq<byte>, more: seq<byte>, a: Assembly)
    requires st.cursor == 0 && Tracks(p, accept, Parse(p, accept, seen), st, a)
    requires !HasSize(p, st.tmp + window) && Clean(p, accept, st.tmp + window + more)
    requires |window| == Window(p, window + more)
    ensures |st.tmp + window| <= MaxLength(p) && more == []
    ensures KeepsTrack(p, accept, seen, window + more, a, Outcome(State(st.tmp + window, 0), [], []))
  {
    IncompleteIsWhole(p, accept, st.tmp + window, more);
    assert window + more == window && window + [] == window;
    KeptPrefix(p, accept, seen, window, st, a);
    KeepsTrackAfter(p, accept, seen, window, a, Outcome(State(st.tmp + window, 0), [], []));
  }

  lemma StartBehindSize(p: Policy, accept: Validator, seen: seq<byte>, st: State, data: seq<byte>,
                        window: seq<byte>, more: seq<byte>, a: Assembly)
    requires Sane(p, st) && st.cursor == 0 && data != [] && Tracks(p, accept, Parse(p, accept, seen), st, a)
    requires data == window + more && window == data[..Window(p, data)]
    requires HasSize(p, st.tmp + window) && Clean(p, accept, st.tmp + window + more)
    ensures KeepsTrack(p, accept, seen, data, a, Started(p, accept, st, data))
  {
    StartWithSize(p, accept, seen, st, window, more, a);
    SliceOfJoin(window, more, SizeLength(p, st.tmp + window) - |st.tmp|);
  }

  lemma StartWithSize(p: Policy, accept: Validator, seen: seq<byte>, st: State,
                      window: seq<byte>, more: seq<byte>, a: Assembly)
    requires Sane(p, st) && st.cursor == 0 && Tracks(p, accept, Parse(p, accept, seen), st, a)
    requires HasSize(p, st.tmp + window) && Clean(p, accept, st.tmp + window + more)
    ensures var held := st.tmp + window; var used := SizeLength(p, held) - |st.tmp|;
      && 0 <= used <= |window| && accept(Unpack(p, held))
      && KeepsTrack(p, accept, seen, window + more, a,
                    Outcome(State([], Unpack(p, held)), [Begin(Unpack(p, held))], window[used..] + more))
  {
    var n := Unpack(p, st.tmp + window);
    SizeStable(p, st.tmp + window, more);
    var d := SizeBytes(p, st.tmp, window);
    var left := window[|d|..] + more;
    Associative(d, window[|d|..], more);
    BeginKeepsTrack(p, accept, seen, st, d, left, a, n);
  }

  /** The bytes of the window that complete the size. */
  lemma SizeBytes(p: Policy, tmp: seq<byte>, window: seq<byte>) returns (d: seq<byte>)
    requires !HasSize(p, tmp) && HasSize(p, tmp + window)
    ensures 0 < |d| == SizeLength(p, tmp + window) - |tmp| <= |window| && window == d + window[|d|..]
    ensures HasSize(p, tmp + d) && SizeLength(p, tmp + d) == |tmp + d| && Unpack(p, tmp + d) == Unpack(p, tmp + window)
  {
    NewSizeIsNew(p, tmp, window);
    d := window[..SizeLength(p, tmp + window) - |tmp|];
    assert (tmp + window)[..SizeLength(p, tmp + window)] == tmp + d;
    HeaderAlone(p, tmp + window);
  }

  lemma BeginKeepsTrack(p: Policy, accept: Validator, seen: seq<byte>, st: State,
                        d: seq<byte>, left: seq<byte>, a: Assembly, n: nat)
    requires st.cursor == 0 && Tracks(p, accept, Parse(p, accept, seen), st, a)
    requires HasSize(p, st.tmp + d) && SizeLength(p, st.tmp + d) == |st.tmp + d|
    requires Unpack(p, st.tmp + d) == n && accept(n)
    ensures KeepsTrack(p, accept, seen, d + left, a, Outcome(State([], n), [Begin(n)], left))
  {
    SizeCompletes(p, accept, seen, d);
    AssembleOne(a, Begin(n));
    TracksAfterBegin(p, accept, Parse(p, accept, seen), st, st.tmp + d, a);
    KeepsTrackAfter(p, accept, seen, d, a, Outcome(State([], n), [Begin(n)], left));
  }

  /** A clean input whose window shows no size is all in the window, and shorter than the window may be. */
  lemma IncompleteIsWhole(p: Policy, accept: Validator, held: seq<byte>, more: seq<byte>)
    requires !HasSize(p, held) && Clean(p, accept, held + more)
    ensures |held| <= MaxLength(p)
  {
    if HasSize(p, held + more) {
      NewSizeIsNew(p, held, more);
    }
  }

  lemma KeptPrefix(p: Policy, accept: Validator, seen: seq<byte>, d: seq<byte>, st: State, a: Assembly)
    requires st.cursor == 0 && Tracks(p, accept, Parse(p, accept, seen), st, a)
    requires !HasSize(p, st.tmp + d)
    ensures Tracks(p, accept, Parse(p, accept, seen + d), State(st.tmp + d, 0), a)
  {
    ParseAppend(p, accept, seen, d);
    assert Parse(p, accept, seen).messages + [] == Parse(p, accept, seen).messages;
  }

  lemma {:induction false} ConsumeKeepsTrack(
      p: Policy, accept: Validator, seen: seq<byte>, st: State, data: seq<byte>, a: Assembly)
    requires Sane(p, st) && Tracks(p, accept, Parse(p, accept, seen), st, a) && Clean(p, accept, seen + data)
    ensures var r := Consume(p, accept, st, data);
      Tracks(p, accept, Parse(p, accept, seen + data), r.0, Assemble(a, r.1)) && Error !in r.1
    decreases |data|
  {
    var now := Advance(p, accept, st, data);
    if st.cursor > 0 {
      UpdateKeepsTrack(p, accept, seen, st, data, a);
    } else if data != [] {
      StartKeepsTrack(p, accept, seen, st, data, a);
    } else {
      assert seen + data == seen;
    }
    if now.left == [] {
      assert data == [] || Used(data, now.left) == data;
    } else {
      var used := Used(data, now.left);
      Associative(seen, used, now.left);
      AssembleAppend(a, now.events, Consume(p, accept, now.state, now.left).1);
      ConsumeKeepsTrack(p, accept, seen + used, now.state, now.left, Assemble(a, now.events));
    }
  }

  lemma {:induction false} RunKeepsTrack(
      p: Policy, accept: Validator, seen: seq<byte>, st: State, chunks: seq<seq<byte>>, a: Assembly)
    requires Sane(p, st) && Tracks(p, accept, Parse(p, accept, seen), st, a)
    requires Clean(p, accept, seen + Flatten(chunks))
    ensures var r := Run(p, accept, st, chunks);
      Tracks(p, accept, Parse(p, accept, seen + Flatten(chunks)), r.0, Assemble(a, r.1)) && Error !in r.1
    decreases |chunks|
  {
    if chunks == [] {
      assert seen + Flatten(chunks) == seen;
    } else {
      var now := Consume(p, accept, st, chunks[0]);
      var b := Assemble(a, now.1);
      Associative(seen, chunks[0], Flatten(chunks[1..]));
      CleanPrefix(p, accept, seen + chunks[0], Flatten(chunks[1..]));
      ConsumeKeepsTrack(p, accept, seen, st, chunks[0], a);
      RunKeepsTrack(p, accept, seen + chunks[0], now.0, chunks[1..], b);
      NeedReadIsNeutral(a, now.1, Run(p, accept, now.0, chunks[1..]).1);
    }
  }

  lemma NeedReadIsNeutral(a: Assembly, xs: seq<Event>, ys: seq<Event>)
    ensures Assemble(a, xs + [NeedRead] + ys) == Assemble(Assemble(a, xs), ys)
  {
    AssembleAppend(a, xs + [NeedRead], ys);
    AssembleAppend(a, xs, [NeedRead]);
    AssembleOne(Assemble(a, xs), NeedRead);
  }

  /**
   * On clean input, cut one way for one decoder and another way for the other, the forwarding
   * decoder never fails and its callbacks put together exactly the buffering decoder's messages,
   * if and only if no frame is empty: an empty frame is begun and never ended.
   */
  lemma DecodersAgree(p: Policy, accept: Validator, xs: seq<seq<byte>>, ys: seq<seq<byte>>)
    requires Flatten(xs) == Flatten(ys) && Clean(p, accept, Flatten(xs))
    ensures var events := Run(p, accept, State([], 0), xs).1;
      var messages := M.Payloads(M.Run(p, accept, [], ys).0);
      var a := Assemble(START, events);
      Error !in events && (a.Assembly? && a.done == messages <==> [] !in messages)
  {
    var bytes := Flatten(xs);
    M.ChunkingIndependence(p, accept, [], ys);
    assert [] + bytes == bytes;
    assert Parse(p, accept, []) == Parsed([], []);
    RunKeepsTrack(p, accept, [], State([], 0), xs, START);
  }

  /** An empty frame: the buffering decoder delivers it, the forwarding one begins it and says no more. */
  lemma EmptyFrame(p: Policy, accept: Validator)
    requires accept(0)
    ensures var chunks := [Stream(p, [[]])]; var events := Run(p, accept, State([], 0), chunks).1;
      && Clean(p, accept, Flatten(chunks)) && events == [Begin(0), NeedRead]
      && M.Payloads(M.Run(p, accept, [], chunks).0) == [[]] && Assemble(START, events) == Assembly([], 0, [], true)
  {
    EmptyFrameBytes(p);
    EmptyFrameDelivered(p, accept, Stream(p, [[]]));
    EmptyFrameRun(p, accept, Stream(p, [[]]));
    AssembleTwo(START, Begin(0), NeedRead);
  }

  lemma EmptyFrameBytes(p: Policy)
    ensures Stream(p, [[]]) == Pack(p, 0)
  {
    var m: seq<byte> := [];
    StreamSnoc(p, [], m);
    assert [] + [m] == [m] && Stream(p, []) == [];
    assert Pack(p, 0) + m == Pack(p, 0) && [] + Pack(p, 0) == Pack(p, 0);
  }

  lemma EmptyFrameDelivered(p: Policy, accept: Validator, bytes: seq<byte>)
    requires accept(0) && bytes == Stream(p, [[]])
    ensures Clean(p, accept, Flatten([bytes])) && M.Payloads(M.Run(p, accept, [], [bytes]).0) == [[]]
  {
    var m: seq<byte> := [];
    assert Carried(p, accept, m) && Stream(p, [m]) == bytes;
    FlattenSingle(bytes);
    FramesAreClean(p, accept, [m]);
    ParseStream(p, accept, [m]);
    M.ChunkingIndependence(p, accept, [], [bytes]);
    assert [] + bytes == bytes && Parse(p, accept, []) == Parsed([], []);
  }

  lemma EmptyFrameRun(p: Policy, accept: Validator, bytes: seq<byte>)
    requires accept(0) && bytes == Pack(p, 0)
    ensures Run(p, accept, State([], 0), [bytes]).1 == [Begin(0), NeedRead]
  {
    EmptyFrameEvents(p, accept);
    RunOfOne(p, accept, State([], 0), bytes);
  }

  lemma RunOfOne(p: Policy, accept: Validator, st: State, bytes: seq<byte>)
    requires Sane(p, st)
    ensures Run(p, accept, st, [bytes]).1 == Consume(p, accept, st, bytes).1 + [NeedRead]
  {
    var chunks: seq<seq<byte>> := [bytes];
    var calls := Consume(p, accept, st, bytes).1 + [NeedRead];
    assert chunks[1..] == [] && calls + [] == calls;
  }

  lemma EmptyFrameEvents(p: Policy, accept: Validator)
    requires accept(0)
    ensures Consume(p, accept, State([], 0), Pack(p, 0)) == (State([], 0), [Begin(0)])
  {
    var data := Pack(p, 0);
    UnpackPack(p, 0, []);
    PackedBounds(p, 0);
    assert data + [] == data && [] + data == data && data[..|data|] == data && data[|data|..] == [];
  }

  /** Nonempty frames, however cut, come out whole, in order, each begun and ended once. */
  lemma FramesForwarded(p: Policy, accept: Validator, ms: seq<seq<byte>>, chunks: seq<seq<byte>>)
    requires forall m :: m in ms ==> Carried(p, accept, m) && m != []
    requires Flatten(chunks) == Stream(p, ms)
    ensures var r := Run(p, accept, State([], 0), chunks);
      r.0 == State([], 0) && Error !in r.1 && var a := Assemble(START, r.1); a.Assembly? && !a.open && a.done == ms
  {
    FramesAreClean(p, accept, ms);
    ParseStream(p, accept, ms);
    assert [] + Flatten(chunks) == Flatten(chunks);
    assert Parse(p, accept, []) == Parsed([], []);
    RunKeepsTrack(p, accept, [], State([], 0), chunks, START);
  }

  /** Where a loop that has made the calls `es` and has `data` left will end, and with which calls. */
  function Finish(p: Policy, accept: Validator, st: State, data: seq<byte>, es: seq<Event>): (State, seq<Event>)
    requires Sane(p, st)
  {
    if data == [] then (st, es)
    else var r := Consume(p, accept, st, data); (r.0, es + r.1)
  }

  lemma FinishAdvance(p: Policy, accept: Validator, st: State, data: seq<byte>, es: seq<Event>)
    requires Sane(p, st)
    ensures var o := Advance(p, accept, st, data); var r := Consume(p, accept, st, data);
      Finish(p, accept, o.state, o.left, es + o.events) == (r.0, es + r.1)
  {
    var o := Advance(p, accept, st, data);
    if o.left != [] {
      Associative(es, o.events, Consume(p, accept, o.state, o.left).1);
    }
  }

  class Forwarder {
    const policy: Policy
    const accept: Validator
    var tmp: seq<byte>
    var cursor: nat
    var events: seq<Event>
    /** Every byte passed to `OnData` so far. */
    ghost var received: seq<byte>

    ghost predicate Valid()
      reads this
    {
      && Sane(policy, State(tmp, cursor))
      && (Clean(policy, accept, received) ==>
            && Tracks(policy, accept, Parse(policy, accept, received), State(tmp, cursor), Assemble(START, events))
            && Error !in events)
    }

    constructor (policy: Policy, accept: Validator)
      ensures Valid() && this.policy == policy && this.accept == accept
      ensures tmp == [] && cursor == 0 && events == [] && received == []
    {
      this.policy, this.accept := policy, accept;
      tmp, cursor, events, received := [], 0, [], [];
      new;
      assert Parse(policy, accept, []) == Parsed([], []);
    }

    method UpdateCursor(data: seq<byte>) returns (left: seq<byte>)
      requires cursor > 0
      modifies `cursor, `events
      ensures var o := Updated(State(tmp, old(cursor)), data);
        o.state == State(tmp, cursor) && left == o.left && events == old(events) + o.events
    {
      if cursor <= |data| {
        events := events + [Update(data[..cursor])];
        left := data[cursor..];
        cursor := 0;
        events := events + [End];
      } else {
        events := events + [Update(data)];
        cursor := cursor - |data|;
        left := [];
      }
    }

    method StartNewStream(data: seq<byte>) returns (left: seq<byte>)
      requires Sane(policy, State(tmp, cursor)) && cursor == 0 && data != []
      modifies `tmp, `cursor, `events
      ensures var o := Started(policy, accept, State(old(tmp), 0), data);
        o.state == State(tmp, cursor) && left == o.left && events == old(events) + o.events
    {
      var oldPacked := |tmp|;
      ghost var held := tmp;
      var minimum := if |data| < MaxLength(policy) + 1 then |data| else MaxLength(policy) + 1;
      NewSizeIsNewUnless(policy, tmp, data[..minimum]);
      tmp := tmp + data[..minimum];
      assert tmp[..oldPacked] == held;
      var packed := ComputeSizeLength(policy, tmp);
      if packed >= MinLength(policy) {
        var size := ComputeUnpack(policy, tmp);
        if !accept(size) {
          tmp := tmp[..oldPacked];
          left := [];
          return;
        }
        var used := minimum - (|tmp| - packed);
        cursor := size;
        tmp := [];
        events := events + [Begin(size)];
        left := data[used..];
      } else if |tmp| >= MaxLength(policy) + 1 {
        events := events + [Error];
        tmp := tmp[..oldPacked];
        left := [];
      } else {
        left := data[minimum..];
      }
    }

    method OnData(data: seq<byte>)
      requires Valid()
      modifies this
      ensures Valid() && received == old(received) + data
      ensures var r := Consume(policy, accept, State(old(tmp), old(cursor)), data);
        State(tmp, cursor) == r.0 && events == old(events) + r.1 + [NeedRead]
      ensures old(cursor) == 0 && Refused(policy, accept, old(tmp), data) ==>
        tmp == old(tmp) && cursor == 0 && events == old(events) + [NeedRead]
      ensures old(cursor) == 0 && data != [] && Hopeless(policy, old(tmp), data) ==>
        tmp == old(tmp) && cursor == 0 && events == old(events) + [Error, NeedRead]
    {
      ChunkDropped(policy, accept, State(tmp, cursor), data, events);
      StepKeepsValid(policy, accept, received, State(tmp, cursor), data, events);
      received := received + data;
      Forward(data);
      events := events + [NeedRead];
    }

    /** The loop of `on_data`. */
    method Forward(data: seq<byte>)
      requires Sane(policy, State(tmp, cursor))
      modifies `tmp, `cursor, `events
      ensures var r := Consume(policy, accept, State(old(tmp), old(cursor)), data);
        State(tmp, cursor) == r.0 && events == old(events) + r.1
    {
      ghost var whole, before := Consume(policy, accept, State(tmp, cursor), data), events;
      var buff := Turn(data);
      while buff != []
        invariant Sane(policy, State(tmp, cursor))
        invariant Finish(policy, accept, State(tmp, cursor), buff, events) == (whole.0, before + whole.1)
        decreases |buff|
      {
        buff := Turn(buff);
      }
    }

    /** The body of the loop: it is entered once even for an empty chunk. */
    method Turn(buff: seq<byte>) returns (left: seq<byte>)
      requires Sane(policy, State(tmp, cursor))
      modifies `tmp, `cursor, `events
      ensures Sane(policy, State(tmp, cursor))
      ensures left != [] ==> |left| < |buff|
      ensures var r := Consume(policy, accept, State(old(tmp), old(cursor)), buff);
        Finish(policy, accept, State(tmp, cursor), left, events) == (r.0, old(events) + r.1)
    {
      left := buff;
      FinishAdvance(policy, accept, State(tmp, cursor), left, events);
      if cursor > 0 {
        left := UpdateCursor(left);
        FinishAdvance(policy, accept, State(tmp, cursor), left, events);
      }
      if left != [] {
        left := StartNewStream(left);
      } else {
        assert events + [] == events;
      }
    }
  }

  lemma NewSizeIsNewUnless(p: Policy, a: seq<byte>, b: seq<byte>)
    requires !HasSize(p, a)
    ensures HasSize(p, a + b) ==> |a| < SizeLength(p, a + b) <= |a + b|
  {
    if HasSize(p, a + b) {
      NewSizeIsNew(p, a, b);
    }
  }

  lemma StepKeepsValid(p: Policy, accept: Validator, seen: seq<byte>, st: State, data: seq<byte>, es: seq<Event>)
    requires Sane(p, st)
    requires Clean(p, accept, seen) ==>
      Tracks(p, accept, Parse(p, accept, seen), st, Assemble(START, es)) && Error !in es
    ensures Clean(p, accept, seen + data) ==>
      var r := Consume(p, accept, st, data); var now := es + r.1 + [NeedRead];
      Tracks(p, accept, Parse(p, accept, seen + data), r.0, Assemble(START, now)) && Error !in now
  {
    if Clean(p, accept, seen + data) {
      CleanPrefix(p, accept, seen, data);
      ConsumeKeepsTrack(p, accept, seen, st, data, Assemble(START, es));
      var r := Consume(p, accept, st, data);
      AssembleAppend(START, es, r.1);
      AssembleAppend(START, es + r.1, [NeedRead]);
      AssembleOne(Assemble(START, es + r.1), NeedRead);
    }
  }
}
