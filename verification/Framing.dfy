/**
 * Length-prefixed frames in a byte stream: what a stream means, independent of how it is cut
 * into reads. A frame is a complete size prefix followed by that many bytes of payload.
 */
module Framing {
  import opened Bytes
  import opened SizePolicy

  /** The delegate's `validate_length`. */
  type Validator = nat -> bool

  /** The payloads of the leading frames, and the bytes after the last of them. */
  datatype Parsed = Parsed(messages: seq<seq<byte>>, rest: seq<byte>)

  function FrameEnd(p: Policy, s: seq<byte>): nat {
    SizeLength(p, s) + Unpack(p, s)
  }

  /** `s` starts with a whole frame of an accepted length. */
  predicate HasFrame(p: Policy, accept: Validator, s: seq<byte>) {
    HasSize(p, s) && accept(Unpack(p, s)) && FrameEnd(p, s) <= |s|
  }

  function Payload(p: Policy, s: seq<byte>): seq<byte>
    requires FrameEnd(p, s) <= |s|
  {
    s[SizeLength(p, s)..FrameEnd(p, s)]
  }

  function Parse(p: Policy, accept: Validator, s: seq<byte>): (r: Parsed)
    ensures |r.rest| <= |s|
    decreases |s|
  {
    if HasFrame(p, accept, s) then
      var later := Parse(p, accept, s[FrameEnd(p, s)..]);
      Parsed([Payload(p, s)] + later.messages, later.rest)
    else
      Parsed([], s)
  }

  lemma {:induction false} NoFrameLeft(p: Policy, accept: Validator, s: seq<byte>)
    ensures !HasFrame(p, accept, Parse(p, accept, s).rest)
    decreases |s|
  {
    if HasFrame(p, accept, s) {
      NoFrameLeft(p, accept, s[FrameEnd(p, s)..]);
    }
  }

  lemma NoFrameYet(p: Policy, accept: Validator, s: seq<byte>)
    requires FrameEnd(p, s) > |s|
    ensures Parse(p, accept, s) == Parsed([], s)
  {
  }

  /** More than a whole prefix is buffered and still no size can be read from it. */
  predicate Overlong(p: Policy, s: seq<byte>) {
    |s| > MaxLength(p) && !HasSize(p, s)
  }

  // ----- what parsing means

  /** `header` is a size prefix, minimal or not, announcing the accepted length of `message`. */
  predicate Announces(p: Policy, accept: Validator, header: seq<byte>, message: seq<byte>) {
    HasSize(p, header) && SizeLength(p, header) == |header| && Unpack(p, header) == |message| && accept(|message|)
  }

  ghost predicate AllAnnounced(p: Policy, accept: Validator, headers: seq<seq<byte>>, messages: seq<seq<byte>>) {
    |headers| == |messages| &&
    (headers == [] ||
     (Announces(p, accept, headers[0], messages[0]) && AllAnnounced(p, accept, headers[1..], messages[1..])))
  }

  function Interleave(headers: seq<seq<byte>>, messages: seq<seq<byte>>): seq<byte>
    requires |headers| == |messages|
  {
    if headers == [] then [] else headers[0] + messages[0] + Interleave(headers[1..], messages[1..])
  }

  lemma FirstFrame(p: Policy, accept: Validator, header: seq<byte>, message: seq<byte>, r: seq<byte>)
    requires Announces(p, accept, header, message)
    ensures var s := header + message + r;
      HasFrame(p, accept, s) && Payload(p, s) == message && s[FrameEnd(p, s)..] == r
  {
    var s := header + message + r;
    SizeStable(p, header, message + r);
    assert s == header + (message + r);
  }

  /** Any way of writing `s` as announced messages with no whole frame left over is the parse of `s`. */
  lemma {:induction false} ParseIsTheSplit(
      p: Policy, accept: Validator, headers: seq<seq<byte>>, messages: seq<seq<byte>>, rest: seq<byte>)
    requires AllAnnounced(p, accept, headers, messages)
    requires !HasFrame(p, accept, rest)
    ensures Parse(p, accept, Interleave(headers, messages) + rest) == Parsed(messages, rest)
  {
    if headers == [] {
      assert Interleave(headers, messages) + rest == rest;
    } else {
      var later := Interleave(headers[1..], messages[1..]) + rest;
      assert Interleave(headers, messages) + rest == headers[0] + messages[0] + later;
      FirstFrame(p, accept, headers[0], messages[0], later);
      ParseIsTheSplit(p, accept, headers[1..], messages[1..], rest);
      assert [messages[0]] + messages[1..] == messages;
    }
  }

  /** The size prefixes parsing passes over. */
  function Headers(p: Policy, accept: Validator, s: seq<byte>): (hs: seq<seq<byte>>)
    ensures |hs| == |Parse(p, accept, s).messages|
    decreases |s|
  {
    if HasFrame(p, accept, s) then [s[..SizeLength(p, s)]] + Headers(p, accept, s[FrameEnd(p, s)..]) else []
  }

  /** Parsing always finds such a split, so nothing of the input is lost, altered or reordered. */
  lemma {:induction false} ParseSplits(p: Policy, accept: Validator, s: seq<byte>)
    ensures AllAnnounced(p, accept, Headers(p, accept, s), Parse(p, accept, s).messages)
    ensures s == Interleave(Headers(p, accept, s), Parse(p, accept, s).messages) + Parse(p, accept, s).rest
    decreases |s|
  {
    if HasFrame(p, accept, s) {
      var header, payload, later := s[..SizeLength(p, s)], Payload(p, s), s[FrameEnd(p, s)..];
      var hs, r := Headers(p, accept, later), Parse(p, accept, later);
      assert s == header + payload + later by {
        ThreeSlices(s, |header|, FrameEnd(p, s));
      }
      assert Announces(p, accept, header, payload) by {
        HeaderAlone(p, s);
      }
      ParseSplits(p, accept, later);
      assert Interleave([header] + hs, [payload] + r.messages) + r.rest == s by {
        InterleaveCons(header, payload, hs, r.messages, r.rest);
      }
      assert ([header] + hs)[1..] == hs && ([payload] + r.messages)[1..] == r.messages;
    } else {
      assert s == [] + s;
    }
  }

  lemma InterleaveCons(h: seq<byte>, m: seq<byte>, hs: seq<seq<byte>>, ms: seq<seq<byte>>, rest: seq<byte>)
    requires |hs| == |ms|
    ensures Interleave([h] + hs, [m] + ms) + rest == h + m + (Interleave(hs, ms) + rest)
  {
    assert ([h] + hs)[1..] == hs && ([m] + ms)[1..] == ms;
    Associative(h + m, Interleave(hs, ms), rest);
  }

  lemma HeaderAlone(p: Policy, s: seq<byte>)
    requires HasSize(p, s)
    ensures var header := s[..SizeLength(p, s)];
      HasSize(p, header) && SizeLength(p, header) == |header| && Unpack(p, header) == Unpack(p, s)
  {
    var n := SizeLength(p, s);
    var header := s[..n];
    SizeShape(p, s);
    SizeShape(p, header);
    assert header + s[n..] == s && header[n - 1] == s[n - 1];
    SizeStable(p, header, s[n..]);
  }

  /** A frame once recognised stays recognised, whatever arrives after it. */
  lemma FrameStable(p: Policy, accept: Validator, a: seq<byte>, b: seq<byte>)
    requires HasFrame(p, accept, a)
    ensures HasFrame(p, accept, a + b) && Payload(p, a + b) == Payload(p, a)
    ensures FrameEnd(p, a + b) == FrameEnd(p, a) && (a + b)[FrameEnd(p, a)..] == a[FrameEnd(p, a)..] + b
  {
    SizeStable(p, a, b);
  }

  /** Parsing `a` first and resuming from its residue when `b` arrives is parsing `a + b`. */
  lemma {:induction false} ParseAppend(p: Policy, accept: Validator, a: seq<byte>, b: seq<byte>)
    ensures var first := Parse(p, accept, a);
      var second := Parse(p, accept, first.rest + b);
      Parse(p, accept, a + b) == Parsed(first.messages + second.messages, second.rest)
    decreases |a|
  {
    if HasFrame(p, accept, a) {
      FrameStable(p, accept, a, b);
      ParseAppend(p, accept, a[FrameEnd(p, a)..], b);
      var first := Parse(p, accept, a);
      var second := Parse(p, accept, first.rest + b);
      Associative([Payload(p, a)], first.messages[1..], second.messages);
    } else {
      assert [] + Parse(p, accept, a + b).messages == Parse(p, accept, a + b).messages;
    }
  }

  // ----- framed messages

  function Frame(p: Policy, m: seq<byte>): seq<byte> {
    Pack(p, |m|) + m
  }

  function Frames(p: Policy, ms: seq<seq<byte>>): (fs: seq<seq<byte>>)
    ensures |fs| == |ms|
  {
    seq(|ms|, i requires 0 <= i < |ms| => Frame(p, ms[i]))
  }

  function Stream(p: Policy, ms: seq<seq<byte>>): seq<byte> {
    Flatten(Frames(p, ms))
  }

  predicate Carried(p: Policy, accept: Validator, m: seq<byte>) {
    |m| < Limit(p) && accept(|m|)
  }

  lemma StreamCons(p: Policy, ms: seq<seq<byte>>)
    requires ms != []
    ensures Stream(p, ms) == Frame(p, ms[0]) + Stream(p, ms[1..])
  {
    assert Frames(p, ms)[1..] == Frames(p, ms[1..]);
  }

  lemma StreamAppend(p: Policy, xs: seq<seq<byte>>, ys: seq<seq<byte>>)
    ensures Stream(p, xs + ys) == Stream(p, xs) + Stream(p, ys)
  {
    assert Frames(p, xs + ys) == Frames(p, xs) + Frames(p, ys);
    FlattenAppend(Frames(p, xs), Frames(p, ys));
  }

  lemma StreamSnoc(p: Policy, xs: seq<seq<byte>>, m: seq<byte>)
    ensures Stream(p, xs + [m]) == Stream(p, xs) + Frame(p, m)
  {
    StreamAppend(p, xs, [m]);
    StreamCons(p, [m]);
    assert Stream(p, [m][1..]) == [];
  }

  lemma PackAnnounces(p: Policy, accept: Validator, m: seq<byte>)
    requires Carried(p, accept, m)
    ensures Announces(p, accept, Pack(p, |m|), m)
  {
    UnpackPack(p, |m|, []);
    PackedBounds(p, |m|);
    assert Pack(p, |m|) + [] == Pack(p, |m|);
  }

  /** A frame cut short carries no frame; cut inside its prefix, it carries no size. */
  lemma CutFrame(p: Policy, accept: Validator, m: seq<byte>, t: seq<byte>)
    requires Carried(p, accept, m)
    requires t <= Frame(p, m) && |t| < |Frame(p, m)|
    ensures !HasFrame(p, accept, t) && !Overlong(p, t)
    ensures HasSize(p, t) <==> |t| >= |Pack(p, |m|)|
    ensures HasSize(p, t) ==> SizeLength(p, t) == |Pack(p, |m|)| && Unpack(p, t) == |m|
  {
    var header := Pack(p, |m|);
    PackedBounds(p, |m|);
    if |t| < |header| {
      PackedProperPrefix(p, |m|, |t|);
      assert t == header[..|t|];
    } else {
      UnpackPack(p, |m|, t[|header|..]);
      assert t == header + t[|header|..];
    }
  }

  /** `r` is what a cut of the stream of `ms` at `t` must give: the whole frames, and a piece of the next one. */
  ghost predicate IsCut(p: Policy, ms: seq<seq<byte>>, t: seq<byte>, r: Parsed) {
    var k := |r.messages|;
    && k <= |ms| && r.messages == ms[..k]
    && t == Stream(p, ms[..k]) + r.rest
    && (if k < |ms| then r.rest <= Frame(p, ms[k]) && |r.rest| < |Frame(p, ms[k])| else r.rest == [])
  }

  lemma IsCutCons(p: Policy, ms: seq<seq<byte>>, t: seq<byte>, r: Parsed)
    requires ms != [] && IsCut(p, ms[1..], t, r)
    ensures IsCut(p, ms, Frame(p, ms[0]) + t, Parsed([ms[0]] + r.messages, r.rest))
  {
    var k := |r.messages|;
    StreamCons(p, ms[..k + 1]);
    assert ms[..k + 1][1..] == ms[1..][..k];
    assert [ms[0]] + ms[1..][..k] == ms[..k + 1];
    Associative(Frame(p, ms[0]), Stream(p, ms[1..][..k]), r.rest);
  }

  /**
   * Of any prefix of a stream of frames the parse is exactly the frames that are whole, and what
   * is left is a proper prefix of the next one, which the overlong-prefix check never refuses.
   */
  lemma {:induction false} ParsePrefixOfStream(p: Policy, accept: Validator, ms: seq<seq<byte>>, t: seq<byte>)
    requires forall m :: m in ms ==> Carried(p, accept, m)
    requires t <= Stream(p, ms)
    ensures IsCut(p, ms, t, Parse(p, accept, t))
    ensures !Overlong(p, Parse(p, accept, t).rest)
    decreases |ms|
  {
    if ms == [] {
      assert t == Stream(p, ms[..0]) + t;
    } else {
      StreamCons(p, ms);
      var frame := Frame(p, ms[0]);
      if |t| < |frame| {
        assert t <= frame;
        CutFrame(p, accept, ms[0], t);
        assert t == Stream(p, ms[..0]) + t;
      } else {
        var later := t[|frame|..];
        assert t == frame + later;
        PackAnnounces(p, accept, ms[0]);
        FirstFrame(p, accept, Pack(p, |ms[0]|), ms[0], later);
        ParsePrefixOfStream(p, accept, ms[1..], later);
        IsCutCons(p, ms, later, Parse(p, accept, later));
      }
    }
  }

  /** Framing then parsing gives the messages back, all of them and nothing more. */
  lemma ParseStream(p: Policy, accept: Validator, ms: seq<seq<byte>>)
    requires forall m :: m in ms ==> Carried(p, accept, m)
    ensures Parse(p, accept, Stream(p, ms)) == Parsed(ms, [])
  {
    var t := Stream(p, ms);
    ParsePrefixOfStream(p, accept, ms, t);
    var r := Parse(p, accept, t);
    var k := |r.messages|;
    assert ms[..k] + ms[k..] == ms;
    StreamAppend(p, ms[..k], ms[k..]);
  }

  /** Whatever was parsed fits the size type, so a longer payload is never delivered. */
  lemma {:induction false} ParsedBelowLimit(p: Policy, accept: Validator, s: seq<byte>)
    ensures forall m :: m in Parse(p, accept, s).messages ==> |m| < Limit(p) && accept(|m|)
    decreases |s|
  {
    if HasFrame(p, accept, s) {
      UnpackBelowLimit(p, s);
      ParsedBelowLimit(p, accept, s[FrameEnd(p, s)..]);
    }
  }
}
