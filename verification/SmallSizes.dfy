/**
 * Varint frames whose sizes all take one byte. A receiver misled by a torn frame stays behind the
 * sender from then on: the bytes it is behind by always hold one with a clear top bit, so no size
 * prefix can swallow them all.
 */
module SmallSizes {
  import opened Bytes
  import opened SizePolicy
  import opened Framing
  import opened Pipeline
  import opened TornFrames
  import V = Varint
  import Q = WriteQueue

  /** Some byte ends a size prefix. */
  ghost predicate HasLow(s: seq<byte>) {
    exists i :: 0 <= i < |s| && s[i] < 0x80
  }

  predicate Small(ms: seq<seq<byte>>) {
    forall m :: m in ms ==> |m| < 0x80
  }

  predicate NothingSent(done: seq<Q.Outcome>) {
    forall i :: 0 <= i < |done| ==> done[i].sent == 0
  }

  // ----- outcomes from the first on

  lemma {:induction false} SentFront(o: Q.Outcome, more: seq<Q.Outcome>)
    requires WithinMessages([o] + more)
    ensures WithinMessages(more) && o.sent <= |o.message|
    ensures forall d :: d in [o] + more ==> d.sent <= |d.message|
    ensures Q.Sent([o] + more) == o.message[..o.sent] + Q.Sent(more)
    decreases |more|
  {
    var all := [o] + more;
    assert all[0] == o && forall i :: 0 <= i < |more| ==> more[i] == all[i + 1];
    if more == [] {
      assert all[..0] == [];
    } else {
      var n := |more| - 1;
      assert all[..n + 1] == [o] + more[..n] && all[n + 1] == more[n];
      SentFront(o, more[..n]);
      Associative(o.message[..o.sent], Q.Sent(more[..n]), more[n].message[..more[n].sent]);
    }
  }

  lemma {:induction false} SurvivorsFront(o: Q.Outcome, more: seq<Q.Outcome>, sent: seq<seq<byte>>)
    requires |more| < |sent|
    ensures Survivors([o] + more, sent)
      == (if o.sent == |o.message| then [sent[0]] else []) + Survivors(more, sent[1..])
    decreases |more|
  {
    var all := [o] + more;
    if more == [] {
      assert all[..0] == [] && all[0] == o;
    } else {
      var n := |more| - 1;
      assert all[..n + 1] == [o] + more[..n] && all[n + 1] == more[n] && sent[1..][n] == sent[n + 1];
      SurvivorsFront(o, more[..n], sent);
      Associative(if o.sent == |o.message| then [sent[0]] else [], Survivors(more[..n], sent[1..]),
                  if more[n].sent == |more[n].message| then [sent[n + 1]] else []);
    }
  }

  lemma {:induction false} TailFront(o: Q.Outcome, more: seq<Q.Outcome>)
    ensures Tail([o] + more) ==
      if !NothingSent(more) then Tail(more) else if Torn(o) then o.message[..o.sent] else []
    decreases |more|
  {
    var all := [o] + more;
    if more == [] {
      assert all[..0] == [] && all[0] == o;
    } else {
      var n := |more| - 1;
      assert all[..n + 1] == [o] + more[..n] && all[n + 1] == more[n];
      TailFront(o, more[..n]);
      assert more[n].sent == 0 && NothingSent(more[..n]) ==> NothingSent(more);
    }
  }

  lemma EndedFront(p: Policy, o: Q.Outcome, more: seq<Q.Outcome>, sent: seq<seq<byte>>)
    requires Ended(p, [o] + more, sent)
    ensures o.message == Frame(p, sent[0]) && o.sent <= |o.message| && Ended(p, more, sent[1..])
  {
    var all := [o] + more;
    assert all[0] == o && forall i :: 0 <= i < |more| ==> more[i] == all[i + 1];
    assert o in all && forall d :: d in more ==> d in all;
  }

  /** What depends on the outcomes, told by the first of them and the rest. */
  lemma FrontOf(p: Policy, o: Q.Outcome, more: seq<Q.Outcome>, sent: seq<seq<byte>>)
    requires Ended(p, [o] + more, sent)
    ensures o.message == Frame(p, sent[0]) && o.sent <= |o.message| && Ended(p, more, sent[1..])
    ensures Q.Sent([o] + more) == o.message[..o.sent] + Q.Sent(more)
    ensures Survivors([o] + more, sent)
      == (if o.sent == |o.message| then [sent[0]] else []) + Survivors(more, sent[1..])
    ensures Tail([o] + more) ==
      if !NothingSent(more) then Tail(more) else if Torn(o) then o.message[..o.sent] else []
  {
    AllWithin(p, [o] + more, sent);
    EndedFront(p, o, more, sent);
    SentFront(o, more);
    SurvivorsFront(o, more, sent);
    TailFront(o, more);
  }

  lemma Front(p: Policy, done: seq<Q.Outcome>, sent: seq<seq<byte>>)
      returns (o: Q.Outcome, more: seq<Q.Outcome>, later: seq<seq<byte>>)
    requires Ended(p, done, sent) && done != []
    ensures done == [o] + more && |more| < |done| && later == sent[1..]
    ensures o.message == Frame(p, sent[0]) && o.sent <= |o.message| && Ended(p, more, later)
    ensures Q.Sent(done) == o.message[..o.sent] + Q.Sent(more)
    ensures Survivors(done, sent) == (if o.sent == |o.message| then [sent[0]] else []) + Survivors(more, later)
    ensures Tail(done) == if !NothingSent(more) then Tail(more) else if Torn(o) then o.message[..o.sent] else []
  {
    o, more, later := done[0], done[1..], sent[1..];
    assert done == [o] + more;
    FrontOf(p, o, more, sent);
  }

  lemma {:induction false} NothingSentIsNothing(p: Policy, done: seq<Q.Outcome>, sent: seq<seq<byte>>)
    requires Ended(p, done, sent) && NothingSent(done)
    ensures Survivors(done, sent) == [] && Tail(done) == [] && Q.Sent(done) == [] && TearLast(done)
    decreases |done|
  {
    if done != [] {
      var o, more, later := Front(p, done, sent);
      FrameNotEmpty(p, sent[0]);
      assert o.sent == 0 && forall i :: 0 <= i < |more| ==> more[i] == done[i + 1];
      NothingSentIsNothing(p, more, later);
    }
  }

  // ----- one frame read from behind

  /** In a run of bytes that repeats every `d`, a byte comes back among the last `d`. */
  lemma {:induction false} Recurs(m: seq<byte>, d: nat, j: nat) returns (i: nat)
    requires j < |m| && 1 <= d <= |m| && forall x :: d <= x < |m| ==> m[x] == m[x - d]
    ensures |m| - d <= i < |m| && m[i] == m[j]
    decreases |m| - j
  {
    if j < |m| - d {
      i := Recurs(m, d, j + d);
    } else {
      i := j;
    }
  }

  /**
   * The receiver is behind by `r`, reads a size of `h` bytes out of it and then the very payload
   * that follows: what it is behind by afterwards has a byte with a clear top bit again.
   */
  lemma StillBehind(r: seq<byte>, m: seq<byte>, h: nat)
    requires 1 <= h <= |r| && |m| < 0x80 && (r + [|m|] + m)[h..h + |m|] == m
    ensures HasLow((r + [|m|] + m)[h + |m|..])
  {
    var k := |m|;
    var a := r + [k] + m;
    var behind := a[h + k..];
    assert a[|r|] == k && forall i :: 0 <= i < k ==> m[i] == a[h + i];
    if |r| >= h + k {
      assert behind[|r| - (h + k)] == k;
    } else {
      var d := |r| - h + 1;
      forall i | d <= i < k ensures m[i] == m[i - d] {
        assert a[h + i] == m[i - d];
      }
      assert m[d - 1] == k;
      var i := Recurs(m, d, d - 1);
      assert behind[i - (k - d)] == m[i];
    }
  }

  lemma SmallFrame(p: Policy, m: seq<byte>)
    requires p.Varint? && |m| < 0x80
    ensures Frame(p, m) == [|m|] + m
  {
  }

  lemma SizeWithin(p: Policy, r: seq<byte>, s: seq<byte>)
    requires p.Varint? && HasLow(r) && r <= s
    ensures HasSize(p, s) && 1 <= SizeLength(p, s) <= |r|
  {
    var i :| 0 <= i < |r| && r[i] < 0x80;
    SizeShape(p, s);
    assert s[i] == r[i];
  }

  /** A receiver behind by `r` that is handed the next payload all the same stays behind. */
  lemma FrameFromBehind(p: Policy, accept: Validator, r: seq<byte>, m: seq<byte>, c: seq<byte>, ms: seq<seq<byte>>)
      returns (behind: seq<byte>)
    requires p.Varint? && HasLow(r) && |m| < 0x80
    requires Parse(p, accept, r + Frame(p, m) + c).messages == [m] + ms
    ensures HasLow(behind)
    ensures Parse(p, accept, behind + c) == Parsed(ms, Parse(p, accept, r + Frame(p, m) + c).rest)
  {
    SmallFrame(p, m);
    Associative(r, [|m|], m);
    behind := ReadFromBehind(p, accept, r, m, r + [|m|] + m, c, ms);
  }

  lemma ReadFromBehind(p: Policy, accept: Validator, r: seq<byte>, m: seq<byte>, a: seq<byte>, c: seq<byte>,
                       ms: seq<seq<byte>>)
      returns (behind: seq<byte>)
    requires p.Varint? && HasLow(r) && |m| < 0x80 && a == r + ([|m|] + m) == r + [|m|] + m
    requires Parse(p, accept, a + c).messages == [m] + ms
    ensures HasLow(behind) && Parse(p, accept, behind + c) == Parsed(ms, Parse(p, accept, a + c).rest)
  {
    SizeWithinJoin(p, r, [|m|] + m, a, c);
    FirstIs(p, accept, a + c, m, ms);
    behind := BytesBehind(r, m, a, c, SizeLength(p, a + c));
  }

  lemma SizeWithinJoin(p: Policy, r: seq<byte>, b: seq<byte>, a: seq<byte>, c: seq<byte>)
    requires p.Varint? && HasLow(r) && a == r + b
    ensures HasSize(p, a + c) && 1 <= SizeLength(p, a + c) <= |r|
  {
    assert r <= a + c;
    SizeWithin(p, r, a + c);
  }

  lemma BytesBehind(r: seq<byte>, m: seq<byte>, a: seq<byte>, c: seq<byte>, h: nat) returns (behind: seq<byte>)
    requires 1 <= h <= |r| && |m| < 0x80 && a == r + [|m|] + m && (a + c)[h..h + |m|] == m
    ensures HasLow(behind) && behind + c == (a + c)[h + |m|..]
  {
    behind := a[h + |m|..];
    SlicesOfJoin(a, c, h, |m|);
    StillBehind(r, m, h);
  }

  lemma SlicesOfJoin(a: seq<byte>, c: seq<byte>, h: nat, k: nat)
    requires h + k <= |a|
    ensures (a + c)[h..h + k] == a[h..h + k] && (a + c)[h + k..] == a[h + k..] + c
  {
  }

  lemma FirstIs(p: Policy, accept: Validator, s: seq<byte>, m: seq<byte>, ms: seq<seq<byte>>)
    requires Parse(p, accept, s).messages == [m] + ms
    ensures var h := SizeLength(p, s); var end := h + |m|;
      && end <= |s| && s[h..end] == m && Parse(p, accept, s[end..]) == Parsed(ms, Parse(p, accept, s).rest)
  {
    assert ([m] + ms)[0] == m && ([m] + ms)[1..] == ms;
    var later := Parse(p, accept, s[FrameEnd(p, s)..]);
    assert ([Payload(p, s)] + later.messages)[0] == Payload(p, s);
    assert ([Payload(p, s)] + later.messages)[1..] == later.messages;
  }

  // ----- whole histories

  /** Once behind, a receiver that gets the right messages is left with more than the torn bytes. */
  lemma {:induction false} NeverCatchesUp(p: Policy, accept: Validator, r: seq<byte>,
                                          done: seq<Q.Outcome>, sent: seq<seq<byte>>)
    requires p.Varint? && Small(sent) && Ended(p, done, sent) && HasLow(r)
    requires Parse(p, accept, r + Q.Sent(done)).messages == Survivors(done, sent)
    ensures |Parse(p, accept, r + Q.Sent(done)).rest| > |Tail(done)|
    decreases |done|
  {
    if Survivors(done, sent) == [] {
      AllOfItLeft(p, accept, r, done, sent);
    } else {
      var o, more, later := Front(p, done, sent);
      assert sent[0] in sent && Small(later);
      var behind := OneMoreBehind(p, accept, r, o, sent[0], Q.Sent(more), Survivors(more, later));
      NeverCatchesUp(p, accept, behind, more, later);
      if NothingSent(more) {
        NothingSentIsNothing(p, more, later);
      }
    }
  }

  /** What the receiver is behind by once it has been sent all there is of one more message. */
  lemma OneMoreBehind(p: Policy, accept: Validator, r: seq<byte>, o: Q.Outcome, m: seq<byte>, c: seq<byte>,
                      ms: seq<seq<byte>>)
      returns (behind: seq<byte>)
    requires p.Varint? && HasLow(r) && |m| < 0x80 && o.message == Frame(p, m) && o.sent <= |o.message|
    requires Parse(p, accept, r + (o.message[..o.sent] + c)).messages
      == (if o.sent == |o.message| then [m] else []) + ms
    ensures HasLow(behind)
    ensures Parse(p, accept, behind + c) == Parsed(ms, Parse(p, accept, r + (o.message[..o.sent] + c)).rest)
  {
    Associative(r, o.message[..o.sent], c);
    if o.sent == |o.message| {
      assert o.message[..o.sent] == o.message;
      behind := FrameFromBehind(p, accept, r, m, c, ms);
    } else {
      assert [] + ms == ms;
      behind := r + o.message[..o.sent];
      StillLow(r, o.message[..o.sent]);
    }
  }

  lemma StillLow(r: seq<byte>, t: seq<byte>)
    requires HasLow(r)
    ensures HasLow(r + t)
  {
    var i :| 0 <= i < |r| && r[i] < 0x80;
    assert (r + t)[i] == r[i];
  }

  lemma AllOfItLeft(p: Policy, accept: Validator, r: seq<byte>, done: seq<Q.Outcome>, sent: seq<seq<byte>>)
    requires Ended(p, done, sent) && HasLow(r)
    requires Parse(p, accept, r + Q.Sent(done)).messages == [] == Survivors(done, sent)
    ensures |Parse(p, accept, r + Q.Sent(done)).rest| > |Tail(done)|
  {
    WireLength(p, done, sent);
    AllWithin(p, done, sent);
    TornBytesAreTail(done);
  }

  lemma TornHasLow(p: Policy, o: Q.Outcome, m: seq<byte>)
    requires p.Varint? && |m| < 0x80 && o.message == Frame(p, m) && Torn(o)
    ensures HasLow(o.message[..o.sent])
  {
    SmallFrame(p, m);
    assert o.message[..o.sent][0] == |m|;
  }

  /** If the receiver is left with what it should be left with, no byte follows a torn message. */
  lemma {:induction false} TearNoticed(p: Policy, accept: Validator, done: seq<Q.Outcome>, sent: seq<seq<byte>>)
    requires p.Varint? && Small(sent) && Ended(p, done, sent) && forall m :: m in sent ==> Carried(p, accept, m)
    requires Parse(p, accept, Q.Sent(done)) == Parsed(Survivors(done, sent), Tail(done))
    ensures TearLast(done)
    decreases |done|
  {
    if done != [] {
      var o, more, later := Front(p, done, sent);
      assert sent[0] in sent && Small(later);
      if NothingSent(more) {
        NothingSentIsNothing(p, more, later);
        TearLastFront(o, more);
      } else if Torn(o) {
        TornHasLow(p, o, sent[0]);
        assert [] + Survivors(more, later) == Survivors(more, later);
        NeverCatchesUp(p, accept, o.message[..o.sent], more, later);
        assert false;
      } else {
        FrontParsed(p, accept, o, sent[0], Q.Sent(more), Survivors(more, later));
        TearNoticed(p, accept, more, later);
        TearLastFront(o, more);
      }
    }
  }

  lemma TearLastFront(o: Q.Outcome, more: seq<Q.Outcome>)
    requires TearLast(more) && (Torn(o) ==> NothingSent(more))
    ensures TearLast([o] + more)
  {
    var all := [o] + more;
    forall i, j | 0 <= i < j < |all| && Torn(all[i])
      ensures all[j].sent == 0
    {
      assert all[j] == more[j - 1];
      if i > 0 {
        assert all[i] == more[i - 1];
      }
    }
  }

  lemma FrontParsed(p: Policy, accept: Validator, o: Q.Outcome, m: seq<byte>, c: seq<byte>, ms: seq<seq<byte>>)
    requires o.message == Frame(p, m) && o.sent <= |o.message| && !Torn(o) && Carried(p, accept, m)
    requires Parse(p, accept, o.message[..o.sent] + c).messages == (if o.sent == |o.message| then [m] else []) + ms
    ensures Parse(p, accept, c) == Parsed(ms, Parse(p, accept, o.message[..o.sent] + c).rest)
  {
    FrameNotEmpty(p, m);
    if o.sent == 0 {
      assert o.message[..o.sent] + c == c && [] + ms == ms;
    } else {
      PackAnnounces(p, accept, m);
      assert o.message[..o.sent] == Pack(p, |m|) + m;
      FirstFrame(p, accept, Pack(p, |m|), m, c);
      assert ([m] + Parse(p, accept, c).messages)[1..] == Parse(p, accept, c).messages && ([m] + ms)[1..] == ms;
    }
  }

  lemma SmallIff(p: Policy, accept: Validator, done: seq<Q.Outcome>, sent: seq<seq<byte>>)
    requires p.Varint? && Small(sent) && Ended(p, done, sent) && forall m :: m in sent ==> Carried(p, accept, m)
    ensures Parse(p, accept, Q.Sent(done)) == Parsed(Survivors(done, sent), Tail(done)) <==> TearLast(done)
  {
    if TearLast(done) {
      QuietParse(p, accept, done, sent);
    } else if Parse(p, accept, Q.Sent(done)) == Parsed(Survivors(done, sent), Tail(done)) {
      TearNoticed(p, accept, done, sent);
    }
  }

  // ----- runs

  lemma {:induction false} SentWasPosted(p: Policy, accept: Validator, l: Link, steps: seq<Step>)
    requires Small(l.sent) && forall s :: s in steps && s.Send? ==> |s.payload| < 0x80
    ensures Small(Exec(p, accept, l, steps).sent)
    decreases |steps|
  {
    if steps != [] {
      assert steps[0] in steps;
      SentWasPosted(p, accept, Apply(p, accept, l, steps[0]), steps[1..]);
    }
  }

  /**
   * With varint sizes of one byte, too, in every reachable state whose wire is delivered the
   * receiver has the messages that went out whole, and the torn bytes of the last one, if and only
   * if no byte follows a torn message.
   */
  lemma DrainedIffQuiet(p: Policy, accept: Validator, steps: seq<Step>)
    requires p.Varint? && Sends(p, accept, steps) && forall s :: s in steps && s.Send? ==> |s.payload| < 0x80
    ensures var l := Exec(p, accept, INIT, steps); var w, done := l.writer, Written(l.writer);
      && |done| <= |l.sent|
      && (l.delivered == |w.wire| ==>
            (Received(l) == Survivors(done, l.sent) && l.buffer == Tail(done) <==> QuietAfterTear(w)))
  {
    var l := Exec(p, accept, INIT, steps);
    LinkWritten(p, accept, steps, l);
    SentWasPosted(p, accept, INIT, steps);
    if l.delivered == |l.writer.wire| {
      HeardWhole(p, accept, l.writer.wire, l.delivered, l.events, l.buffer);
      SmallIff(p, accept, Written(l.writer), l.sent);
    }
  }
}
