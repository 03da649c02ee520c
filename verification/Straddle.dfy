/**
 * Changes within four consecutive bytes of a sealed block. A checksum detects all of them in the
 * body; but a block also has the checksum in it, most significant byte first, and a change may
 * lie across the boundary.
 */
module Straddle {
  import opened Bytes
  import opened CrcTable
  import Crc
  import S = Serial
  import opened BinaryProtocol

  // ----- the division step is linear and can be undone

  function Xor(a: bv32, b: bv32): bv32 {
    a ^ b
  }

  ghost predicate Linear<W(!new)>(f: W -> W, xor: (W, W) -> W) {
    forall x, y :: f(xor(x, y)) == xor(f(x), f(y))
  }

  lemma EightLinear<W(!new)>(f: W -> W, xor: (W, W) -> W, x: W, y: W)
    requires Linear(f, xor)
    ensures S.Eight(xor(x, y), f) == xor(S.Eight(x, f), S.Eight(y, f))
  {
  }

  lemma EightIsShiftEight(c: bv32)
    ensures S.Eight(c, ShiftOne) == ShiftEight(c)
  {
  }

  function Flip(x: bv32): bv32 {
    0xedb88320 ^ x
  }

  lemma XorCommutes(x: bv32, y: bv32)
    ensures Xor(x, y) == Xor(y, x)
  {
  }

  lemma FlipMoves(x: bv32, y: bv32)
    ensures Flip(Xor(x, y)) == Xor(x, Flip(y))
  {
  }

  lemma FlipsCancel(x: bv32, y: bv32)
    ensures Xor(Flip(x), Flip(y)) == Xor(x, y)
  {
  }

  lemma StepShape(c: bv32)
    ensures ShiftOne(c) == if Crc.Low(c) then Flip(Crc.Next(c)) else Crc.Next(c)
  {
  }

  lemma XorSplits(x: bv32, y: bv32)
    ensures Crc.Next(Xor(x, y)) == Xor(Crc.Next(x), Crc.Next(y))
    ensures Crc.Low(Xor(x, y)) <==> (Crc.Low(x) != Crc.Low(y))
  {
  }

  /** A step, told by the bit `l` it shifts out and the rest `x`. */
  function Stepped<W>(l: bool, x: W, flip: W -> W): W {
    if l then flip(x) else x
  }

  /** If flipping moves past joining, two steps joined are the step of the two joined. */
  lemma StepsJoin<W>(l: bool, x: W, m: bool, y: W, flip: W -> W, xor: (W, W) -> W)
    requires flip(xor(x, y)) == xor(x, flip(y)) && flip(xor(y, x)) == xor(y, flip(x))
    requires xor(x, y) == xor(y, x) && xor(flip(x), y) == xor(y, flip(x)) && xor(flip(x), flip(y)) == xor(x, y)
    ensures Stepped(l != m, xor(x, y), flip) == xor(Stepped(l, x, flip), Stepped(m, y, flip))
  {
  }

  lemma ReducedLinear(l: bool, x: bv32, m: bool, y: bv32)
    ensures Stepped(l != m, Xor(x, y), Flip) == Xor(Stepped(l, x, Flip), Stepped(m, y, Flip))
  {
    XorCommutes(x, y);
    XorCommutes(Flip(x), y);
    FlipMoves(x, y);
    FlipMoves(y, x);
    FlipsCancel(x, y);
    StepsJoin(l, x, m, y, Flip, Xor);
  }

  lemma ShiftIsStepped(c: bv32)
    ensures ShiftOne(c) == Stepped(Crc.Low(c), Crc.Next(c), Flip)
  {
    StepShape(c);
  }

  lemma ShiftOneLinear(a: bv32, b: bv32)
    ensures ShiftOne(Xor(a, b)) == Xor(ShiftOne(a), ShiftOne(b))
  {
    ShiftIsStepped(a);
    ShiftIsStepped(b);
    ShiftIsStepped(Xor(a, b));
    XorSplits(a, b);
    ReducedLinear(Crc.Low(a), Crc.Next(a), Crc.Low(b), Crc.Next(b));
  }

  lemma ShiftIsLinear()
    ensures Linear(ShiftOne, Xor)
  {
    forall x: bv32, y: bv32 ensures ShiftOne(Xor(x, y)) == Xor(ShiftOne(x), ShiftOne(y)) {
      ShiftOneLinear(x, y);
    }
  }

  lemma ShiftEightLinear(a: bv32, b: bv32)
    ensures ShiftEight(Xor(a, b)) == Xor(ShiftEight(a), ShiftEight(b))
  {
    ShiftIsLinear();
    EightLinear(ShiftOne, Xor, a, b);
    EightIsShiftEight(a);
    EightIsShiftEight(b);
    EightIsShiftEight(Xor(a, b));
  }

  lemma HighBytesMoveDown(w: bv32)
    requires w & 0xFF == 0
    ensures ShiftEight(w) == w >> 8
  {
  }

  function UnshiftOne(c: bv32): bv32 {
    if c & 0x80000000 != 0 then ((c ^ 0xedb88320) << 1) | 1 else c << 1
  }

  lemma UnshiftUndoes(c: bv32)
    ensures UnshiftOne(ShiftOne(c)) == c
  {
  }

  lemma EightUndone<W(!new)>(f: W -> W, g: W -> W, c: W)
    requires forall x :: g(f(x)) == x
    ensures S.Eight(S.Eight(c, f), g) == c
  {
  }

  function UnshiftEight(c: bv32): bv32 {
    UnshiftOne(UnshiftOne(UnshiftOne(UnshiftOne(UnshiftOne(UnshiftOne(UnshiftOne(UnshiftOne(c))))))))
  }

  lemma EightIsUnshiftEight(c: bv32)
    ensures S.Eight(c, UnshiftOne) == UnshiftEight(c)
  {
  }

  lemma UnshiftEightUndoes(c: bv32)
    ensures UnshiftEight(ShiftEight(c)) == c
  {
    forall x: bv32 ensures UnshiftOne(ShiftOne(x)) == x {
      UnshiftUndoes(x);
    }
    EightUndone(ShiftOne, UnshiftOne, c);
    EightIsShiftEight(c);
    EightIsUnshiftEight(ShiftEight(c));
  }

  // ----- which differences leave the low bytes of the register alone

  lemma OneByte(d: bv32)
    requires d < 0x100 && ShiftEight(d) & 0xFF == 0
    ensures d == 0
  {
  }

  lemma TwoBytes(d: bv32, e: bv32)
    requires d < 0x100 && e < 0x100 && ShiftEight(Xor(ShiftEight(d), e)) & 0xFFFF == 0
    ensures (d == 0 && e == 0) || (d == 0x61 && e == 0xd8)
  {
  }

  lemma TwoBytesSlip()
    ensures ShiftEight(Xor(ShiftEight(0x61), 0xd8)) == 0xf4ee0000
  {
  }

  lemma EvenTopByteUndone(y: bv32)
    requires y & 0x1FFFFFF == 0 && UnshiftEight(UnshiftEight(UnshiftEight(y))) < 0x1000000
    ensures y == 0
  {
  }

  lemma OddTopByteUndone(y: bv32)
    requires y & 0x1FFFFFF == 0x1000000
    ensures UnshiftEight(UnshiftEight(UnshiftEight(y))) >= 0x1000000
  {
  }

  lemma LowBit(y: bv32)
    requires y & 0xFFFFFF == 0
    ensures y & 0x1FFFFFF == 0 || y & 0x1FFFFFF == 0x1000000
  {
  }

  lemma TopByteUndone(y: bv32)
    requires y & 0xFFFFFF == 0 && UnshiftEight(UnshiftEight(UnshiftEight(y))) < 0x1000000
    ensures y == 0
  {
    LowBit(y);
    if y & 0x1FFFFFF == 0 {
      EvenTopByteUndone(y);
    } else {
      OddTopByteUndone(y);
    }
  }

  lemma ZeroUndone()
    ensures UnshiftEight(0) == 0
  {
  }

  /** Three bytes fed to an empty register, in one word. */
  lemma ThreeFed(d: bv32, e: bv32, f: bv32)
    requires d < 0x100 && e < 0x100 && f < 0x100
    ensures ShiftEight(Xor(ShiftEight(Xor(ShiftEight(d), e)), f))
      == ShiftEight(ShiftEight(ShiftEight(Xor(Xor(d, e << 8), f << 16))))
  {
    RaisedIsShifted(e);
    RaisedIsShifted(f);
    EightIsLinear();
    Absorbed(ShiftEight, Xor, d, e, e << 8, f, f << 8, f << 16);
  }

  lemma EightIsLinear()
    ensures Linear(ShiftEight, Xor)
  {
    forall x: bv32, y: bv32 ensures ShiftEight(Xor(x, y)) == Xor(ShiftEight(x), ShiftEight(y)) {
      ShiftEightLinear(x, y);
    }
  }

  /** What is joined after a step may as well be joined before it, if it is what the step makes of that. */
  lemma Absorbed<W(!new)>(s: W -> W, xor: (W, W) -> W, d: W, e: W, e1: W, f: W, f1: W, f2: W)
    requires Linear(s, xor) && s(e1) == e && s(f1) == f && s(f2) == f1
    ensures s(xor(s(xor(s(d), e)), f)) == s(s(s(xor(xor(d, e1), f2))))
  {
    var b := xor(d, e1);
    assert s(b) == xor(s(d), e);
    assert s(xor(s(b), f1)) == xor(s(s(b)), f);
    assert s(xor(b, f2)) == xor(s(b), f1);
  }

  lemma RaisedIsShifted(f: bv32)
    requires f < 0x100
    ensures ShiftEight(f << 8) == f && ShiftEight(f << 16) == f << 8
  {
    ByteRaised(f);
    HighBytesMoveDown(f << 16);
    HighBytesMoveDown(f << 8);
  }

  lemma ByteRaised(f: bv32)
    requires f < 0x100
    ensures (f << 16) >> 8 == f << 8 && (f << 8) >> 8 == f && (f << 16) & 0xFF == 0 && (f << 8) & 0xFF == 0
  {
  }

  lemma ThreeBytes(d: bv32, e: bv32, f: bv32)
    requires d < 0x100 && e < 0x100 && f < 0x100
    requires ShiftEight(Xor(ShiftEight(Xor(ShiftEight(d), e)), f)) & 0xFFFFFF == 0
    ensures d == 0 && e == 0 && f == 0
  {
    var x := Xor(Xor(d, e << 8), f << 16);
    ThreeFed(d, e, f);
    Joined(d, e, f);
    LowBytesKept(x);
  }

  lemma Joined(d: bv32, e: bv32, f: bv32)
    requires d < 0x100 && e < 0x100 && f < 0x100
    ensures Xor(Xor(d, e << 8), f << 16) < 0x1000000
    ensures Xor(Xor(d, e << 8), f << 16) == 0 ==> d == 0 && e == 0 && f == 0
  {
  }

  lemma LowBytesKept(x: bv32)
    requires x < 0x1000000 && ShiftEight(ShiftEight(ShiftEight(x))) & 0xFFFFFF == 0
    ensures x == 0
  {
    UnshiftEightUndoes(x);
    UnshiftEightUndoes(ShiftEight(x));
    UnshiftEightUndoes(ShiftEight(ShiftEight(x)));
    TopByteUndone(ShiftEight(ShiftEight(ShiftEight(x))));
    ZeroUndone();
  }

  // ----- what a change of the last body bytes does to the checksum's word

  function LowByte(c: bv32): bv32 {
    c & 0xFF
  }

  function HighBytes(c: bv32): bv32 {
    c & 0xFFFFFF00
  }

  function Down(c: bv32): bv32 {
    c >> 8
  }

  lemma SplitWord(w: bv32)
    ensures w == Xor(LowByte(w), HighBytes(w))
  {
  }

  lemma HighBytesDown(w: bv32)
    ensures HighBytes(w) & 0xFF == 0 && HighBytes(w) >> 8 == w >> 8
  {
  }

  lemma HighBytesShifted(w: bv32)
    ensures ShiftEight(HighBytes(w)) == Down(w)
  {
    HighBytesDown(w);
    HighBytesMoveDown(HighBytes(w));
  }

  lemma ShiftEightSplits(w: bv32)
    ensures ShiftEight(w) == Xor(ShiftEight(LowByte(w)), Down(w))
  {
    SplitWord(w);
    HighBytesShifted(w);
    ShiftEightLinear(LowByte(w), HighBytes(w));
  }

  lemma ByteJoined(c: bv32, v: bv32)
    requires v < 0x100
    ensures Down(Xor(c, v)) == Down(c)
  {
  }

  lemma UpdateShape(c: bv32, b: byte)
    ensures Crc.Update(c, b) == GetValue(c ^ Crc.Word(b)) ^ (c >> 8)
  {
  }

  lemma EntryShape(x: bv32)
    ensures GetValue(x) == ShiftEight(LowByte(x))
  {
    EntryIsEightSteps(x);
  }

  lemma ShapeOfUpdate(c: bv32, b: byte, x: bv32, entry: bv32)
    requires x == c ^ Crc.Word(b) && entry == GetValue(x)
    ensures Crc.Update(c, b) == entry ^ (c >> 8)
  {
    UpdateShape(c, b);
  }

  lemma Joining(c: bv32, v: bv32)
    ensures Xor(c, v) == c ^ v
  {
  }

  lemma DownJoined(c: bv32, entry: bv32)
    ensures Xor(entry, Down(c)) == entry ^ (c >> 8)
  {
  }

  lemma ShiftOfJoined(c: bv32, v: bv32, x: bv32)
    requires v < 0x100 && x == c ^ v
    ensures ShiftEight(LowByte(x)) ^ (c >> 8) == ShiftEight(x)
  {
    Joining(c, v);
    ByteJoined(c, v);
    ShiftEightSplits(x);
    DownJoined(c, ShiftEight(LowByte(x)));
  }

  lemma EntryOfUpdate(c: bv32, b: byte, x: bv32)
    requires x == c ^ Crc.Word(b)
    ensures Crc.Update(c, b) == ShiftEight(LowByte(x)) ^ (c >> 8)
  {
    EntryShape(x);
    ShapeOfUpdate(c, b, x, ShiftEight(LowByte(x)));
  }

  /** A table look-up is eight steps of the register with the byte joined in. */
  lemma UpdateIsShift(c: bv32, b: byte)
    ensures Crc.Update(c, b) == ShiftEight(Xor(c, Crc.Word(b)))
  {
    Crc.ByteOfWord(b);
    var x := Xor(c, Crc.Word(b));
    Joining(c, Crc.Word(b));
    EntryOfUpdate(c, b, x);
    ShiftOfJoined(c, Crc.Word(b), x);
  }

  function Words(data: seq<byte>): (ws: seq<bv32>)
    ensures |ws| == |data|
  {
    seq(|data|, i requires 0 <= i < |data| => Crc.Word(data[i]))
  }

  /** Bytes, as words, fed to a register one by one. */
  function Fed<W>(step: W -> W, xor: (W, W) -> W, c: W, ws: seq<W>): W
    decreases |ws|
  {
    if ws == [] then c else Fed(step, xor, step(xor(c, ws[0])), ws[1..])
  }

  lemma {:induction false} UpdateAllIsFed(c: bv32, data: seq<byte>)
    ensures Crc.UpdateAll(c, data) == Fed(ShiftEight, Xor, c, Words(data))
    decreases |data|
  {
    if data != [] {
      UpdateIsShift(c, data[0]);
      UpdateAllIsFed(Crc.Update(c, data[0]), data[1..]);
      assert Words(data)[1..] == Words(data[1..]);
    }
  }

  function Joint<W>(xor: (W, W) -> W, us: seq<W>, vs: seq<W>): (ws: seq<W>)
    requires |us| == |vs|
    ensures |ws| == |us|
  {
    seq(|us|, i requires 0 <= i < |us| => xor(us[i], vs[i]))
  }

  ghost predicate Interchange<W(!new)>(xor: (W, W) -> W) {
    forall a, b, c, d :: xor(xor(a, b), xor(c, d)) == xor(xor(a, c), xor(b, d))
  }

  lemma XorInterchanges()
    ensures Interchange(Xor)
  {
    forall a: bv32, b: bv32, c: bv32, d: bv32 ensures Xor(Xor(a, b), Xor(c, d)) == Xor(Xor(a, c), Xor(b, d)) {}
  }

  /** Two registers fed side by side, joined, are the joined registers fed the joined bytes. */
  lemma {:induction false} FedLinear<W(!new)>(step: W -> W, xor: (W, W) -> W, c: W, d: W, us: seq<W>, vs: seq<W>)
    requires Linear(step, xor) && Interchange(xor) && |us| == |vs|
    ensures xor(Fed(step, xor, c, us), Fed(step, xor, d, vs)) == Fed(step, xor, xor(c, d), Joint(xor, us, vs))
    decreases |us|
  {
    if us != [] {
      var c', d' := step(xor(c, us[0])), step(xor(d, vs[0]));
      FedLinear(step, xor, c', d', us[1..], vs[1..]);
      assert Joint(xor, us, vs)[1..] == Joint(xor, us[1..], vs[1..]);
      assert xor(c', d') == step(xor(xor(c, us[0]), xor(d, vs[0])));
    }
  }

  lemma {:induction false} UpdateAllAppend(c: bv32, a: seq<byte>, b: seq<byte>)
    ensures Crc.UpdateAll(c, a + b) == Crc.UpdateAll(Crc.UpdateAll(c, a), b)
    decreases |a|
  {
    if a == [] {
      assert a + b == b;
    } else {
      assert (a + b)[0] == a[0] && (a + b)[1..] == a[1..] + b;
      UpdateAllAppend(Crc.Update(c, a[0]), a[1..], b);
    }
  }

  function Diff(u: seq<byte>, v: seq<byte>): (ds: seq<bv32>)
    requires |u| == |v|
    ensures |ds| == |u|
  {
    Joint(Xor, Words(u), Words(v))
  }

  lemma Complement(a: bv32)
    ensures !a == Xor(a, 0xFFFFFFFF)
  {
  }

  lemma XorZero(a: bv32)
    ensures Xor(a, 0) == a
  {
  }

  lemma ComplementsJoined(a: bv32, b: bv32)
    ensures Xor(!a, !b) == Xor(a, b)
  {
    Complement(a);
    Complement(b);
    XorInterchanges();
    var ones: bv32 := 0xFFFFFFFF;
    assert Xor(Xor(a, ones), Xor(b, ones)) == Xor(Xor(a, b), Xor(ones, ones));
    XorSelf(ones);
    XorZero(Xor(a, b));
  }

  lemma XorSelf(c: bv32)
    ensures Xor(c, c) == 0
  {
  }

  /** How the checksum's word changes depends on the changed bytes alone. */
  lemma WordChange(before: seq<byte>, u: seq<byte>, v: seq<byte>)
    requires |u| == |v|
    ensures Xor(Crc.Crc32(before + u), Crc.Crc32(before + v)) == Fed(ShiftEight, Xor, 0, Diff(u, v))
  {
    var c := Crc.UpdateAll(0xFFFFFFFF, before);
    UpdateAllAppend(0xFFFFFFFF, before, u);
    UpdateAllAppend(0xFFFFFFFF, before, v);
    UpdateAllIsFed(c, u);
    UpdateAllIsFed(c, v);
    EightIsLinear();
    XorInterchanges();
    FedLinear(ShiftEight, Xor, c, c, Words(u), Words(v));
    XorSelf(c);
    ComplementsJoined(Crc.UpdateAll(c, u), Crc.UpdateAll(c, v));
  }

  // ----- the checksum's bytes

  /** How two bytes differ. */
  function Apart(a: byte, b: byte): bv32 {
    Xor(Crc.Word(a), Crc.Word(b))
  }

  lemma Narrowed(w: bv32)
    requires w < 0x100
    ensures (w as bv8) as bv32 == w
  {
  }

  lemma BackAndForth(v: bv8)
    ensures (v as byte) as bv8 == v
  {
  }

  lemma WordOfByte(w: bv32)
    requires w < 0x100
    ensures Crc.Word((w as bv8) as byte) == w
  {
    Narrowed(w);
    BackAndForth(w as bv8);
  }

  lemma ApartZero(a: byte, b: byte)
    ensures Apart(a, b) == 0 <==> a == b
  {
    Crc.ByteOfWord(a);
    Crc.ByteOfWord(b);
    ZeroIfSame(Crc.Word(a), Crc.Word(b));
  }

  lemma ZeroIfSame(a: bv32, b: bv32)
    ensures Xor(a, b) == 0 <==> a == b
  {
    XorSelf(a);
    if Xor(a, b) == 0 {
      XorInjective(a, b, a);
    }
  }

  lemma ApartSmall(a: byte, b: byte)
    ensures Apart(a, b) < 0x100
  {
    Crc.ByteOfWord(a);
    Crc.ByteOfWord(b);
    SmallXor(Crc.Word(a), Crc.Word(b));
  }

  lemma SmallXor(a: bv32, b: bv32)
    requires a < 0x100 && b < 0x100
    ensures Xor(a, b) < 0x100
  {
  }

  function First(c: bv32): bv32 {
    c >> 24
  }

  function Second(c: bv32): bv32 {
    (c >> 16) & 0xFF
  }

  function Third(c: bv32): bv32 {
    (c >> 8) & 0xFF
  }

  lemma FirstOfXor(c: bv32, d: bv32)
    ensures First(Xor(c, d)) == Xor(First(c), First(d))
  {
  }

  lemma SecondOfXor(c: bv32, d: bv32)
    ensures Second(Xor(c, d)) == Xor(Second(c), Second(d))
  {
  }

  lemma ThirdOfXor(c: bv32, d: bv32)
    ensures Third(Xor(c, d)) == Xor(Third(c), Third(d))
  {
  }

  lemma LowByteOfXor(c: bv32, d: bv32)
    ensures LowByte(Xor(c, d)) == Xor(LowByte(c), LowByte(d))
  {
  }

  lemma BytesSmall(c: bv32)
    ensures First(c) < 0x100 && Second(c) < 0x100 && Third(c) < 0x100 && LowByte(c) < 0x100
  {
  }

  lemma Spelled(c: bv32)
    ensures Crc.Spell(c) == [(First(c) as bv8) as byte, (Second(c) as bv8) as byte,
                             (Third(c) as bv8) as byte, (LowByte(c) as bv8) as byte]
  {
  }

  lemma SpelledWords(c: bv32, s: seq<byte>)
    requires s == Crc.Spell(c)
    ensures Crc.Word(s[0]) == First(c) && Crc.Word(s[1]) == Second(c)
    ensures Crc.Word(s[2]) == Third(c) && Crc.Word(s[3]) == LowByte(c)
  {
    Spelled(c);
    BytesSmall(c);
    WordOfByte(First(c));
    WordOfByte(Second(c));
    WordOfByte(Third(c));
    WordOfByte(LowByte(c));
  }

  lemma SpelledApart(c: bv32, d: bv32, s: seq<byte>, t: seq<byte>)
    requires s == Crc.Spell(c) && t == Crc.Spell(d)
    ensures Apart(s[0], t[0]) == First(Xor(c, d)) && Apart(s[1], t[1]) == Second(Xor(c, d))
    ensures Apart(s[2], t[2]) == Third(Xor(c, d)) && Apart(s[3], t[3]) == LowByte(Xor(c, d))
  {
    SpelledWords(c, s);
    SpelledWords(d, t);
    FirstOfXor(c, d);
    SecondOfXor(c, d);
    ThirdOfXor(c, d);
    LowByteOfXor(c, d);
  }

  // ----- a change of up to three bytes, and the checksum's bytes

  lemma FedOne<W>(step: W -> W, xor: (W, W) -> W, zero: W, d: W)
    requires xor(zero, d) == d
    ensures Fed(step, xor, zero, [d]) == step(d)
  {
  }

  lemma FedTwo<W>(step: W -> W, xor: (W, W) -> W, zero: W, d: W, e: W)
    requires xor(zero, d) == d
    ensures Fed(step, xor, zero, [d, e]) == step(xor(step(d), e))
  {
    FedMore(step, xor, zero, d, [e]);
    FedMore(step, xor, step(d), e, []);
  }

  lemma FedThree<W>(step: W -> W, xor: (W, W) -> W, zero: W, d: W, e: W, f: W)
    requires xor(zero, d) == d
    ensures Fed(step, xor, zero, [d, e, f]) == step(xor(step(xor(step(d), e)), f))
  {
    FedMore(step, xor, zero, d, [e, f]);
    FedMore(step, xor, step(d), e, [f]);
    FedMore(step, xor, step(xor(step(d), e)), f, []);
  }

  lemma FedMore<W>(step: W -> W, xor: (W, W) -> W, c: W, d: W, ds: seq<W>)
    ensures Fed(step, xor, c, [d] + ds) == Fed(step, xor, step(xor(c, d)), ds)
  {
    assert ([d] + ds)[1..] == ds;
  }

  lemma ZeroXor(a: bv32)
    ensures Xor(0, a) == a
  {
  }

  /** How the checksum's word changes. */
  function Change(a: seq<byte>, b: seq<byte>): bv32 {
    Xor(Crc.Crc32(a), Crc.Crc32(b))
  }

  lemma DiffIs(u: seq<byte>, v: seq<byte>, ds: seq<bv32>)
    requires |u| == |v| == |ds| && forall i :: 0 <= i < |u| ==> ds[i] == Apart(u[i], v[i])
    ensures Diff(u, v) == ds
  {
    forall i | 0 <= i < |u| ensures Diff(u, v)[i] == ds[i] {
      assert Diff(u, v)[i] == Apart(u[i], v[i]);
    }
  }

  lemma ChangeIsFed(before: seq<byte>, u: seq<byte>, v: seq<byte>, ds: seq<bv32>)
    requires |u| == |v| == |ds| && forall i :: 0 <= i < |u| ==> ds[i] == Apart(u[i], v[i])
    ensures Change(before + u, before + v) == Fed(ShiftEight, Xor, 0, ds)
  {
    DiffIs(u, v, ds);
    WordChange(before, u, v);
  }

  /** The bytes of two checksums differ as those of the word `change`. */
  predicate Differ(s: seq<byte>, t: seq<byte>, change: bv32) {
    && |s| == |t| == 4
    && Apart(s[0], t[0]) == First(change) && Apart(s[1], t[1]) == Second(change)
    && Apart(s[2], t[2]) == Third(change) && Apart(s[3], t[3]) == LowByte(change)
  }

  lemma SumsDiffer(a: seq<byte>, b: seq<byte>, change: bv32)
    requires change == Change(a, b)
    ensures Differ(Crc.Checksum(a), Crc.Checksum(b), change)
  {
    SpelledApart(Crc.Crc32(a), Crc.Crc32(b), Crc.Checksum(a), Crc.Checksum(b));
  }

  lemma ChangeOfOne(before: seq<byte>, u: seq<byte>, v: seq<byte>)
    requires |u| == |v| == 1
    ensures Change(before + u, before + v) == ShiftEight(Apart(u[0], v[0]))
  {
    var d := Apart(u[0], v[0]);
    ChangeIsFed(before, u, v, [d]);
    ZeroXor(d);
    FedOne(ShiftEight, Xor, 0, d);
  }

  lemma ChangeOfTwo(before: seq<byte>, u: seq<byte>, v: seq<byte>)
    requires |u| == |v| == 2
    ensures Change(before + u, before + v) == ShiftEight(Xor(ShiftEight(Apart(u[0], v[0])), Apart(u[1], v[1])))
  {
    var d, e := Apart(u[0], v[0]), Apart(u[1], v[1]);
    ChangeIsFed(before, u, v, [d, e]);
    ZeroXor(d);
    FedTwo(ShiftEight, Xor, 0, d, e);
  }

  lemma ChangeOfThree(before: seq<byte>, u: seq<byte>, v: seq<byte>)
    requires |u| == |v| == 3
    ensures Change(before + u, before + v)
      == ShiftEight(Xor(ShiftEight(Xor(ShiftEight(Apart(u[0], v[0])), Apart(u[1], v[1]))), Apart(u[2], v[2])))
  {
    var d, e, f := Apart(u[0], v[0]), Apart(u[1], v[1]), Apart(u[2], v[2]);
    ChangeIsFed(before, u, v, [d, e, f]);
    ZeroXor(d);
    FedThree(ShiftEight, Xor, 0, d, e, f);
  }

  lemma ApartBytes(a: byte, b: byte)
    ensures Apart(a, b) < 0x100 && (Apart(a, b) == 0 <==> a == b)
  {
    ApartZero(a, b);
    ApartSmall(a, b);
  }

  // ----- one body byte in the window

  lemma OneFed(before: seq<byte>, u: seq<byte>, v: seq<byte>)
    requires |u| == |v| == 1
    ensures Differ(Crc.Checksum(before + u), Crc.Checksum(before + v), ShiftEight(Apart(u[0], v[0])))
  {
    ChangeOfOne(before, u, v);
    SumsDiffer(before + u, before + v, ShiftEight(Apart(u[0], v[0])));
  }

  lemma OneTold(u: seq<byte>, v: seq<byte>, s: seq<byte>, t: seq<byte>)
    requires |u| == |v| == 1 && u != v && Differ(s, t, ShiftEight(Apart(u[0], v[0])))
    ensures s[3] != t[3]
  {
    ApartBytes(u[0], v[0]);
    ApartBytes(s[3], t[3]);
    OneChanged(Apart(u[0], v[0]), ShiftEight(Apart(u[0], v[0])));
  }

  lemma OneChanged(d: bv32, change: bv32)
    requires 0 < d < 0x100 && change == ShiftEight(d)
    ensures LowByte(change) != 0
  {
    if LowByte(change) == 0 {
      OneByte(d);
    }
  }

  /** One changed body byte changes the checksum's last byte. */
  lemma OneAndThree(before: seq<byte>, u: seq<byte>, v: seq<byte>)
    requires |u| == |v| == 1 && u != v
    ensures Crc.Checksum(before + u)[3] != Crc.Checksum(before + v)[3]
  {
    OneFed(before, u, v);
    OneTold(u, v, Crc.Checksum(before + u), Crc.Checksum(before + v));
  }

  // ----- two body bytes in the window

  lemma TwoFed(before: seq<byte>, u: seq<byte>, v: seq<byte>, change: bv32)
    requires |u| == |v| == 2 && change == ShiftEight(Xor(ShiftEight(Apart(u[0], v[0])), Apart(u[1], v[1])))
    ensures Differ(Crc.Checksum(before + u), Crc.Checksum(before + v), change)
  {
    ChangeOfTwo(before, u, v);
    SumsDiffer(before + u, before + v, change);
  }

  lemma TwoTold(u: seq<byte>, v: seq<byte>, s: seq<byte>, t: seq<byte>, change: bv32)
    requires |u| == |v| == 2 && u != v && Differ(s, t, change)
    requires change == ShiftEight(Xor(ShiftEight(Apart(u[0], v[0])), Apart(u[1], v[1])))
    ensures LastTwoStay(u, v, s, t)
  {
    ApartBytes(u[0], v[0]);
    ApartBytes(u[1], v[1]);
    ApartBytes(s[2], t[2]);
    ApartBytes(s[3], t[3]);
    TwoChanged(Apart(u[0], v[0]), Apart(u[1], v[1]), change);
  }

  /** When, after a change of the last two bytes, the checksum's last two bytes are what they were. */
  predicate LastTwoStay(u: seq<byte>, v: seq<byte>, s: seq<byte>, t: seq<byte>)
    requires |u| == |v| == 2 && |s| == |t| == 4
  {
    && (s[2] == t[2] && s[3] == t[3] <==> Apart(u[0], v[0]) == 0x61 && Apart(u[1], v[1]) == 0xd8)
    && (s[2] == t[2] && s[3] == t[3] ==> Apart(s[0], t[0]) == 0xf4 && Apart(s[1], t[1]) == 0xee)
  }

  /** The one change of two body bytes after which the low half of the checksum is what it was. */
  lemma TwoAndTwo(before: seq<byte>, u: seq<byte>, v: seq<byte>)
    requires |u| == |v| == 2 && u != v
    ensures LastTwoStay(u, v, Crc.Checksum(before + u), Crc.Checksum(before + v))
  {
    var change := ShiftEight(Xor(ShiftEight(Apart(u[0], v[0])), Apart(u[1], v[1])));
    TwoFed(before, u, v, change);
    TwoTold(u, v, Crc.Checksum(before + u), Crc.Checksum(before + v), change);
  }

  lemma TwoChanged(d: bv32, e: bv32, change: bv32)
    requires d < 0x100 && e < 0x100 && (d != 0 || e != 0) && change == ShiftEight(Xor(ShiftEight(d), e))
    ensures Third(change) == 0 && LowByte(change) == 0 <==> d == 0x61 && e == 0xd8
    ensures Third(change) == 0 && LowByte(change) == 0 ==> First(change) == 0xf4 && Second(change) == 0xee
  {
    LowTwo(change);
    if change & 0xFFFF == 0 {
      TwoBytes(d, e);
    }
    TwoBytesSlip();
    SlipBytes();
  }

  lemma LowTwo(c: bv32)
    ensures Third(c) == 0 && LowByte(c) == 0 <==> c & 0xFFFF == 0
  {
  }

  lemma LowThree(c: bv32)
    ensures Second(c) == 0 && Third(c) == 0 && LowByte(c) == 0 <==> c & 0xFFFFFF == 0
  {
  }

  lemma SlipBytes()
    ensures First(0xf4ee0000) == 0xf4 && Second(0xf4ee0000) == 0xee
    ensures Third(0xf4ee0000) == 0 && LowByte(0xf4ee0000) == 0
  {
  }

  // ----- three body bytes in the window

  lemma ThreeAreFed(before: seq<byte>, u: seq<byte>, v: seq<byte>, change: bv32)
    requires |u| == |v| == 3
    requires change
      == ShiftEight(Xor(ShiftEight(Xor(ShiftEight(Apart(u[0], v[0])), Apart(u[1], v[1]))), Apart(u[2], v[2])))
    ensures Differ(Crc.Checksum(before + u), Crc.Checksum(before + v), change)
  {
    ChangeOfThree(before, u, v);
    SumsDiffer(before + u, before + v, change);
  }

  predicate LastThreeChange(s: seq<byte>, t: seq<byte>)
    requires |s| == |t| == 4
  {
    s[1] != t[1] || s[2] != t[2] || s[3] != t[3]
  }

  lemma ThreeTold(u: seq<byte>, v: seq<byte>, s: seq<byte>, t: seq<byte>, change: bv32)
    requires |u| == |v| == 3 && u != v && Differ(s, t, change)
    requires change
      == ShiftEight(Xor(ShiftEight(Xor(ShiftEight(Apart(u[0], v[0])), Apart(u[1], v[1]))), Apart(u[2], v[2])))
    ensures LastThreeChange(s, t)
  {
    ApartBytes(u[0], v[0]);
    ApartBytes(u[1], v[1]);
    ApartBytes(u[2], v[2]);
    ApartBytes(s[1], t[1]);
    ApartBytes(s[2], t[2]);
    ApartBytes(s[3], t[3]);
    ThreeChanged(Apart(u[0], v[0]), Apart(u[1], v[1]), Apart(u[2], v[2]), change);
  }

  /** A change of three body bytes changes one of the checksum's last three. */
  lemma ThreeAndOne(before: seq<byte>, u: seq<byte>, v: seq<byte>)
    requires |u| == |v| == 3 && u != v
    ensures LastThreeChange(Crc.Checksum(before + u), Crc.Checksum(before + v))
  {
    var change := ShiftEight(Xor(ShiftEight(Xor(ShiftEight(Apart(u[0], v[0])), Apart(u[1], v[1]))), Apart(u[2], v[2])));
    ThreeAreFed(before, u, v, change);
    ThreeTold(u, v, Crc.Checksum(before + u), Crc.Checksum(before + v), change);
  }

  lemma ThreeChanged(d: bv32, e: bv32, f: bv32, change: bv32)
    requires d < 0x100 && e < 0x100 && f < 0x100 && (d != 0 || e != 0 || f != 0)
    requires change == ShiftEight(Xor(ShiftEight(Xor(ShiftEight(d), e)), f))
    ensures Second(change) != 0 || Third(change) != 0 || LowByte(change) != 0
  {
    LowThree(change);
    if change & 0xFFFFFF == 0 {
      ThreeBytes(d, e, f);
    }
  }

  // ----- blocks

  /** The change a sealed block does not notice on its last two body and first two checksum bytes. */
  predicate Slip(x: seq<byte>, y: seq<byte>) {
    && |x| == |y| == 4
    && Apart(x[0], y[0]) == 0x61 && Apart(x[1], y[1]) == 0xd8
    && Apart(x[2], y[2]) == 0xf4 && Apart(x[3], y[3]) == 0xee
  }

  lemma OpensIfSum(body: seq<byte>, sum: seq<byte>)
    requires |sum| == 4
    ensures Open(body + sum).Some? <==> sum == Crc.Checksum(body)
  {
    assert (body + sum)[..|body|] == body && (body + sum)[|body|..] == sum;
  }

  lemma ApartInjective(a: byte, b: byte, c: byte)
    requires Apart(a, b) == Apart(a, c)
    ensures b == c
  {
    Crc.ByteOfWord(b);
    Crc.ByteOfWord(c);
    XorInjective(Crc.Word(a), Crc.Word(b), Crc.Word(c));
  }

  lemma XorInjective(a: bv32, b: bv32, c: bv32)
    requires Xor(a, b) == Xor(a, c)
    ensures b == c
  {
  }

  lemma NotSlip(x: seq<byte>, y: seq<byte>)
    requires |x| == |y| == 4 && x[0] == y[0]
    ensures !Slip(x, y)
  {
    ApartZero(x[0], y[0]);
  }

  lemma SumOfSame(p: seq<byte>, q: seq<byte>, after: seq<byte>)
    requires |p| == |q| && p != q
    ensures q + after != p + after
  {
    assert (q + after)[..|q|] == q && (p + after)[..|p|] == p;
  }

  lemma SumAfterOne(p: seq<byte>, q: seq<byte>, after: seq<byte>, t: seq<byte>)
    requires |p| == |q| == 3 && |after| == 1 && |t| == 4 && (p + after)[3] != t[3]
    ensures q + after != t
  {
  }

  lemma SumAfterThree(p: seq<byte>, q: seq<byte>, after: seq<byte>, t: seq<byte>)
    requires |p| == |q| == 1 && |after| == 3 && |t| == 4 && LastThreeChange(p + after, t)
    ensures q + after != t
  {
  }

  lemma SumAfterTwo(u: seq<byte>, v: seq<byte>, p: seq<byte>, q: seq<byte>, after: seq<byte>, t: seq<byte>)
    requires |u| == |v| == 2 && |p| == |q| == 2 && |after| == 2 && |t| == 4 && LastTwoStay(u, v, p + after, t)
    ensures q + after == t <==> Slip(u + p, v + q)
  {
    if Slip(u + p, v + q) {
      assert (u + p)[2] == p[0] && (v + q)[2] == q[0] && (u + p)[3] == p[1] && (v + q)[3] == q[1];
      ApartInjective(p[0], q[0], t[0]);
      ApartInjective(p[1], q[1], t[1]);
      assert t == q + after;
    }
  }

  /** The window holds the body's last bytes `u` and the checksum's first bytes `p`. */
  lemma Across(before: seq<byte>, u: seq<byte>, v: seq<byte>, p: seq<byte>, q: seq<byte>, after: seq<byte>)
    requires |u| == |v| == |after| && |p| == |q| == 4 - |u| && 1 <= |u| <= 3 && u + p != v + q
    requires Crc.Checksum(before + u) == p + after
    ensures q + after == Crc.Checksum(before + v) <==> |u| == 2 && Slip(u + p, v + q)
  {
    if u == v {
      SumOfSame(p, q, after);
      NotSlip(u + p, v + q);
    } else if |u| == 1 {
      OneAndThree(before, u, v);
      SumAfterOne(p, q, after, Crc.Checksum(before + v));
    } else if |u| == 2 {
      TwoAndTwo(before, u, v);
      SumAfterTwo(u, v, p, q, after, Crc.Checksum(before + v));
    } else {
      ThreeAndOne(before, u, v);
      SumAfterThree(p, q, after, Crc.Checksum(before + v));
    }
  }

  /**
   * A block that differs from a sealed one only within four consecutive bytes opens if and only if
   * the four are the last two of the body and the first two of the checksum, and the change is the
   * one of `Slip`.
   */
  lemma BlockOpensIff(body: seq<byte>, before: seq<byte>, x: seq<byte>, y: seq<byte>, after: seq<byte>)
    requires Seal(body) == before + x + after && |x| == |y| == 4 && x != y
    ensures Open(before + y + after).Some? <==> |after| == 2 && Slip(x, y)
  {
    var k := |after|;
    if k == 0 {
      WithinChecksum(body, before, x, y);
      assert before + x + [] == before + x && before + y + [] == before + y;
    } else if k < 4 {
      var u, p, v, q := x[..k], x[k..], y[..k], y[k..];
      assert x == u + p && y == v + q;
      BlockSplits(body, before, u, p, after);
      Across(before, u, v, p, q, after);
      OpensIfSum(before + v, q + after);
      assert before + y + after == (before + v) + (q + after);
    } else {
      WithinBody(body, before, x, y, after);
    }
  }

  lemma WithinChecksum(body: seq<byte>, before: seq<byte>, x: seq<byte>, y: seq<byte>)
    requires Seal(body) == before + x && |x| == |y| == 4 && x != y
    ensures !Open(before + y).Some?
  {
    BlockEnds(body, before, x);
    OpensIfSum(before, y);
  }

  lemma WithinBody(body: seq<byte>, before: seq<byte>, x: seq<byte>, y: seq<byte>, after: seq<byte>)
    requires Seal(body) == before + x + after && |x| == |y| == 4 <= |after| && x != y
    ensures !Open(before + y + after).Some?
  {
    var rest, sum := after[..|after| - 4], after[|after| - 4..];
    assert after == rest + sum;
    assert before + x + after == (before + x + rest) + sum;
    BlockEnds(body, before + x + rest, sum);
    CorruptedBodyRefused(before, x, y, rest);
    assert before + y + after == before + y + rest + sum;
  }

  lemma BlockEnds(body: seq<byte>, a: seq<byte>, sum: seq<byte>)
    requires Seal(body) == a + sum && |sum| == 4
    ensures body == a && sum == Crc.Checksum(body)
  {
    assert Seal(body)[..|body|] == body && Seal(body)[|body|..] == Crc.Checksum(body);
    assert (a + sum)[..|body|] == a && (a + sum)[|body|..] == sum;
  }

  lemma BlockSplits(body: seq<byte>, before: seq<byte>, u: seq<byte>, p: seq<byte>, after: seq<byte>)
    requires Seal(body) == before + (u + p) + after && |p| + |after| == 4
    ensures body == before + u && Crc.Checksum(body) == p + after
  {
    assert before + (u + p) + after == (before + u) + (p + after);
    BlockEnds(body, before + u, p + after);
  }

  /** The byte that differs from `b` by `d`. */
  function Moved(b: byte, d: bv32): byte {
    (LowByte(Xor(Crc.Word(b), d)) as bv8) as byte
  }

  lemma ApartMoved(b: byte, d: bv32)
    requires d < 0x100
    ensures Apart(b, Moved(b, d)) == d
  {
    Crc.ByteOfWord(b);
    SmallXor(Crc.Word(b), d);
    LowByteOfByte(Xor(Crc.Word(b), d));
    WordOfByte(Xor(Crc.Word(b), d));
    XorTwice(Crc.Word(b), d);
  }

  lemma LowByteOfByte(c: bv32)
    requires c < 0x100
    ensures LowByte(c) == c
  {
  }

  lemma XorTwice(a: bv32, d: bv32)
    ensures Xor(a, Xor(a, d)) == d
  {
  }

  function Slipped(x: seq<byte>): (y: seq<byte>)
    requires |x| == 4
    ensures |y| == 4
  {
    [Moved(x[0], 0x61), Moved(x[1], 0xd8), Moved(x[2], 0xf4), Moved(x[3], 0xee)]
  }

  lemma SlippedSlips(x: seq<byte>)
    requires |x| == 4
    ensures Slip(x, Slipped(x)) && x != Slipped(x)
  {
    ApartMoved(x[0], 0x61);
    ApartMoved(x[1], 0xd8);
    ApartMoved(x[2], 0xf4);
    ApartMoved(x[3], 0xee);
    ApartZero(x[0], Slipped(x)[0]);
  }

  /** Every sealed body of two bytes or more has such a neighbour. */
  lemma SlipUnnoticed(body: seq<byte>)
    requires |body| >= 2
    ensures var n, block := |body|, Seal(body);
      Open(block[..n - 2] + Slipped(block[n - 2..n + 2]) + block[n + 2..]).Some?
      && block[n - 2..n + 2] != Slipped(block[n - 2..n + 2])
  {
    var n, block := |body|, Seal(body);
    var x := block[n - 2..n + 2];
    assert block == block[..n - 2] + x + block[n + 2..];
    SlippedSlips(x);
    BlockOpensIff(body, block[..n - 2], x, Slipped(x), block[n + 2..]);
  }
}
