/** The table-driven CRC-32 of `hash::crc32`, and the polynomial division it stands for. */
module Crc {
  import opened Bytes
  import opened CrcTable
  import D = Division
  import S = Serial

  function Word(b: byte): bv32 {
    (b as bv8) as bv32
  }

  function Update(crc: bv32, val: byte): bv32 {
    GetValue(crc ^ Word(val)) ^ (crc >> 8)
  }

  function UpdateAll(crc: bv32, data: seq<byte>): bv32
    decreases |data|
  {
    if data == [] then crc else UpdateAll(Update(crc, data[0]), data[1..])
  }

  function Crc32(data: seq<byte>): bv32 {
    !UpdateAll(0xFFFFFFFF, data)
  }

  /** Most significant byte first. */
  function Spell(c: bv32): (s: seq<byte>)
    ensures |s| == 4
  {
    [((c >> 24) as bv8) as byte, (((c >> 16) & 0xFF) as bv8) as byte,
     (((c >> 8) & 0xFF) as bv8) as byte, ((c & 0xFF) as bv8) as byte]
  }

  function Checksum(data: seq<byte>): (s: seq<byte>)
    ensures |s| == 4
  {
    Spell(Crc32(data))
  }

  // ----- registers and messages as coefficients: the low bit is the highest power

  predicate Low(c: bv32) {
    c & 1 == 1
  }

  function Next(c: bv32): bv32 {
    c >> 1
  }

  function Bits(c: bv32, n: nat): (s: seq<bool>)
    ensures |s| == n
  {
    S.Read(c, Low, Next, n)
  }

  function MessageBits(data: seq<byte>): (s: seq<bool>)
    ensures |s| == 8 * |data|
  {
    if data == [] then [] else Bits(Word(data[0]), 8) + MessageBits(data[1..])
  }

  lemma EightShifts(c: bv32)
    ensures S.Eight(c, Next) == c >> 8
  {
  }

  lemma BitsAfterEight(c: bv32, n: nat)
    ensures Bits(c, 8 + n) == Bits(c, 8) + Bits(c >> 8, n)
  {
    EightShifts(c);
    S.ReadAfterEight(c, Low, Next, n);
  }

  lemma BitsOfZero(n: nat)
    ensures Bits(0, n) == D.Zeros(n)
  {
    S.ReadZero(0 as bv32, Low, Next, n);
  }

  lemma ShiftedOut(c: bv32)
    ensures c >> 8 >> 8 >> 8 >> 8 == 0
  {
  }

  lemma XorBit(a: bv32, b: bv32)
    ensures Next(a ^ b) == Next(a) ^ Next(b)
    ensures Low(a ^ b) <==> (Low(a) != Low(b))
  {
  }

  lemma BitsOfXor(a: bv32, b: bv32, n: nat)
    ensures Bits(a ^ b, n) == D.Xor(Bits(a, n), Bits(b, n))
  {
    forall x: bv32, y: bv32
      ensures Next(x ^ y) == Next(x) ^ Next(y) && (Low(x ^ y) <==> (Low(x) != Low(y)))
    {
      XorBit(x, y);
    }
    S.ReadXor(a, b, Low, Next, (x: bv32, y: bv32) => x ^ y, n);
  }

  /** A word has no bits past its 32nd. */
  lemma BitsPastTheWord(c: bv32, n: nat)
    ensures Bits(c, 32 + n) == Bits(c, 32) + D.Zeros(n)
  {
    EightShifts(c);
    EightShifts(c >> 8);
    EightShifts(c >> 8 >> 8);
    EightShifts(c >> 8 >> 8 >> 8);
    ShiftedOut(c);
    S.ReadPastWord(c, Low, Next, n);
  }

  // ----- a table step is eight division steps

  lemma BitsOfNext(c: bv32)
    ensures Bits(Next(c), 32) == Bits(c, 32)[1..] + [false]
  {
    BitsPastTheWord(c, 1);
    assert Bits(c, 33)[1..] == Bits(Next(c), 32);
    assert (Bits(c, 32) + D.Zeros(1))[1..] == Bits(c, 32)[1..] + [false];
  }

  lemma EightOf(c: bv32)
    ensures Bits(c, 8) ==
      [c & 1 != 0, c & 2 != 0, c & 4 != 0, c & 8 != 0, c & 16 != 0, c & 32 != 0, c & 64 != 0, c & 128 != 0]
  {
    S.ReadEight(c, Low, Next);
  }

  lemma BitsOfPoly()
    ensures Bits(0xedb88320, 32) == D.Generator()
  {
    S.ReadFourBytes(0xedb88320 as bv32, 0xedb883, 0xedb8, 0xed, Low, Next);
    EightOf(0xedb88320);
    EightOf(0xedb883);
    EightOf(0xedb8);
    EightOf(0xed);
  }

  lemma BitsOfOnes()
    ensures Bits(0xFFFFFFFF, 32) == D.Ones(32)
  {
    S.ReadFourBytes(0xFFFFFFFF as bv32, 0xFFFFFF, 0xFFFF, 0xFF, Low, Next);
    EightOf(0xFFFFFFFF);
    EightOf(0xFFFFFF);
    EightOf(0xFFFF);
    EightOf(0xFF);
  }

  lemma ShiftOneIsStep(c: bv32)
    ensures Bits(ShiftOne(c), 32) == D.Step(Bits(c, 32))
  {
    var r := Bits(c, 32);
    assert r[0] == Low(c);
    BitsOfNext(c);
    if Low(c) {
      BitsOfPoly();
      BitsOfXor(0xedb88320, Next(c), 32);
      D.XorCommutes(D.Generator(), r[1..] + [false]);
    } else {
      assert D.Xor(r[1..] + [false], D.Zeros(32)) == r[1..] + [false];
    }
  }

  lemma ShiftEightIsSteps(c: bv32)
    ensures Bits(ShiftEight(c), 32) == D.Steps(Bits(c, 32), 8)
  {
    var read: bv32 -> D.Register := x => Bits(x, 32);
    forall x: bv32 ensures read(ShiftOne(x)) == D.Step(read(x)) {
      ShiftOneIsStep(x);
    }
    EightTimes(c, ShiftOne, read);
  }

  /** If `f` moves what `read` reads by one step, eight times `f` moves it by eight. */
  lemma EightTimes<W(!new)>(c: W, f: W -> W, read: W -> D.Register)
    requires forall x :: read(f(x)) == D.Step(read(x))
    ensures read(f(f(f(f(f(f(f(f(c))))))))) == D.Steps(read(c), 8)
  {
    var c2 := f(f(c));
    var c4 := f(f(c2));
    var c6 := f(f(c4));
    assert D.Steps(read(c), 8) == D.Steps(read(c2), 6);
    assert D.Steps(read(c2), 6) == D.Steps(read(c4), 4);
    assert D.Steps(read(c4), 4) == D.Steps(read(c6), 2);
    assert D.Steps(read(c6), 2) == read(f(f(c6)));
  }

  lemma BitsOfWord(b: byte)
    ensures Bits(Word(b), 32) == Bits(Word(b), 8) + D.Zeros(24)
  {
    assert Word(b) >> 8 == 0;
    BitsAfterEight(Word(b), 24);
    BitsOfZero(24);
  }

  lemma BitsOfLowByte(c: bv32)
    ensures Bits(c & 0xFF, 32) == Bits(c, 32)[..8] + D.Zeros(24)
  {
    assert (c & 0xFF) >> 8 == 0;
    BitsAfterEight(c & 0xFF, 24);
    BitsOfZero(24);
    BitsAfterEight(c, 24);
    EightOf(c);
    EightOf(c & 0xFF);
    MaskKeeps(c);
  }

  lemma MaskKeeps(c: bv32)
    ensures c & 0xFF & 1 == c & 1 && c & 0xFF & 2 == c & 2 && c & 0xFF & 4 == c & 4 && c & 0xFF & 8 == c & 8
    ensures c & 0xFF & 16 == c & 16 && c & 0xFF & 32 == c & 32 && c & 0xFF & 64 == c & 64 && c & 0xFF & 128 == c & 128
  {
  }

  lemma BitsOfHighBytes(c: bv32)
    ensures Bits(c >> 8, 32) == Bits(c, 32)[8..] + D.Zeros(8)
  {
    BitsAfterEight(c, 32);
    BitsPastTheWord(c, 8);
    assert Bits(c, 40)[8..] == Bits(c >> 8, 32);
    assert (Bits(c, 32) + D.Zeros(8))[8..] == Bits(c, 32)[8..] + D.Zeros(8);
  }

  lemma BitsOfMixed(crc: bv32, val: byte)
    ensures Bits(crc ^ Word(val), 32) == D.Xor(Bits(crc, 32), Bits(Word(val), 8) + D.Zeros(24))
  {
    BitsOfXor(crc, Word(val), 32);
    BitsOfWord(val);
  }

  lemma BitsOfEntry(id: bv32)
    ensures Bits(GetValue(id), 32) == D.Steps(Bits(id, 32)[..8] + D.Zeros(24), 8)
  {
    EntryIsEightSteps(id);
    ShiftEightIsSteps(id & 0xFF);
    BitsOfLowByte(id);
  }

  lemma BitsOfUpdate(entry: bv32, crc: bv32)
    ensures Bits(entry ^ (crc >> 8), 32) == D.Xor(Bits(entry, 32), Bits(crc, 32)[8..] + D.Zeros(8))
  {
    BitsOfHighBytes(crc);
    BitsOfXor(entry, crc >> 8, 32);
  }

  /** One table lookup does what feeding the byte's eight bits one by one does. */
  lemma UpdateIsFeed(crc: bv32, val: byte)
    ensures Bits(Update(crc, val), 32) == D.Feed(Bits(crc, 32), Bits(Word(val), 8))
  {
    BitsOfMixed(crc, val);
    BitsOfEntry(crc ^ Word(val));
    FeedOfEntry(crc, val, crc ^ Word(val), GetValue(crc ^ Word(val)));
  }

  lemma FeedOfEntry(crc: bv32, val: byte, mixed: bv32, entry: bv32)
    requires Bits(mixed, 32) == D.Xor(Bits(crc, 32), Bits(Word(val), 8) + D.Zeros(24))
    requires Bits(entry, 32) == D.Steps(Bits(mixed, 32)[..8] + D.Zeros(24), 8)
    ensures Bits(entry ^ (crc >> 8), 32) == D.Feed(Bits(crc, 32), Bits(Word(val), 8))
  {
    BitsOfUpdate(entry, crc);
    SplitSteps(Bits(crc, 32), Bits(Word(val), 8), Bits(mixed, 32), Bits(entry, 32), Bits(entry ^ (crc >> 8), 32));
  }

  lemma SplitSteps(r: D.Register, v: seq<bool>, x: D.Register, entry: D.Register, updated: D.Register)
    requires |v| == 8 && x == D.Xor(r, v + D.Zeros(24))
    requires entry == D.Steps(x[..8] + D.Zeros(24), 8) && updated == D.Xor(entry, r[8..] + D.Zeros(8))
    ensures updated == D.Feed(r, v)
  {
    D.FeedIsSteps(r, v);
    D.StepsMove(x[..8] + D.Zeros(24), r[8..], 8);
    assert x == D.Xor(x[..8] + D.Zeros(24), D.Zeros(8) + r[8..]);
  }

  lemma {:induction false} UpdateAllIsFeed(crc: bv32, data: seq<byte>)
    ensures Bits(UpdateAll(crc, data), 32) == D.Feed(Bits(crc, 32), MessageBits(data))
    decreases |data|
  {
    if data != [] {
      UpdateIsFeed(crc, data[0]);
      UpdateAllIsFeed(Update(crc, data[0]), data[1..]);
      D.FeedAppend(Bits(crc, 32), Bits(Word(data[0]), 8), MessageBits(data[1..]));
    }
  }

  lemma BitsOfComplement(c: bv32)
    ensures Bits(!c, 32) == D.Xor(Bits(c, 32), D.Ones(32))
  {
    assert !c == c ^ 0xFFFFFFFF;
    BitsOfXor(c, 0xFFFFFFFF, 32);
    BitsOfOnes();
  }

  /** The remainder of the message times x^32, the first 32 of its bits complemented. */
  function DividedMessage(bits: seq<bool>): D.Register {
    D.Remainder(D.Xor(bits + D.Zeros(32), D.Ones(32) + D.Zeros(|bits|)))
  }

  /**
   * The table-driven loop computes CRC-32 as section 8 of RFC 1952 has it: the complement of the
   * remainder left when the CRC polynomial divides the message.
   */
  lemma Crc32IsRemainder(data: seq<byte>)
    ensures Bits(Crc32(data), 32) == D.Xor(DividedMessage(MessageBits(data)), D.Ones(32))
  {
    LoopIsRemainder(data);
    BitsOfComplement(UpdateAll(0xFFFFFFFF, data));
  }

  lemma LoopIsRemainder(data: seq<byte>)
    ensures Bits(UpdateAll(0xFFFFFFFF, data), 32) == DividedMessage(MessageBits(data))
  {
    UpdateAllIsFeed(0xFFFFFFFF, data);
    BitsOfOnes();
    D.FeedIsRemainder(D.Ones(32), MessageBits(data));
  }

  // ----- what the checksum detects

  function Byte(c: bv32): byte {
    ((c & 0xFF) as bv8) as byte
  }

  lemma ByteOfWord(x: byte)
    ensures Byte(Word(x)) == x && Word(x) < 0x100
  {
    ThereAndBack(x);
    WideByte(x as bv8);
    ByteOfWide(x, x as bv8, Word(x));
  }

  lemma ThereAndBack(x: byte)
    ensures (x as bv8) as int == x
  {
    assert (x as bv8) as int < 0x100;
  }

  lemma ByteOfWide(x: byte, narrow: bv8, wide: bv32)
    requires narrow as int == x && (wide & 0xFF) as bv8 == narrow
    ensures Byte(wide) == x
  {
  }

  lemma WideByte(b: bv8)
    ensures ((b as bv32) & 0xFF) as bv8 == b && (b as bv32) < 0x100
  {
  }

  lemma WordOfBits(a: bv32, b: bv32)
    requires a < 0x100 && b < 0x100
    requires (a & 1 != 0) == (b & 1 != 0) && (a & 2 != 0) == (b & 2 != 0)
    requires (a & 4 != 0) == (b & 4 != 0) && (a & 8 != 0) == (b & 8 != 0)
    requires (a & 16 != 0) == (b & 16 != 0) && (a & 32 != 0) == (b & 32 != 0)
    requires (a & 64 != 0) == (b & 64 != 0) && (a & 128 != 0) == (b & 128 != 0)
    ensures a == b
  {
  }

  lemma BitsOfByteInjective(x: byte, y: byte)
    requires Bits(Word(x), 8) == Bits(Word(y), 8)
    ensures x == y
  {
    ByteOfWord(x);
    ByteOfWord(y);
    WordBitsInjective(Word(x), Word(y));
  }

  lemma WordBitsInjective(a: bv32, b: bv32)
    requires a < 0x100 && b < 0x100 && Bits(a, 8) == Bits(b, 8)
    ensures a == b
  {
    EightOf(a);
    EightOf(b);
    var u, v := Bits(a, 8), Bits(b, 8);
    assert u[0] == v[0] && u[1] == v[1] && u[2] == v[2] && u[3] == v[3];
    assert u[4] == v[4] && u[5] == v[5] && u[6] == v[6] && u[7] == v[7];
    WordOfBits(a, b);
  }

  lemma {:induction false} MessageBitsInjective(a: seq<byte>, b: seq<byte>)
    requires |a| == |b| && MessageBits(a) == MessageBits(b)
    ensures a == b
  {
    if a != [] {
      var x, y := MessageBits(a), MessageBits(b);
      assert x[..8] == Bits(Word(a[0]), 8) && x[8..] == MessageBits(a[1..]);
      assert y[..8] == Bits(Word(b[0]), 8) && y[8..] == MessageBits(b[1..]);
      BitsOfByteInjective(a[0], b[0]);
      MessageBitsInjective(a[1..], b[1..]);
      assert a == [a[0]] + a[1..] && b == [b[0]] + b[1..];
    }
  }

  lemma {:induction false} MessageBitsAppend(a: seq<byte>, b: seq<byte>)
    ensures MessageBits(a + b) == MessageBits(a) + MessageBits(b)
  {
    if a == [] {
      assert a + b == b;
    } else {
      assert (a + b)[0] == a[0] && (a + b)[1..] == a[1..] + b;
      MessageBitsAppend(a[1..], b);
    }
  }

  lemma SpellInjective(c: bv32, d: bv32)
    requires Spell(c) == Spell(d)
    ensures c == d
  {
    var u, v := Spell(c), Spell(d);
    assert u[0] == v[0] && u[1] == v[1] && u[2] == v[2] && u[3] == v[3];
    SameByte((c >> 24) as bv8, (d >> 24) as bv8);
    SameByte(((c >> 16) & 0xFF) as bv8, ((d >> 16) & 0xFF) as bv8);
    SameByte(((c >> 8) & 0xFF) as bv8, ((d >> 8) & 0xFF) as bv8);
    SameByte((c & 0xFF) as bv8, (d & 0xFF) as bv8);
    FourBytesInjective(c, d);
  }

  lemma SameByte(x: bv8, y: bv8)
    requires x as byte == y as byte
    ensures x == y
  {
    assert (x as int) as bv8 == x && (y as int) as bv8 == y;
  }

  lemma FourBytesInjective(c: bv32, d: bv32)
    requires (c >> 24) as bv8 == (d >> 24) as bv8 && ((c >> 16) & 0xFF) as bv8 == ((d >> 16) & 0xFF) as bv8
    requires ((c >> 8) & 0xFF) as bv8 == ((d >> 8) & 0xFF) as bv8 && (c & 0xFF) as bv8 == (d & 0xFF) as bv8
    ensures c == d
  {
  }

  lemma BurstParts(a: seq<byte>, b: seq<byte>, before: seq<bool>, xs: seq<bool>, ys: seq<bool>, after: seq<bool>)
    requires a != b && |a| == |b| && |xs| == |ys| <= 32
    requires MessageBits(a) == before + xs + after && MessageBits(b) == before + ys + after
    ensures Checksum(a) != Checksum(b)
  {
    if xs == ys {
      MessageBitsInjective(a, b);
    }
    D.BurstDetected(Bits(0xFFFFFFFF, 32), before, xs, ys, after);
    UpdateAllIsFeed(0xFFFFFFFF, a);
    UpdateAllIsFeed(0xFFFFFFFF, b);
    ComplementInjective(UpdateAll(0xFFFFFFFF, a), UpdateAll(0xFFFFFFFF, b));
    if Checksum(a) == Checksum(b) {
      SpellInjective(Crc32(a), Crc32(b));
    }
  }

  /**
   * Burst detection: two different messages of one length that agree everywhere outside 32
   * consecutive bits have different checksums.
   */
  lemma BurstChangesChecksum(a: seq<byte>, b: seq<byte>, i: nat, k: nat)
    requires |a| == |b| && a != b && k <= 32 && i + k <= 8 * |a|
    requires MessageBits(a)[..i] == MessageBits(b)[..i] && MessageBits(a)[i + k..] == MessageBits(b)[i + k..]
    ensures Checksum(a) != Checksum(b)
  {
    var u, v := MessageBits(a), MessageBits(b);
    ThreeSlices(u, i, i + k);
    ThreeSlices(v, i, i + k);
    BurstParts(a, b, u[..i], u[i..i + k], v[i..i + k], u[i + k..]);
  }

  lemma ComplementInjective(c: bv32, d: bv32)
    ensures !c == !d ==> c == d
  {
    assert !!c == c && !!d == d;
  }

  /** In bytes: any change confined to four consecutive bytes changes the checksum. */
  lemma FourByteChangeDetected(before: seq<byte>, x: seq<byte>, y: seq<byte>, after: seq<byte>)
    requires |x| == |y| <= 4 && x != y
    ensures Checksum(before + x + after) != Checksum(before + y + after)
  {
    var a, b := before + x + after, before + y + after;
    MessageBitsAppend(before + x, after);
    MessageBitsAppend(before + y, after);
    MessageBitsAppend(before, x);
    MessageBitsAppend(before, y);
    assert a[|before|..|before| + |x|] == x && b[|before|..|before| + |y|] == y;
    BurstParts(a, b, MessageBits(before), MessageBits(x), MessageBits(y), MessageBits(after));
  }

  // ----- the hash object

  /** Whether the first four bytes of `res` are the checksum of `data`. */
  method Check(data: seq<byte>, res: seq<byte>) returns (ok: bool)
    requires |res| >= 4
    ensures ok <==> res[..4] == Checksum(data)
  {
    var s := Sum(data);
    ok := SameFour(res, s);
  }

  /** The checksum is written over four bytes of `out`. */
  method Get(data: seq<byte>, out: ByteString, at: nat)
    requires at + 4 <= |out.data|
    modifies out
    ensures out.data == Overwrite(old(out.data), at, Checksum(data))
  {
    var s := Sum(data);
    PutFour(out, at, s);
  }

  /** The loop `check` and `get` both run, and the four bytes they take from its result. */
  method Sum(data: seq<byte>) returns (s: seq<byte>)
    ensures s == Checksum(data)
  {
    var crc := 0xFFFFFFFF;
    for i := 0 to |data|
      invariant UpdateAll(crc, data[i..]) == UpdateAll(0xFFFFFFFF, data)
    {
      assert data[i..][1..] == data[i + 1..];
      crc := Update(crc, data[i]);
    }
    s := Spell(!crc);
  }

  predicate SameFour(res: seq<byte>, s: seq<byte>)
    requires |res| >= 4 && |s| == 4
    ensures SameFour(res, s) <==> res[..4] == s
  {
    res[0] == s[0] && res[1] == s[1] && res[2] == s[2] && res[3] == s[3]
  }

  method PutFour(out: ByteString, at: nat, s: seq<byte>)
    requires at + 4 <= |out.data| && |s| == 4
    modifies out
    ensures out.data == Overwrite(old(out.data), at, s)
  {
    out.Put(at, s[0]);
    out.Put(at + 1, s[1]);
    out.Put(at + 2, s[2]);
    out.Put(at + 3, s[3]);
  }
}
