/** Sizes packed as a fixed number of bytes, most significant first. */
module Fixint {
  import opened Bytes

  /** The low `width` bytes of `n`, most significant first. */
  function Encode(width: nat, n: nat): (s: seq<byte>)
    ensures |s| == width
  {
    if width == 0 then [] else Encode(width - 1, n / 0x100) + [n % 0x100]
  }

  /** A number shifted left by so many bytes. */
  function Weight(b: nat, places: nat): nat {
    b * Pow2(8 * places)
  }

  /** The number spelled in base 256 by the whole of `s`. */
  function Number(s: seq<byte>): nat {
    if s == [] then 0 else Weight(s[0], |s| - 1) + Number(s[1..])
  }

  function PrefixLength(width: nat, s: seq<byte>): nat {
    if |s| < width then 0 else width
  }

  /** Missing bytes read as zeros at the low end, as `unpack` leaves them. */
  function Digits(width: nat, s: seq<byte>): nat {
    if |s| < width then Number(s + Zeros(width - |s|)) else Number(s[..width])
  }

  lemma {:induction false} NumberSnoc(s: seq<byte>, b: byte)
    ensures Number(s + [b]) == 0x100 * Number(s) + b
  {
    if s == [] {
      assert Weight(b, 0) == b && Number([b]) == Weight(b, 0) + Number([]);
    } else {
      NumberSnoc(s[1..], b);
      assert (s + [b])[1..] == s[1..] + [b];
      WeightMore(s[0], |s| - 1);
    }
  }

  lemma WeightMore(b: nat, places: nat)
    ensures Weight(b, places + 1) == 0x100 * Weight(b, places)
  {
    Pow2Eight(8 * places);
    assert b * (0x100 * Pow2(8 * places)) == 0x100 * (b * Pow2(8 * places));
  }

  lemma {:induction false} NumberEncode(width: nat, n: nat)
    requires n < Pow2(8 * width)
    ensures Number(Encode(width, n)) == n
  {
    if width > 0 {
      Pow2Eight(8 * (width - 1));
      NumberEncode(width - 1, n / 0x100);
      NumberSnoc(Encode(width - 1, n / 0x100), n % 0x100);
    }
  }

  lemma DecodeEncode(width: nat, n: nat, r: seq<byte>)
    requires n < Pow2(8 * width)
    ensures PrefixLength(width, Encode(width, n) + r) == width
    ensures Digits(width, Encode(width, n) + r) == n
  {
    NumberEncode(width, n);
    assert (Encode(width, n) + r)[..width] == Encode(width, n);
  }

  lemma {:induction false} NumberBound(s: seq<byte>)
    ensures Number(s) < Pow2(8 * |s|)
  {
    if s != [] {
      NumberBound(s[1..]);
      Pow2Eight(8 * (|s| - 1));
      assert 8 * (|s| - 1) + 8 == 8 * |s|;
      MulLeft(s[0], 0xFF, Pow2(8 * (|s| - 1)));
    }
  }

  // ----- the source's loops, each against the functions above

  method SizeLength(width: nat, s: seq<byte>) returns (r: nat)
    ensures r == PrefixLength(width, s)
  {
    r := if |s| < width then 0 else width;
  }

  /** The loop all the writers share: bytes are stored from the last one back. */
  method PackAt(width: nat, size: nat, res: ByteString, at: nat) returns (r: nat)
    requires at + width <= |res.data|
    modifies res
    ensures r == width
    ensures res.data == Overwrite(old(res.data), at, Encode(width, size))
  {
    ghost var start := res.data;
    var rest := size;
    var current := width;
    while current > 0
      invariant 0 <= current <= width
      invariant |res.data| == |start|
      invariant Overwrite(res.data, at, Encode(current, rest)) == Overwrite(start, at, Encode(width, size))
    {
      ghost var before := res.data;
      res.Put(at + current - 1, rest % 0x100);
      assert Overwrite(res.data, at, Encode(current - 1, rest / 0x100))
          == Overwrite(before, at, Encode(current, rest));
      rest := rest / 0x100;
      current := current - 1;
    }
    assert Overwrite(res.data, at, []) == res.data;
    r := width;
  }

  method PackInto(width: nat, size: nat, res: ByteString)
    modifies res
    ensures res.data == Encode(width, size)
  {
    var tmp := new ByteString(Zeros(width));
    var _ := PackAt(width, size, tmp, 0);
    res.data := tmp.data;
  }

  method Pack(width: nat, size: nat) returns (r: seq<byte>)
    ensures r == Encode(width, size)
  {
    var res := new ByteString(Zeros(width));
    var _ := PackAt(width, size, res, 0);
    r := res.data;
  }

  method Append(width: nat, size: nat, res: ByteString)
    modifies res
    ensures res.data == old(res.data) + Encode(width, size)
  {
    var last := |res.data|;
    res.data := res.data + Zeros(width);
    var _ := PackAt(width, size, res, last);
  }

  method Unpack(width: nat, s: seq<byte>) returns (res: nat)
    ensures res == Digits(width, s)
  {
    res := 0;
    var i := 0;
    var cur := width;
    ghost var high: nat := 0;
    ghost var padded := if |s| < width then s + Zeros(width - |s|) else s[..width];
    while cur > 0 && i < |s|
      invariant 0 <= cur && cur + i == width && i <= |s|
      invariant res == Weight(high, cur)
      invariant Number(padded) == res + Number(padded[i..])
    {
      NumberHead(padded, i);
      OrBelow(high, s[i], cur - 1);
      res := Or(res, Weight(s[i], cur - 1));
      high := 0x100 * high + s[i];
      cur := cur - 1;
      i := i + 1;
    }
    assert padded[i..] == Zeros(cur);
    NumberZeros(cur);
  }

  /** A byte joined below the bytes read so far is added to them. */
  lemma OrBelow(high: nat, b: byte, places: nat)
    ensures Or(Weight(high, places + 1), Weight(b, places)) == Weight(high, places + 1) + Weight(b, places)
    ensures Weight(high, places + 1) + Weight(b, places) == Weight(0x100 * high + b, places)
  {
    var unit := Pow2(8 * places);
    Pow2Eight(8 * places);
    ByteBelow(b, unit);
    OrIsSum(b * unit, high, 8 * places + 8);
    OrCommutes(b * unit, high * Pow2(8 * places + 8));
    ByteJoined(high, b, unit);
  }

  lemma ByteBelow(b: byte, unit: nat)
    requires unit > 0
    ensures b * unit < 0x100 * unit
  {
    MulLeft(b + 1, 0x100, unit);
    assert b * unit + unit == unit * (b + 1);
  }

  lemma ByteJoined(high: nat, b: byte, unit: nat)
    ensures high * (0x100 * unit) + b * unit == (0x100 * high + b) * unit
  {
    assert high * (0x100 * unit) == 0x100 * high * unit;
  }

  lemma NumberHead(s: seq<byte>, i: nat)
    requires i < |s|
    ensures Number(s[i..]) == Weight(s[i], |s| - i - 1) + Number(s[i + 1..])
  {
    assert s[i..][0] == s[i] && s[i..][1..] == s[i + 1..] && |s[i..]| == |s| - i;
  }

  lemma {:induction false} NumberZeros(n: nat)
    ensures Number(Zeros(n)) == 0
  {
    if n > 0 {
      assert Zeros(n)[1..] == Zeros(n - 1);
      NumberZeros(n - 1);
    }
  }
}
