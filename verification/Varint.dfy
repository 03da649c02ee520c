/** Sizes packed as little-endian groups of seven bits, the top bit of a byte saying that more follow. */
module Varint {
  import opened Bytes

  /** Written-out form of `n`: what every packing method must produce. */
  function Encode(n: nat): seq<byte> {
    if n <= 0x7F then [n] else [n % 0x80 + 0x80] + Encode(n / 0x80)
  }

  /** Number of bytes up to and including the first one with a clear top bit; 0 when there is none. */
  function PrefixLength(s: seq<byte>): (n: nat)
    ensures n <= |s|
  {
    if s == [] then 0
    else if s[0] < 0x80 then 1
    else var n := PrefixLength(s[1..]); if n == 0 then 0 else n + 1
  }

  /** The prefix ends with the first byte whose top bit is clear. */
  lemma {:induction false} PrefixShape(s: seq<byte>)
    ensures var n := PrefixLength(s);
      && (n > 0 ==> s[n - 1] < 0x80 && forall i :: 0 <= i < n - 1 ==> s[i] >= 0x80)
      && (n == 0 ==> forall i :: 0 <= i < |s| ==> s[i] >= 0x80)
  {
    if s != [] && s[0] >= 0x80 {
      PrefixShape(s[1..]);
      assert forall i :: 1 <= i < |s| ==> s[i] == s[1..][i - 1];
    }
  }

  /** The number spelled by the groups, before it is cut to a machine word. */
  function Digits(s: seq<byte>): nat {
    if s == [] then 0
    else if s[0] < 0x80 then s[0]
    else s[0] % 0x80 + 0x80 * Digits(s[1..])
  }

  /** Room reserved for a size: the packed form's length, except that 0 gets none. */
  function PackedSize(n: nat): nat {
    if n == 0 then 0 else |Encode(n)|
  }

  lemma {:induction false} DecodeEncode(n: nat, r: seq<byte>)
    ensures PrefixLength(Encode(n) + r) == |Encode(n)| >= 1
    ensures Digits(Encode(n) + r) == n
  {
    var s := Encode(n) + r;
    if n > 0x7F {
      DecodeEncode(n / 0x80, r);
      assert s[0] == n % 0x80 + 0x80 && s[1..] == Encode(n / 0x80) + r;
    }
  }

  lemma ProperPrefixIncomplete(n: nat, k: nat)
    requires k < |Encode(n)|
    ensures PrefixLength(Encode(n)[..k]) == 0
  {
    DecodeEncode(n, []);
    assert Encode(n) + [] == Encode(n);
    PrefixShape(Encode(n));
    PrefixShape(Encode(n)[..k]);
    assert k > 0 ==> Encode(n)[..k][k - 1] == Encode(n)[k - 1];
  }

  lemma {:induction false} CompletePrefixStable(a: seq<byte>, b: seq<byte>)
    requires PrefixLength(a) > 0
    ensures PrefixLength(a + b) == PrefixLength(a)
    ensures Digits(a + b) == Digits(a)
  {
    if a[0] >= 0x80 {
      CompletePrefixStable(a[1..], b);
      assert (a + b)[1..] == a[1..] + b;
    }
  }

  /** The packed form is the shortest: `k` groups are used exactly when `k - 1` would not hold `n`. */
  lemma {:induction false} EncodeMinimal(n: nat, k: nat)
    requires k >= 1
    ensures |Encode(n)| <= k <==> n < Pow2(7 * k)
  {
    assert Pow2(7) == 0x80;
    if k == 1 {
    } else {
      assert 7 * k == 7 * (k - 1) + 7;
      Pow2Seven(7 * (k - 1));
      if n > 0x7F {
        EncodeMinimal(n / 0x80, k - 1);
      } else {
        Pow2Monotone(0, 7 * (k - 1));
      }
    }
  }

  // ----- the source's loops, each against the functions above

  method SizeLength(s: seq<byte>) returns (r: nat)
    ensures r == PrefixLength(s)
  {
    var length := 0;
    var last: byte := 0x80;
    var i := 0;
    while i < |s| && last >= 0x80
      invariant length == i <= |s|
      invariant last < 0x80 ==> i > 0 && s[i - 1] < 0x80
      invariant forall j :: 0 <= j < i - 1 ==> s[j] >= 0x80
      invariant last >= 0x80 ==> forall j :: 0 <= j < i ==> s[j] >= 0x80
    {
      length := length + 1;
      last := s[i];
      i := i + 1;
    }
    PrefixShape(s);
    r := if last >= 0x80 then 0 else length;
  }

  method PackedLength(input: nat) returns (r: nat)
    ensures r == PackedSize(input)
  {
    r := 0;
    var rest := input;
    while rest > 0
      invariant r + PackedSize(rest) == PackedSize(input)
    {
      r := r + 1;
      rest := rest / 0x80;
    }
  }

  method Append(size: nat, res: ByteString)
    modifies res
    ensures res.data == old(res.data) + Encode(size)
  {
    var rest := size;
    while rest > 0x7F
      invariant res.data + Encode(rest) == old(res.data) + Encode(size)
    {
      res.PushBack(rest % 0x80 + 0x80);
      rest := rest / 0x80;
    }
    res.PushBack(rest);
  }

  method PackInto(size: nat, res: ByteString)
    modifies res
    ensures res.data == Encode(size)
  {
    var tmp := new ByteString([]);
    Append(size, tmp);
    res.data := tmp.data;
  }

  method Pack(size: nat) returns (r: seq<byte>)
    ensures r == Encode(size)
  {
    r := [];
    var rest := size;
    while rest > 0x7F
      invariant r + Encode(rest) == Encode(size)
    {
      r := r + [rest % 0x80 + 0x80];
      rest := rest / 0x80;
    }
    r := r + [rest];
  }

  /**
   * Packing through a raw pointer `at` bytes into `res`. The caller provides the room, or
   * packs a zero over a terminating zero, which leaves the string as it was.
   */
  method PackAt(size: nat, res: ByteString, at: nat) returns (index: nat)
    requires at + |Encode(size)| <= |res.data| || (size == 0 && at == |res.data|)
    modifies res
    ensures index == |Encode(size)|
    ensures at + index <= |old(res.data)| ==> res.data == Overwrite(old(res.data), at, Encode(size))
    ensures at + index > |old(res.data)| ==> res.data == old(res.data)
  {
    index := 0;
    var rest := size;
    ghost var packed, start := Encode(size), res.data;
    assert Written(start, at, packed, 0) == start;
    while rest > 0x7F
      invariant index < |packed| && packed[index..] == Encode(rest)
      invariant res.data == Written(start, at, packed, index)
    {
      WrittenNext(start, at, packed, index);
      res.Put(at + index, rest % 0x80 + 0x80);
      index := index + 1;
      rest := rest / 0x80;
    }
    WrittenNext(start, at, packed, index);
    res.Put(at + index, rest);
    index := index + 1;
    assert packed[..|packed|] == packed;
  }

  /** The string after `k` bytes of the packed form; the lone byte of a zero may have no room. */
  ghost function Written(start: seq<byte>, at: nat, packed: seq<byte>, k: nat): seq<byte>
    requires k <= |packed|
  {
    if at + |packed| <= |start| then Overwrite(start, at, packed[..k]) else start
  }

  lemma WrittenNext(start: seq<byte>, at: nat, packed: seq<byte>, k: nat)
    requires k < |packed|
    ensures packed[k] == packed[k..][0] && packed[k + 1..] == packed[k..][1..]
    ensures Written(start, at, packed, k + 1) ==
      if at + |packed| <= |start| then Written(start, at, packed, k)[at + k := packed[k]] else start
  {
  }

  /** The value held by a size type of `width` bytes; the bytes past the word are shifted out. */
  method Unpack(s: seq<byte>, width: nat) returns (res: nat)
    ensures res == Digits(s) % Pow2(8 * width)
  {
    res := 0;
    var shift := 0;
    var last: byte := 0x80;
    var i := 0;
    ghost var seen: nat := 0;
    while i < |s| && last >= 0x80
      invariant i <= |s|
      invariant seen < Pow2(shift) && res == Cut(seen, 8 * width)
      invariant Digits(s) == seen + if last >= 0x80 then ShiftLeft(Digits(s[i..]), shift) else 0
    {
      last := s[i];
      var group := last % 0x80;
      GroupRead(s, i, seen, group, shift, 8 * width);
      res := Or(res, Cut(ShiftLeft(group, shift), 8 * width));
      seen := seen + ShiftLeft(group, shift);
      shift := shift + 7;
      i := i + 1;
    }
  }

  /** What a word of `bits` bits keeps. */
  function Cut(n: nat, bits: nat): nat {
    n % Pow2(bits)
  }

  function ShiftLeft(n: nat, shift: nat): (r: nat)
    ensures shift == 0 ==> r == n
  {
    n * Pow2(shift)
  }

  /** One more group: it joins what has been read, and the rest of the digits stand 7 bits higher. */
  lemma GroupRead(s: seq<byte>, i: nat, seen: nat, group: nat, shift: nat, bits: nat)
    requires i < |s| && seen < Pow2(shift) && group == s[i] % 0x80
    ensures Or(Cut(seen, bits), Cut(ShiftLeft(group, shift), bits)) == Cut(seen + ShiftLeft(group, shift), bits)
    ensures seen + ShiftLeft(group, shift) < Pow2(shift + 7)
    ensures ShiftLeft(Digits(s[i..]), shift) ==
      ShiftLeft(group, shift) + if s[i] >= 0x80 then ShiftLeft(Digits(s[i + 1..]), shift + 7) else 0
  {
    OrOfDisjointBits(seen, group, shift, bits);
    assert s[i..][1..] == s[i + 1..];
    GroupStep(seen, group, if s[i] >= 0x80 then Digits(s[i + 1..]) else 0, shift);
  }

  lemma GroupStep(seen: nat, group: nat, rest: nat, shift: nat)
    requires seen < Pow2(shift) && group < 0x80
    ensures seen + group * Pow2(shift) < Pow2(shift + 7)
    ensures (group + 0x80 * rest) * Pow2(shift) == group * Pow2(shift) + rest * Pow2(shift + 7)
  {
    Pow2Seven(shift);
    MulLeft(group, 0x7F, Pow2(shift));
    assert rest * (0x80 * Pow2(shift)) == (0x80 * rest) * Pow2(shift);
  }
}
