/** Byte strings, concatenation of parts, and the powers of two behind shifts and integer widths. */
module Bytes {

  type byte = x: int | 0 <= x < 0x100

  /** The parts one after the other. */
  function Flatten<T>(parts: seq<seq<T>>): seq<T> {
    if parts == [] then [] else parts[0] + Flatten(parts[1..])
  }

  lemma Associative<T>(a: seq<T>, b: seq<T>, c: seq<T>)
    ensures a + b + c == a + (b + c)
  {
  }

  lemma SliceOfJoin<T>(a: seq<T>, b: seq<T>, k: nat)
    requires k <= |a|
    ensures (a + b)[k..] == a[k..] + b
  {
  }

  lemma PrefixStep<T>(s: seq<T>, i: nat, n: nat)
    requires i + n <= |s|
    ensures s[..i] + s[i..i + n] == s[..i + n]
  {
  }

  lemma ThreeSlices<T>(s: seq<T>, i: nat, j: nat)
    requires i <= j <= |s|
    ensures s == s[..i] + s[i..j] + s[j..]
  {
  }

  lemma {:induction false} FlattenAppend<T>(xs: seq<seq<T>>, ys: seq<seq<T>>)
    ensures Flatten(xs + ys) == Flatten(xs) + Flatten(ys)
  {
    if xs == [] {
      assert xs + ys == ys;
    } else {
      var all := xs + ys;
      assert all[0] == xs[0] && all[1..] == xs[1..] + ys;
      FlattenAppend(xs[1..], ys);
      Associative(xs[0], Flatten(xs[1..]), Flatten(ys));
    }
  }

  lemma FlattenSingle<T>(x: seq<T>)
    ensures Flatten([x]) == x
  {
    assert [x][1..] == [];
  }

  function Zeros(n: nat): (s: seq<byte>)
    ensures |s| == n
  {
    seq(n, _ => 0)
  }

  /** `s` with the bytes of `b` written over it from position `at`. */
  function Overwrite(s: seq<byte>, at: nat, b: seq<byte>): (r: seq<byte>)
    requires at + |b| <= |s|
    ensures |r| == |s|
  {
    s[..at] + b + s[at + |b|..]
  }

  function Pow2(n: nat): (p: nat)
    ensures p >= 1
  {
    if n == 0 then 1 else 2 * Pow2(n - 1)
  }

  lemma {:induction false} Pow2Add(a: nat, b: nat)
    ensures Pow2(a + b) == Pow2(a) * Pow2(b)
  {
    if b == 0 {
    } else {
      Pow2Add(a, b - 1);
      assert Pow2(a + b) == 2 * Pow2(a + (b - 1));
    }
  }

  lemma Pow2Monotone(a: nat, b: nat)
    requires a <= b
    ensures Pow2(a) <= Pow2(b)
  {
    Pow2Add(a, b - a);
    assert Pow2(a) * 1 <= Pow2(a) * Pow2(b - a) by { MulLeft(1, Pow2(b - a), Pow2(a)); }
  }

  lemma MulLeft(a: nat, b: nat, c: nat)
    requires a <= b
    ensures c * a <= c * b
  {
    assert c * b == c * a + c * (b - a);
  }

  lemma Pow2Seven(n: nat)
    ensures Pow2(n + 7) == 0x80 * Pow2(n)
  {
    assert Pow2(7) == 0x80;
    Pow2Add(n, 7);
  }

  lemma Pow2Eight(n: nat)
    ensures Pow2(n + 8) == 0x100 * Pow2(n)
  {
    assert Pow2(8) == 0x100;
    Pow2Add(n, 8);
  }

  /** A quotient and a remainder in range determine division. */
  lemma DivModUnique(x: nat, d: nat, q: nat, r: nat)
    requires d > 0 && r < d && x == q * d + r
    ensures x / d == q && x % d == r
  {
    var q' := x / d;
    assert (q' - q) * d == r - x % d && (q - q') * d == x % d - r;
    if q' > q {
      MulLeft(1, q' - q, d);
      assert false;
    } else if q' < q {
      MulLeft(1, q - q', d);
      assert false;
    }
  }

  /** The bitwise or of two numbers. */
  function Or(a: nat, b: nat): nat
    decreases a + b
  {
    if a == 0 && b == 0 then 0
    else (if a % 2 == 1 || b % 2 == 1 then 1 else 0) + 2 * Or(a / 2, b / 2)
  }

  lemma {:induction false} OrZero(a: nat)
    ensures Or(a, 0) == a && Or(0, a) == a
  {
    if a > 0 {
      OrZero(a / 2);
    }
  }

  lemma {:induction false} OrCommutes(a: nat, b: nat)
    ensures Or(a, b) == Or(b, a)
    decreases a + b
  {
    if a > 0 || b > 0 {
      OrCommutes(a / 2, b / 2);
    }
  }

  lemma Doubled(v: nat, k: nat)
    requires k > 0
    ensures v * Pow2(k) == 2 * (v * Pow2(k - 1))
  {
    assert Pow2(k) == 2 * Pow2(k - 1);
  }

  /** Bits below position `k` do not meet bits shifted to position `k`: joining them is adding them. */
  lemma {:induction false} OrIsSum(a: nat, v: nat, k: nat)
    requires a < Pow2(k)
    ensures Or(a, v * Pow2(k)) == a + v * Pow2(k)
    decreases k
  {
    if k == 0 {
      OrZero(v);
    } else {
      var high := v * Pow2(k - 1);
      Doubled(v, k);
      OrIsSum(a / 2, v, k - 1);
      OrHalves(a, 2 * high, high);
    }
  }

  lemma OrHalves(a: nat, b: nat, half: nat)
    requires b == 2 * half && Or(a / 2, half) == a / 2 + half
    ensures Or(a, b) == a + b
  {
    assert b % 2 == 0 && b / 2 == half;
  }

  /**
   * In a machine word of `m` bits, joining with `|` the bits read so far and a group shifted to
   * the position `k` above them gives their sum, as far as the word holds it.
   */
  lemma OrOfDisjointBits(a: nat, v: nat, k: nat, m: nat)
    requires a < Pow2(k)
    ensures Or(a % Pow2(m), v * Pow2(k) % Pow2(m)) == (a + v * Pow2(k)) % Pow2(m)
  {
    if m <= k {
      Pow2Add(m, k - m);
      ShiftedOut(a, v, Pow2(m), Pow2(k - m));
      OrZero(a % Pow2(m));
    } else {
      Pow2Add(k, m - k);
      ShiftedWithin(a, v, Pow2(k), Pow2(m - k));
      OrIsSum(a, v % Pow2(m - k), k);
    }
  }

  lemma ShiftedOut(a: nat, v: nat, word: nat, over: nat)
    requires word > 0
    ensures v * (word * over) % word == 0 && (a + v * (word * over)) % word == a % word
  {
    var s := v * over;
    assert v * (word * over) == s * word;
    ModPlusMultiple(0, s, word);
    ModPlusMultiple(a, s, word);
  }

  lemma ModPlusMultiple(a: nat, s: nat, word: nat)
    requires word > 0
    ensures (a + s * word) % word == a % word
  {
    var q, r := a / word, a % word;
    assert (q + s) * word == q * word + s * word;
    DivModUnique(a + s * word, word, q + s, r);
  }

  lemma ShiftedWithin(a: nat, v: nat, part: nat, rest: nat)
    requires part > 0 && rest > 0 && a < part
    ensures a % (part * rest) == a && v * part % (part * rest) == v % rest * part
    ensures (a + v * part) % (part * rest) == a + v % rest * part
  {
    var word := part * rest;
    var q, r := v / rest, v % rest;
    assert v * part == q * word + r * part by {
      assert v == q * rest + r;
      assert (q * rest + r) * part == q * (part * rest) + r * part;
    }
    assert r * part + part <= word by {
      MulLeft(r + 1, rest, part);
      assert part * (r + 1) == r * part + part;
    }
    assert r * part >= 0;
    DivModUnique(a, word, 0, a);
    DivModUnique(v * part, word, q, r * part);
    DivModUnique(a + v * part, word, q, r * part + a);
  }

  /** `std::string` as a mutable object: its bytes are replaced as its methods run. */
  class ByteString {
    var data: seq<byte>

    constructor (bytes: seq<byte>)
      ensures data == bytes
    {
      data := bytes;
    }

    method PushBack(b: byte)
      modifies this
      ensures data == old(data) + [b]
    {
      data := data + [b];
    }

    method InsertFront(bytes: seq<byte>)
      modifies this
      ensures data == bytes + old(data)
    {
      data := bytes + data;
    }

    /** Store through a pointer into the string; the position one past the end holds the terminating zero. */
    method Put(at: nat, b: byte)
      requires at < |data| || (at == |data| && b == 0)
      modifies this
      ensures data == if at < |old(data)| then old(data)[at := b] else old(data)
    {
      if at < |data| {
        data := data[at := b];
      }
    }
  }
}
