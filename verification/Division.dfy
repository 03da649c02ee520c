/**
 * Division of polynomials over GF(2), coefficients highest power first, and the shift register
 * that computes its remainder bit by bit.
 */
module Division {

  function Xor(a: seq<bool>, b: seq<bool>): (c: seq<bool>)
    requires |a| == |b|
    ensures |c| == |a|
  {
    seq(|a|, i requires 0 <= i < |a| => a[i] != b[i])
  }

  function Zeros(n: nat): (z: seq<bool>)
    ensures |z| == n
  {
    seq(n, _ => false)
  }

  function Ones(n: nat): (z: seq<bool>)
    ensures |z| == n
  {
    seq(n, _ => true)
  }

  /**
   * The CRC-32 divisor: x^32 + x^26 + x^23 + x^22 + x^16 + x^12 + x^11 + x^10 + x^8 + x^7 + x^5
   * + x^4 + x^2 + x + 1, its leading term left to the division itself.
   */
  predicate HasTerm(power: int) {
    power == 26 || power == 23 || power == 22 || power == 16 || power == 12 || power == 11 || power == 10
    || power == 8 || power == 7 || power == 5 || power == 4 || power == 2 || power == 1 || power == 0
  }

  function Generator(): (g: seq<bool>)
    ensures |g| == 32
  {
    seq(32, i => HasTerm(31 - i))
  }

  type Register = r: seq<bool> | |r| == 32 witness Zeros(32)

  /** Schoolbook long division: cancel the leading term with the divisor, or pass over a zero one. */
  function Remainder(d: seq<bool>): (r: Register)
    requires |d| >= 32
    decreases |d|
  {
    if |d| == 32 then d
    else if d[0] then Remainder(Xor(d[1..33], Generator()) + d[33..])
    else Remainder(d[1..])
  }

  /** One step of the register: drop the highest coefficient, cancelling it if it is one. */
  function Step(r: Register): Register {
    Xor(r[1..] + [false], if r[0] then Generator() else Zeros(32))
  }

  function Steps(r: Register, n: nat): Register
    decreases n
  {
    if n == 0 then r else Steps(Step(r), n - 1)
  }

  /** The register after the message bits have been fed into its high end. */
  function Feed(r: Register, bits: seq<bool>): Register
    decreases |bits|
  {
    if bits == [] then r else Feed(Step(Xor(r, [bits[0]] + Zeros(31))), bits[1..])
  }

  lemma {:induction false} FeedAppend(r: Register, xs: seq<bool>, ys: seq<bool>)
    ensures Feed(r, xs + ys) == Feed(Feed(r, xs), ys)
    decreases |xs|
  {
    if xs == [] {
      assert xs + ys == ys;
    } else {
      assert (xs + ys)[0] == xs[0] && (xs + ys)[1..] == xs[1..] + ys;
      FeedAppend(Step(Xor(r, [xs[0]] + Zeros(31))), xs[1..], ys);
    }
  }

  /**
   * The register holds the remainder of the message times x^32, its first 32 coefficients
   * having been changed by the register's initial contents.
   */
  lemma {:induction false} FeedIsRemainder(r: Register, bits: seq<bool>)
    ensures Remainder(Xor(bits + Zeros(32), r + Zeros(|bits|))) == Feed(r, bits)
    decreases |bits|
  {
    var d := Xor(bits + Zeros(32), r + Zeros(|bits|));
    if bits == [] {
      assert d == r;
    } else {
      var x := Xor(r, [bits[0]] + Zeros(31));
      var next := Step(x);
      FeedIsRemainder(next, bits[1..]);
      var e := Xor(bits[1..] + Zeros(32), next + Zeros(|bits| - 1));
      assert d[0] == x[0];
      forall i | 1 <= i < |d| ensures e[i - 1] == (d[i] != (x[0] && i <= 32 && Generator()[i - 1])) {
        if i <= 32 {
          assert next[i - 1] == ((i < 32 && r[i]) != (x[0] && Generator()[i - 1]));
        }
      }
      if x[0] {
        assert Xor(d[1..33], Generator()) + d[33..] == e;
      } else {
        assert d[1..] == e;
      }
    }
  }

  // ----- feeding loses nothing

  lemma StepInjective(r: Register, s: Register)
    requires Step(r) == Step(s)
    ensures r == s
  {
    assert Step(r)[31] == r[0] && Step(s)[31] == s[0];
    forall i | 1 <= i < 32 ensures r[i] == s[i] {
      assert Step(r)[i - 1] == (r[i] != (r[0] && Generator()[i - 1]));
      assert Step(s)[i - 1] == (s[i] != (s[0] && Generator()[i - 1]));
    }
  }

  lemma {:induction false} StepsInjective(r: Register, s: Register, n: nat)
    requires Steps(r, n) == Steps(s, n)
    ensures r == s
    decreases n
  {
    if n > 0 {
      StepsInjective(Step(r), Step(s), n - 1);
      StepInjective(r, s);
    }
  }

  lemma XorInjective(a: seq<bool>, b: seq<bool>, c: seq<bool>)
    requires |a| == |b| == |c| && Xor(a, b) == Xor(a, c)
    ensures b == c
  {
    forall i | 0 <= i < |a| ensures b[i] == c[i] {
      assert Xor(a, b)[i] == (a[i] != b[i]) && Xor(a, c)[i] == (a[i] != c[i]);
    }
  }

  lemma XorCommutes(a: seq<bool>, b: seq<bool>)
    requires |a| == |b|
    ensures Xor(a, b) == Xor(b, a)
  {
  }

  lemma {:induction false} FeedInjective(r: Register, s: Register, bits: seq<bool>)
    requires Feed(r, bits) == Feed(s, bits)
    ensures r == s
    decreases |bits|
  {
    if bits != [] {
      var b := [bits[0]] + Zeros(31);
      FeedInjective(Step(Xor(r, b)), Step(Xor(s, b)), bits[1..]);
      StepInjective(Xor(r, b), Xor(s, b));
      XorCommutes(r, b);
      XorCommutes(s, b);
      XorInjective(b, r, s);
    }
  }

  /** Coefficients not yet at the high end only move up as the register steps. */
  lemma StepMoves(x: Register, y: seq<bool>)
    requires |y| == 31
    ensures Step(Xor(x, [false] + y)) == Xor(Step(x), y + [false])
  {
  }

  lemma {:induction false} StepsMove(x: Register, y: seq<bool>, n: nat)
    requires n + |y| == 32
    ensures Steps(Xor(x, Zeros(n) + y), n) == Xor(Steps(x, n), y + Zeros(n))
    decreases n
  {
    if n == 0 {
      assert Zeros(0) + y == y + Zeros(0);
    } else {
      assert Zeros(n) + y == [false] + (Zeros(n - 1) + y);
      StepMoves(x, Zeros(n - 1) + y);
      assert Zeros(n - 1) + y + [false] == Zeros(n - 1) + (y + [false]);
      StepsMove(Step(x), y + [false], n - 1);
      assert y + [false] + Zeros(n - 1) == y + Zeros(n);
    }
  }

  /** Up to 32 bits fed in are the same bits laid over the register, stepped as many times. */
  lemma {:induction false} FeedIsSteps(r: Register, bits: seq<bool>)
    requires |bits| <= 32
    ensures Feed(r, bits) == Steps(Xor(r, bits + Zeros(32 - |bits|)), |bits|)
    decreases |bits|
  {
    var n := |bits|;
    if n == 0 {
      assert Xor(r, bits + Zeros(32)) == r;
    } else {
      var x := Xor(r, [bits[0]] + Zeros(31));
      var y := bits[1..] + Zeros(32 - n);
      FeedIsSteps(Step(x), bits[1..]);
      assert bits[1..] + Zeros(33 - n) == y + [false];
      StepMoves(x, y);
      assert Xor(x, [false] + y) == Xor(r, bits + Zeros(32 - n));
    }
  }

  /** From any register, two different strings of at most 32 bits lead to different registers. */
  lemma ShortFeedInjective(r: Register, xs: seq<bool>, ys: seq<bool>)
    requires |xs| == |ys| <= 32 && Feed(r, xs) == Feed(r, ys)
    ensures xs == ys
  {
    var pad := Zeros(32 - |xs|);
    FeedIsSteps(r, xs);
    FeedIsSteps(r, ys);
    StepsInjective(Xor(r, xs + pad), Xor(r, ys + pad), |xs|);
    XorInjective(r, xs + pad, ys + pad);
    assert xs == (xs + pad)[..|xs|] && ys == (ys + pad)[..|ys|];
  }

  /** Messages that differ only within 32 consecutive bits never meet again. */
  lemma BurstDetected(r: Register, before: seq<bool>, xs: seq<bool>, ys: seq<bool>, after: seq<bool>)
    requires |xs| == |ys| <= 32 && xs != ys
    ensures Feed(r, before + xs + after) != Feed(r, before + ys + after)
  {
    var at := Feed(r, before);
    FeedAppend(r, before + xs, after);
    FeedAppend(r, before + ys, after);
    FeedAppend(r, before, xs);
    FeedAppend(r, before, ys);
    if Feed(r, before + xs + after) == Feed(r, before + ys + after) {
      FeedInjective(Feed(at, xs), Feed(at, ys), after);
      ShortFeedInjective(at, xs, ys);
    }
  }
}
