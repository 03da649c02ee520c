/** Reading a word of any kind bit by bit, lowest first. */
module Serial {
  import opened Division

  function Read<W>(c: W, low: W -> bool, next: W -> W, n: nat): (s: seq<bool>)
    ensures |s| == n
  {
    if n == 0 then [] else [low(c)] + Read(next(c), low, next, n - 1)
  }

  lemma ReadAfterTwo<W>(c: W, low: W -> bool, next: W -> W, n: nat)
    ensures Read(c, low, next, 2 + n) == [low(c), low(next(c))] + Read(next(next(c)), low, next, n)
  {
  }

  lemma ReadAfterFour<W>(c: W, low: W -> bool, next: W -> W, n: nat)
    ensures Read(c, low, next, 4 + n) == Read(c, low, next, 4) + Read(next(next(next(next(c)))), low, next, n)
  {
    var c2 := next(next(c));
    var x, y, rest := [low(c), low(next(c))], [low(c2), low(next(c2))], Read(next(next(c2)), low, next, n);
    assert Read(c, low, next, 4 + n) == x + (y + rest) by {
      ReadAfterTwo(c, low, next, 2 + n);
      ReadAfterTwo(c2, low, next, n);
    }
    assert Read(c, low, next, 4) == x + (y + []) by {
      ReadAfterTwo(c, low, next, 2);
      ReadAfterTwo(c2, low, next, 0);
    }
    assert y + [] == y && x + (y + rest) == x + y + rest;
  }

  lemma ReadAfterEight<W>(c: W, low: W -> bool, next: W -> W, n: nat)
    ensures Read(c, low, next, 8 + n) == Read(c, low, next, 8)
      + Read(next(next(next(next(next(next(next(next(c)))))))), low, next, n)
  {
    var c4 := next(next(next(next(c))));
    ReadAfterFour(c, low, next, 4 + n);
    ReadAfterFour(c4, low, next, n);
    ReadAfterFour(c, low, next, 4);
  }

  lemma ReadEight<W>(c: W, low: W -> bool, next: W -> W)
    ensures var c2 := next(next(c)); var c4 := next(next(c2)); var c6 := next(next(c4));
      Read(c, low, next, 8)
        == [low(c), low(next(c)), low(c2), low(next(c2)), low(c4), low(next(c4)), low(c6), low(next(c6))]
  {
    var c2 := next(next(c));
    var c4 := next(next(c2));
    ReadAfterTwo(c, low, next, 6);
    ReadAfterTwo(c2, low, next, 4);
    ReadAfterTwo(c4, low, next, 2);
    ReadAfterTwo(next(next(c4)), low, next, 0);
  }

  lemma {:induction false} ReadZero<W>(zero: W, low: W -> bool, next: W -> W, n: nat)
    requires next(zero) == zero && !low(zero)
    ensures Read(zero, low, next, n) == Zeros(n)
  {
    if n > 0 {
      ReadZero(zero, low, next, n - 1);
    }
  }

  function Eight<W>(c: W, next: W -> W): W {
    next(next(next(next(next(next(next(next(c))))))))
  }

  lemma ReadFourBytes<W>(c: W, c1: W, c2: W, c3: W, low: W -> bool, next: W -> W)
    requires c1 == Eight(c, next) && c2 == Eight(c1, next) && c3 == Eight(c2, next)
    ensures Read(c, low, next, 32)
      == Read(c, low, next, 8) + Read(c1, low, next, 8) + Read(c2, low, next, 8) + Read(c3, low, next, 8)
  {
    ReadAfterEight(c, low, next, 24);
    ReadAfterEight(c1, low, next, 16);
    ReadAfterEight(c2, low, next, 8);
    var w, x, y, z := Read(c, low, next, 8), Read(c1, low, next, 8), Read(c2, low, next, 8), Read(c3, low, next, 8);
    assert w + (x + (y + z)) == w + x + y + z;
  }

  /** A word that is used up after four times eight steps reads as zeros from there on. */
  lemma ReadPastWord<W>(c: W, low: W -> bool, next: W -> W, n: nat)
    requires var z := Eight(Eight(Eight(Eight(c, next), next), next), next); next(z) == z && !low(z)
    ensures Read(c, low, next, 32 + n) == Read(c, low, next, 32) + Zeros(n)
  {
    var c1 := Eight(c, next);
    var c2 := Eight(c1, next);
    var c3 := Eight(c2, next);
    ReadZero(Eight(c3, next), low, next, n);
    ReadAfterEight(c3, low, next, n);
    Regroup(c2, low, next, 8, n);
    Regroup(c1, low, next, 16, n);
    Regroup(c, low, next, 24, n);
  }

  lemma Regroup<W>(c: W, low: W -> bool, next: W -> W, m: nat, n: nat)
    requires Read(Eight(c, next), low, next, m + n) == Read(Eight(c, next), low, next, m) + Zeros(n)
    ensures Read(c, low, next, 8 + m + n) == Read(c, low, next, 8 + m) + Zeros(n)
  {
    ReadAfterEight(c, low, next, m + n);
    ReadAfterEight(c, low, next, m);
    Grouped(Read(c, low, next, 8), Read(Eight(c, next), low, next, m), Zeros(n));
  }

  lemma Grouped(x: seq<bool>, y: seq<bool>, z: seq<bool>)
    ensures x + (y + z) == x + y + z
  {
  }

  lemma {:induction false} ReadXor<W(!new)>(a: W, b: W, low: W -> bool, next: W -> W, xor: (W, W) -> W, n: nat)
    requires forall x, y :: next(xor(x, y)) == xor(next(x), next(y))
    requires forall x, y :: low(xor(x, y)) <==> low(x) != low(y)
    ensures Read(xor(a, b), low, next, n) == Xor(Read(a, low, next, n), Read(b, low, next, n))
    decreases n
  {
    if n > 0 {
      ReadXor(next(a), next(b), low, next, xor, n - 1);
    }
  }
}
