/**
 * The size policies a transport is instantiated with: `varint<SizeType>` or `fixint<SizeType>`,
 * the size type an unsigned one of `width` bytes, and the contract both of them keep.
 */
module SizePolicy {
  import opened Bytes
  import V = Varint
  import F = Fixint

  type Width = w: nat | w >= 1 witness 4

  datatype Policy = Varint(width: Width) | Fixint(width: Width)

  /** One past the largest value of the size type. */
  function Limit(p: Policy): nat {
    Pow2(8 * p.width)
  }

  /** A `size_t` passed where the size type is expected. */
  function Narrow(p: Policy, n: nat): (r: nat)
    ensures r < Limit(p)
  {
    n % Limit(p)
  }

  function MinLength(p: Policy): nat {
    match p
    case Varint(_) => 1
    case Fixint(width) => width
  }

  function MaxLength(p: Policy): nat {
    match p
    case Varint(width) => 8 * width / 7 + 1
    case Fixint(width) => width
  }

  function SizeLength(p: Policy, s: seq<byte>): (n: nat)
    ensures n <= |s|
  {
    match p
    case Varint(_) => V.PrefixLength(s)
    case Fixint(width) => F.PrefixLength(width, s)
  }

  predicate HasSize(p: Policy, s: seq<byte>) {
    SizeLength(p, s) >= MinLength(p)
  }

  function Unpack(p: Policy, s: seq<byte>): nat {
    match p
    case Varint(width) => V.Digits(s) % Limit(p)
    case Fixint(width) => F.Digits(width, s)
  }

  function Pack(p: Policy, n: nat): seq<byte> {
    match p
    case Varint(_) => V.Encode(n)
    case Fixint(width) => F.Encode(width, n)
  }

  function PackedLength(p: Policy, n: nat): nat {
    match p
    case Varint(_) => V.PackedSize(n)
    case Fixint(width) => width
  }

  // ----- the contract

  /** Whatever follows it, a packed size is measured and read back exactly. */
  lemma UnpackPack(p: Policy, n: nat, r: seq<byte>)
    requires n < Limit(p)
    ensures SizeLength(p, Pack(p, n) + r) == |Pack(p, n)|
    ensures Unpack(p, Pack(p, n) + r) == n
  {
    match p
    case Varint(_) =>
      V.DecodeEncode(n, r);
      DivModUnique(n, Limit(p), 0, n);
    case Fixint(width) => F.DecodeEncode(width, n, r);
  }

  lemma PackedBounds(p: Policy, n: nat)
    requires n < Limit(p)
    ensures MinLength(p) <= |Pack(p, n)| <= MaxLength(p)
  {
    if p.Varint? {
      V.DecodeEncode(n, []);
      var k := MaxLength(p);
      Pow2Monotone(8 * p.width, 7 * k);
      V.EncodeMinimal(n, k);
    }
  }

  /** The longest packed size is `max_length` bytes long, unless seven divides the size type's bits. */
  lemma LongestPacked(p: Policy)
    requires p.Varint? ==> p.width % 7 != 0
    ensures |Pack(p, Limit(p) - 1)| == MaxLength(p)
  {
    if p.Varint? {
      var k := MaxLength(p) - 1;
      SevenfoldBelow(p.width, k);
      PackedBounds(p, Limit(p) - 1);
      Pow2Monotone(7 * k + 1, 8 * p.width);
      Pow2Add(7 * k, 1);
      if k > 0 {
        V.EncodeMinimal(Limit(p) - 1, k);
      }
    }
  }

  lemma SevenfoldBelow(width: Width, k: nat)
    requires k == 8 * width / 7 && width % 7 != 0
    ensures 7 * k + 1 <= 8 * width
  {
  }

  /** No proper prefix of a packed size passes for a complete one. */
  lemma PackedProperPrefix(p: Policy, n: nat, k: nat)
    requires k < |Pack(p, n)|
    ensures !HasSize(p, Pack(p, n)[..k])
  {
    if p.Varint? {
      V.ProperPrefixIncomplete(n, k);
    }
  }

  /** A varint prefix ends with the first byte whose top bit is clear. */
  lemma SizeShape(p: Policy, s: seq<byte>)
    ensures p.Varint? ==> var n := SizeLength(p, s);
      && (n > 0 ==> s[n - 1] < 0x80 && forall i :: 0 <= i < n - 1 ==> s[i] >= 0x80)
      && (n == 0 ==> forall i :: 0 <= i < |s| ==> s[i] >= 0x80)
  {
    if p.Varint? {
      V.PrefixShape(s);
    }
  }

  /** Bytes arriving later change neither the length nor the value of a size already complete. */
  lemma SizeStable(p: Policy, a: seq<byte>, b: seq<byte>)
    requires HasSize(p, a)
    ensures SizeLength(p, a + b) == SizeLength(p, a)
    ensures Unpack(p, a + b) == Unpack(p, a)
  {
    match p
    case Varint(_) => V.CompletePrefixStable(a, b);
    case Fixint(width) => assert (a + b)[..width] == a[..width];
  }

  lemma UnpackBelowLimit(p: Policy, s: seq<byte>)
    ensures Unpack(p, s) < Limit(p)
  {
    match p
    case Varint(_) =>
    case Fixint(width) =>
      F.NumberBound(if |s| < width then s + Zeros(width - |s|) else s[..width]);
  }

  /** The room `packed_length` reserves is what `pack` fills, for every size but a varint zero. */
  lemma ReservedRoom(p: Policy, n: nat)
    ensures PackedLength(p, n) == |Pack(p, n)| <==> p.Fixint? || n > 0
  {
    if p.Varint? {
      V.DecodeEncode(n, []);
    }
  }

  /** Two sizes never pack to the same bytes, and neither packs to a prefix of the other. */
  lemma PackPrefixFree(p: Policy, n: nat, m: nat, r: seq<byte>)
    requires n < Limit(p) && m < Limit(p)
    requires Pack(p, n) + r == Pack(p, m)
    ensures n == m && r == []
  {
    UnpackPack(p, n, r);
    UnpackPack(p, m, []);
    assert Pack(p, m) + [] == Pack(p, m);
  }

  // ----- the policies' own methods

  method ComputeSizeLength(p: Policy, s: seq<byte>) returns (r: nat)
    ensures r == SizeLength(p, s)
  {
    match p
    case Varint(_) => r := V.SizeLength(s);
    case Fixint(width) => r := F.SizeLength(width, s);
  }

  method ComputeUnpack(p: Policy, s: seq<byte>) returns (r: nat)
    ensures r == Unpack(p, s)
  {
    match p
    case Varint(width) => r := V.Unpack(s, width);
    case Fixint(width) => r := F.Unpack(width, s);
  }

  method ComputePackedLength(p: Policy, n: nat) returns (r: nat)
    ensures r == PackedLength(p, n)
  {
    match p
    case Varint(_) => r := V.PackedLength(n);
    case Fixint(width) => r := width;
  }

  method PackAt(p: Policy, n: nat, res: ByteString, at: nat) returns (r: nat)
    requires at + |Pack(p, n)| <= |res.data| || (p.Varint? && n == 0 && at == |res.data|)
    modifies res
    ensures r == |Pack(p, n)|
    ensures at + r <= |old(res.data)| ==> res.data == Overwrite(old(res.data), at, Pack(p, n))
    ensures at + r > |old(res.data)| ==> res.data == old(res.data)
  {
    match p
    case Varint(_) => r := V.PackAt(n, res, at);
    case Fixint(width) => r := F.PackAt(width, n, res, at);
  }
}
