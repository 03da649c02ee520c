/** The in-place framers: `message_packer::pack` and `binary::insert_size_prefix`. */
module Packer {
  import opened Bytes
  import opened SizePolicy
  import opened Framing

  /** `room` bytes put in front of `m`, and `h` written from the start of them. */
  function Prefixed(h: seq<byte>, room: nat, m: seq<byte>): seq<byte> {
    var s := Zeros(room) + m;
    if |h| <= |s| then Overwrite(s, 0, h) else s
  }

  /**
   * What a framer makes of a payload: room of the reserved length in front, the packed size
   * written from the start of it. Sizes are cut to the size type on both occasions.
   */
  function Packed(p: Policy, m: seq<byte>): seq<byte> {
    var size := Narrow(p, |m|);
    Prefixed(Pack(p, size), PackedLength(p, size), m)
  }

  /** The payloads a framer frames: they fit the size type, and a varint size is not zero. */
  predicate Sendable(p: Policy, m: seq<byte>) {
    |m| < Limit(p) && (p.Varint? ==> m != [])
  }

  lemma PackedIsFrame(p: Policy, m: seq<byte>)
    requires Sendable(p, m)
    ensures Packed(p, m) == Frame(p, m)
  {
    NarrowSmall(p, |m|);
    ReservedRoom(p, |m|);
    assert Overwrite(Zeros(|Pack(p, |m|)|) + m, 0, Pack(p, |m|)) == Pack(p, |m|) + m;
  }

  lemma NarrowSmall(p: Policy, n: nat)
    requires n < Limit(p)
    ensures Narrow(p, n) == n
  {
    DivModUnique(n, Limit(p), 0, n);
  }

  /** A framed payload is read back as itself if and only if it could be framed. */
  lemma PackedRoundTrip(p: Policy, accept: Validator, m: seq<byte>)
    requires accept(|m|)
    ensures Parse(p, accept, Packed(p, m)) == Parsed([m], []) <==> Sendable(p, m)
  {
    if Sendable(p, m) {
      PackedIsFrame(p, m);
      StreamCons(p, [m]);
      assert Stream(p, [m]) == Frame(p, m) + Stream(p, []) == Frame(p, m);
      ParseStream(p, accept, [m]);
    } else if |m| < Limit(p) {
      NarrowSmall(p, |m|);
      assert Packed(p, m) == [];
    } else {
      ParsedBelowLimit(p, accept, Packed(p, m));
      assert m in [m];
    }
  }

  method PackMessage(p: Policy, mess: ByteString)
    modifies mess
    ensures mess.data == Packed(p, old(mess.data))
  {
    var oldSize := |mess.data|;
    var pak := ComputePackedLength(p, Narrow(p, oldSize));
    mess.InsertFront(Zeros(pak));
    RoomForPrefix(p, Narrow(p, oldSize));
    var _ := PackAt(p, Narrow(p, oldSize), mess, 0);
  }

  lemma RoomForPrefix(p: Policy, n: nat)
    ensures PackedLength(p, n) == |Pack(p, n)| || (p.Varint? && n == 0 && PackedLength(p, n) == 0 && |Pack(p, n)| == 1)
  {
    ReservedRoom(p, n);
  }

  /**
   * The slice of `len` bytes at `cap` in `buf` gets its size in front of it, in the headroom if
   * that is large enough and by growing the buffer otherwise; either way the slice returned
   * spells the packed payload.
   */
  method InsertSizePrefix(p: Policy, buf: ByteString, cap: nat, len: nat) returns (begin: nat, size: nat)
    requires cap + len <= |buf.data|
    modifies buf
    ensures begin + size <= |buf.data|
    ensures buf.data[begin..begin + size] == Packed(p, old(buf.data)[cap..cap + len])
    ensures Sendable(p, old(buf.data)[cap..cap + len]) ==>
      buf.data[begin + size..] == old(buf.data)[cap + len..]
    ensures var room := PackedLength(p, Narrow(p, len));
      if cap >= room then
        |buf.data| == |old(buf.data)| && begin == cap - room && buf.data[..begin] == old(buf.data)[..begin]
      else
        |buf.data| == |old(buf.data)| + (room - cap) && begin == 0
  {
    var pak := ComputePackedLength(p, Narrow(p, len));
    if cap >= pak {
      begin, size := WritePrefix(p, buf, cap, len);
    } else {
      ShiftedSlice(Zeros(pak - cap), buf.data, cap, len, pak);
      buf.InsertFront(Zeros(pak - cap));
      begin, size := WritePrefix(p, buf, pak, len);
    }
  }

  /** The slice of `s` stands framed in `r`; if it is sendable, followed by what followed it. */
  predicate PrefixWritten(p: Policy, s: seq<byte>, cap: nat, len: nat, r: seq<byte>, begin: nat, size: nat)
    requires cap + len <= |s|
  {
    && begin + size <= |r| && r[begin..begin + size] == Packed(p, s[cap..cap + len])
    && (Sendable(p, s[cap..cap + len]) ==> r[begin + size..] == s[cap + len..])
  }

  /** The size is packed into the bytes just before the slice. */
  method WritePrefix(p: Policy, buf: ByteString, cap: nat, len: nat) returns (begin: nat, size: nat)
    requires PackedLength(p, Narrow(p, len)) <= cap && cap + len <= |buf.data|
    modifies buf
    ensures PrefixWritten(p, old(buf.data), cap, len, buf.data, begin, size)
    ensures |buf.data| == |old(buf.data)| && begin == cap - PackedLength(p, Narrow(p, len))
    ensures buf.data[..begin] == old(buf.data)[..begin]
  {
    var n := Narrow(p, len);
    var pak := ComputePackedLength(p, n);
    RoomForPrefix(p, n);
    WrittenInPlace(p, n, pak, buf.data, cap, len);
    var _ := PackAt(p, n, buf, cap - pak);
    begin, size := cap - pak, len + pak;
  }

  lemma WrittenInPlace(p: Policy, n: nat, room: nat, s: seq<byte>, cap: nat, len: nat)
    requires n == Narrow(p, len) && room == PackedLength(p, n) <= cap && cap + len <= |s|
    ensures var h := Pack(p, n); var at := cap - room; var r := if at + |h| <= |s| then Overwrite(s, at, h) else s;
      PrefixWritten(p, s, cap, len, r, at, len + room)
  {
    PackedInPlace(p, n, room, s, cap, len);
  }

  lemma PackedInPlace(p: Policy, n: nat, room: nat, s: seq<byte>, cap: nat, len: nat)
    requires n == Narrow(p, len) && room == PackedLength(p, n) <= cap && cap + len <= |s|
    ensures var h := Pack(p, n); var at := cap - room; var r := if at + |h| <= |s| then Overwrite(s, at, h) else s;
      && r[at..at + (len + room)] == Packed(p, s[cap..cap + len])
      && (Sendable(p, s[cap..cap + len]) ==> r[at + (len + room)..] == s[cap + len..])
  {
    RoomForPrefix(p, n);
    PrefixedInPlace(Pack(p, n), room, s, cap, len);
    if Sendable(p, s[cap..cap + len]) {
      NarrowSmall(p, len);
      ReservedRoom(p, n);
    }
  }

  /** Writing just before a payload turns the window they share into the prefixed payload. */
  lemma PrefixedInPlace(h: seq<byte>, room: nat, s: seq<byte>, cap: nat, len: nat)
    requires room <= cap && cap + len <= |s| && (|h| == room || (room == 0 && |h| == 1))
    ensures var at := cap - room; var r := if at + |h| <= |s| then Overwrite(s, at, h) else s;
      && r[at..cap + len] == Prefixed(h, room, s[cap..cap + len])
      && (|h| == room ==> r[cap + len..] == s[cap + len..])
  {
    if |h| == room {
      OverwriteBefore(h, s, cap, len);
      Middle(s[..cap - room], h + s[cap..cap + len], s[cap + len..]);
      PrefixedRoom(h, s[cap..cap + len]);
    } else {
      FirstByteLost(h, s, cap, len);
    }
  }

  lemma PrefixedRoom(h: seq<byte>, m: seq<byte>)
    ensures Prefixed(h, |h|, m) == h + m
  {
    assert (Zeros(|h|) + m)[|h|..] == m && (Zeros(|h|) + m)[..0] == [];
    assert [] + h + m == h + m;
  }

  lemma OverwriteBefore(h: seq<byte>, s: seq<byte>, cap: nat, len: nat)
    requires |h| <= cap && cap + len <= |s|
    ensures Overwrite(s, cap - |h|, h) == s[..cap - |h|] + (h + s[cap..cap + len]) + s[cap + len..]
  {
    assert s[cap..] == s[cap..cap + len] + s[cap + len..];
    Regroup(s[..cap - |h|], h, s[cap..cap + len], s[cap + len..]);
  }

  lemma Regroup(x: seq<byte>, h: seq<byte>, m: seq<byte>, y: seq<byte>)
    ensures x + h + (m + y) == x + (h + m) + y
  {
  }

  lemma ShiftedSlice(z: seq<byte>, s: seq<byte>, cap: nat, len: nat, moved: nat)
    requires cap + len <= |s| && moved == |z| + cap
    ensures (z + s)[moved..moved + len] == s[cap..cap + len]
    ensures (z + s)[moved + len..] == s[cap + len..]
  {
  }

  lemma Middle(x: seq<byte>, m: seq<byte>, y: seq<byte>)
    ensures (x + m + y)[|x|..|x| + |m|] == m && (x + m + y)[|x| + |m|..] == y
  {
  }

  /** A zero size has no room reserved for it: its byte lands on the payload, if there is one. */
  lemma FirstByteLost(h: seq<byte>, s: seq<byte>, cap: nat, len: nat)
    requires cap + len <= |s| && |h| == 1
    ensures var r := if cap + 1 <= |s| then Overwrite(s, cap, h) else s;
      r[cap..cap + len] == Prefixed(h, 0, s[cap..cap + len])
  {
    if len > 0 {
      FirstByteOf(h, s[cap..cap + len]);
      FirstByteAt(h, s, cap, len);
    }
  }

  lemma FirstByteOf(h: seq<byte>, m: seq<byte>)
    requires |h| == 1 <= |m|
    ensures Prefixed(h, 0, m) == h + m[1..]
  {
    assert Zeros(0) + m == m && [] + h + m[1..] == h + m[1..];
  }

  lemma FirstByteAt(h: seq<byte>, s: seq<byte>, cap: nat, len: nat)
    requires cap + len <= |s| && |h| == 1 <= len
    ensures Overwrite(s, cap, h)[cap..cap + len] == h + s[cap..cap + len][1..]
  {
    assert s[cap + 1..][..len - 1] == s[cap..cap + len][1..];
    SliceAfter(s[..cap], h, s[cap + 1..], len - 1);
  }

  lemma SliceAfter(x: seq<byte>, h: seq<byte>, y: seq<byte>, n: nat)
    requires n <= |y|
    ensures (x + h + y)[|x|..|x| + |h| + n] == h + y[..n]
  {
  }
}
