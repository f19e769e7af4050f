/**
 The standalone codec of the two-layer index (faiss/Index2Layer.cpp; Level1Quantizer in
 faiss/IndexIVF.cpp): a code is a list number in as many bytes as it needs, then the code of the
 residual. Encoding expands the residual codes in place, from the last one backwards.
 */
module TwoLayerCodec {

  type Byte = b: int | 0 <= b < 256

  /** What the two quantizers make of a vector: its list and the code of its residual. */
  datatype Item = Item(listNo: nat, pq: seq<Byte>)

  function Pow256(n: nat): nat {
    if n == 0 then 1 else 256 * Pow256(n - 1)
  }

  /** How often a number can be shifted down by a byte before it is gone. */
  function ByteCount(largest: nat): nat {
    if largest == 0 then 0 else 1 + ByteCount(largest / 256)
  }

  /** Little-endian bytes of a number, as many as a largest number needs. */
  function ListBytes(no: nat, largest: nat): (bytes: seq<Byte>)
    ensures |bytes| == ByteCount(largest)
  {
    if largest == 0 then [] else [no % 256] + ListBytes(no / 256, largest / 256)
  }

  /** The number that little-endian bytes stand for. */
  function Value(bytes: seq<Byte>): nat {
    if bytes == [] then 0 else bytes[0] + 256 * Value(bytes[1..])
  }

  /** A number up to the largest one survives. */
  lemma {:induction false} ListNoRoundTrip(no: nat, largest: nat)
    requires no <= largest
    ensures Value(ListBytes(no, largest)) == no
  {
    if largest > 0 {
      ListNoRoundTrip(no / 256, largest / 256);
      assert ListBytes(no, largest)[1..] == ListBytes(no / 256, largest / 256);
    }
  }

  /** The number of bytes is the least one with room for the largest number. */
  lemma {:induction false} BytesNeeded(largest: nat, n: nat)
    requires largest < Pow256(n) && (n > 0 ==> Pow256(n - 1) <= largest)
    ensures ByteCount(largest) == n
  {
    if n > 0 {
      assert n > 1 ==> Pow256(n - 1) == 256 * Pow256(n - 2);
      PowPositive(n - 1);
      BytesNeeded(largest / 256, n - 1);
    }
  }

  lemma {:induction false} PowPositive(n: nat)
    ensures Pow256(n) > 0
  {
    if n > 0 {
      PowPositive(n - 1);
    }
  }

  /** The constructor's choice of bytes for the list numbers. It finds none when there are too many lists. */
  method ChooseCodeSize(nlist: nat) returns (found: bool, nbyte: nat)
    requires nlist > 0
    ensures found <==> nlist <= Pow256(6)
    ensures found ==> nbyte == ByteCount(nlist - 1)
  {
    found, nbyte := false, 0;
    while nbyte < 7
      invariant nbyte <= 7 && (nbyte > 0 ==> Pow256(nbyte - 1) < nlist)
    {
      if Pow256(nbyte) >= nlist {
        BytesNeeded(nlist - 1, nbyte);
        found := true;
        UpToSix(nbyte);
        return;
      }
      nbyte := nbyte + 1;
    }
  }

  lemma {:induction false} UpToSix(n: nat)
    requires n < 7
    ensures Pow256(n) <= Pow256(6)
    decreases 7 - n
  {
    if n < 6 {
      PowPositive(n);
      UpToSix(n + 1);
    }
  }

  ghost predicate GoodItems(xs: seq<Item>, nlist: nat, size1: nat, size2: nat) {
    && nlist > 0 && size1 == ByteCount(nlist - 1)
    && forall i :: 0 <= i < |xs| ==> xs[i].listNo < nlist && |xs[i].pq| == size2
  }

  /** The code of a vector. */
  function Code(x: Item, nlist: nat): seq<Byte>
    requires nlist > 0
  {
    ListBytes(x.listNo, nlist - 1) + x.pq
  }

  /** All codes, one after the other. */
  function Codes(xs: seq<Item>, nlist: nat): seq<Byte>
    requires nlist > 0
  {
    if xs == [] then [] else Code(xs[0], nlist) + Codes(xs[1..], nlist)
  }

  /** All residual codes, one after the other. */
  function Packed(xs: seq<Item>): seq<Byte> {
    if xs == [] then [] else Packed(xs[..|xs| - 1]) + xs[|xs| - 1].pq
  }

  lemma Distribute(a: int, b: int, c: int)
    ensures (a + b) * c == a * c + b * c && a * (b + c) == a * b + a * c
  {
  }

  lemma {:induction false} CodesLength(xs: seq<Item>, nlist: nat, size1: nat, size2: nat)
    requires GoodItems(xs, nlist, size1, size2)
    ensures |Codes(xs, nlist)| == |xs| * (size1 + size2)
  {
    if xs != [] {
      CodesLength(xs[1..], nlist, size1, size2);
      Distribute(1, |xs| - 1, size1 + size2);
    }
  }

  lemma {:induction false} PackedLength(xs: seq<Item>, size2: nat)
    requires forall i :: 0 <= i < |xs| ==> |xs[i].pq| == size2
    ensures |Packed(xs)| == |xs| * size2
  {
    if xs != [] {
      PackedLength(xs[..|xs| - 1], size2);
      Distribute(|xs| - 1, 1, size2);
    }
  }

  lemma {:induction false} CodesConcat(a: seq<Item>, b: seq<Item>, nlist: nat)
    requires nlist > 0
    ensures Codes(a + b, nlist) == Codes(a, nlist) + Codes(b, nlist)
  {
    hide Code;
    if a == [] {
      assert a + b == b;
    } else {
      CodesConcat(a[1..], b, nlist);
      assert (a + b)[1..] == a[1..] + b && (a + b)[0] == a[0];
      assert Codes(a + b, nlist) == Code(a[0], nlist) + (Codes(a[1..], nlist) + Codes(b, nlist));
      assert Codes(a, nlist) == Code(a[0], nlist) + Codes(a[1..], nlist);
      hide Codes;
      assert Codes(a + b, nlist) == Codes(a, nlist) + Codes(b, nlist);
    }
  }

  // Reading codes back.

  /** Both parts of every code come back: list number and residual code. */
  lemma CodeRoundTrip(x: Item, nlist: nat, size1: nat, size2: nat)
    requires GoodItems([x], nlist, size1, size2)
    ensures var code := Code(x, nlist);
      && |code| == size1 + size2 && code[size1..] == x.pq
      && Value(code[..size1]) == x.listNo
  {
    assert [x][0] == x;
    ListNoRoundTrip(x.listNo, nlist - 1);
    assert Code(x, nlist)[..size1] == ListBytes(x.listNo, nlist - 1);
  }

  /** Where the code of vector i is. */
  lemma {:induction false} CodeAt(xs: seq<Item>, nlist: nat, size1: nat, size2: nat, i: nat)
    requires GoodItems(xs, nlist, size1, size2) && i < |xs|
    ensures 0 <= i * (size1 + size2) && (i + 1) * (size1 + size2) <= |Codes(xs, nlist)|
    ensures i * (size1 + size2) <= (i + 1) * (size1 + size2)
    ensures Codes(xs, nlist)[i * (size1 + size2)..(i + 1) * (size1 + size2)] == Code(xs[i], nlist)
  {
    var size := size1 + size2;
    assert xs == xs[..i] + ([xs[i]] + xs[i + 1..]);
    CodesConcat(xs[..i], [xs[i]] + xs[i + 1..], nlist);
    CodesConcat([xs[i]], xs[i + 1..], nlist);
    CodesLength(xs[..i], nlist, size1, size2);
    CodesLength([xs[i]], nlist, size1, size2);
    assert Codes([xs[i]], nlist) == Code(xs[i], nlist) by {
      assert [xs[i]][1..] == [];
      assert Codes([], nlist) == [];
    }
    Distribute(i, 1, size);
  }

  lemma ByteCountStep(nl: nat)
    requires nl > 0
    ensures ByteCount(nl) == 1 + ByteCount(nl / 256)
  {
  }

  lemma NoBytes()
    ensures ByteCount(0) == 0 && Value([]) == 0
  {
  }

  /** decode_listno: byte by byte, each shifted to its place. It throws on bytes that stand for no list. */
  method DecodeListNo(code: seq<Byte>, nlist: nat) returns (ok: bool, listNo: nat)
    requires nlist > 0 && |code| == ByteCount(nlist - 1)
    ensures listNo == Value(code) && (ok <==> Value(code) < nlist)
  {
    hide *;
    var nl: nat := nlist - 1;
    listNo := 0;
    var shift: nat, j: nat := 1, 0;
    assert code[0..] == code;
    while nl > 0
      invariant j <= |code| && |code| - j == ByteCount(nl)
      invariant listNo + shift * Value(code[j..]) == Value(code)
    {
      ByteCountStep(nl);
      ValueStep(code, j, shift);
      listNo := listNo + shift * code[j];
      shift := shift * 256;
      j := j + 1;
      nl := nl / 256;
    }
    NoBytes();
    assert code[j..] == [];
    ok := listNo < nlist;
  }

  lemma ValueStep(code: seq<Byte>, j: nat, shift: nat)
    requires j < |code|
    ensures shift * Value(code[j..]) == shift * code[j] + (shift * 256) * Value(code[j + 1..])
  {
    assert code[j..][1..] == code[j + 1..];
    Distribute(shift, code[j], 256 * Value(code[j + 1..]));
    Associate(shift, 256, Value(code[j + 1..]));
  }

  lemma Associate(a: int, b: int, c: int)
    ensures a * (b * c) == (a * b) * c
  {
  }

  // Encoding in place.

  /** The sequence with x written over it from a place on. */
  function Splice(s: seq<Byte>, at: nat, x: seq<Byte>): (r: seq<Byte>)
    requires at + |x| <= |s|
    ensures |r| == |s|
  {
    s[..at] + x + s[at + |x|..]
  }

  lemma SpliceInside(s: seq<Byte>, at: nat, region: seq<Byte>, k: nat, x: seq<Byte>)
    requires at + |region| <= |s| && k + |x| <= |region|
    ensures Splice(Splice(s, at, region), at + k, x) == Splice(s, at, Splice(region, k, x))
  {
  }

  lemma SpliceBehind(s: seq<Byte>, at: nat, a: seq<Byte>, b: seq<Byte>)
    requires at + |a| + |b| <= |s|
    ensures Splice(Splice(s, at, a), at + |a|, b) == Splice(s, at, a + b)
  {
  }

  lemma SpliceSlice(s: seq<Byte>, at: nat, region: seq<Byte>, from: nat, to: nat)
    requires at + |region| <= |s| && from <= to <= |region|
    ensures Splice(s, at, region)[at + from..at + to] == region[from..to]
  {
  }

  lemma SpliceOne(s: seq<Byte>, p: nat, b: Byte)
    requires p < |s|
    ensures s[p := b] == Splice(s, p, [b])
  {
  }

  lemma NextByte(done: seq<Byte>, no: nat, nl: nat)
    requires nl > 0
    ensures done + ListBytes(no, nl) == (done + [no % 256]) + ListBytes(no / 256, nl / 256)
    ensures ByteCount(nl) == 1 + ByteCount(nl / 256)
  {
  }

  /** encode_listno: the bytes of the list number, written from a place on. */
  method EncodeListNo(listNo: nat, nlist: nat, bytes: array<Byte>, at: nat)
    requires nlist > 0 && at + ByteCount(nlist - 1) <= bytes.Length
    modifies bytes
    ensures bytes[..] == Splice(old(bytes[..]), at, ListBytes(listNo, nlist - 1))
  {
    var no, nl, p := listNo, nlist - 1, at;
    ghost var done: seq<Byte> := [];
    while nl > 0
      invariant no >= 0 && nl >= 0 && at <= p && p + ByteCount(nl) == at + ByteCount(nlist - 1)
      invariant |done| == p - at && done + ListBytes(no, nl) == ListBytes(listNo, nlist - 1)
      invariant bytes[..] == Splice(old(bytes[..]), at, done)
    {
      NextByte(done, no, nl);
      hide ListBytes, ByteCount, Splice;
      ghost var s := bytes[..];
      bytes[p] := no % 256;
      assert bytes[..] == s[p := no % 256];
      SpliceOne(s, p, no % 256);
      SpliceBehind(old(bytes[..]), at, done, [no % 256]);
      done := done + [no % 256];
      no, nl, p := no / 256, nl / 256, p + 1;
    }
  }

  /** memmove inside the buffer: the source is read as it was before. */
  method MoveBytes(bytes: array<Byte>, to: nat, from: nat, n: nat)
    requires to + n <= bytes.Length && from + n <= bytes.Length
    modifies bytes
    ensures bytes[..] == Splice(old(bytes[..]), to, old(bytes[from..from + n]))
  {
    var source := bytes[from..from + n];
    forall i | 0 <= i < n {
      bytes[to + i] := source[i];
    }
  }

  /** The packed residual codes as the product quantizer writes them. */
  method ComputeCodes(xs: seq<Item>, bytes: array<Byte>, at: nat)
    requires at + |Packed(xs)| <= bytes.Length
    modifies bytes
    ensures bytes[..] == Splice(old(bytes[..]), at, Packed(xs))
  {
    var packed := Packed(xs);
    forall i | 0 <= i < |packed| {
      bytes[at + i] := packed[i];
    }
  }

  /** State of the backward expansion: the first i codes are still packed at the start of the region, and
      behind the places of the first i codes everything is expanded. */
  ghost predicate Expanding(region: seq<Byte>, xs: seq<Item>, nlist: nat, size1: nat, size2: nat, i: nat) {
    && nlist > 0 && i <= |xs|
    && 0 <= i * size2 <= i * (size1 + size2) <= |region|
    && region[..i * size2] == Packed(xs[..i])
    && region[i * (size1 + size2)..] == Codes(xs[i..], nlist)
  }

  lemma Places(i: nat, size1: nat, size2: nat)
    ensures 0 <= i * size2 <= i * (size1 + size2)
    ensures i * (size1 + size2) + size1 + size2 == (i + 1) * (size1 + size2) && i * size2 + size2 == (i + 1) * size2
  {
    Distribute(i, 1, size1 + size2);
    Distribute(i, 1, size2);
    Distribute(i, size1, size2);
    assert i * size1 >= 0;
  }

  /** The code of vector i is still where it was packed. */
  lemma NotMovedYet(region: seq<Byte>, xs: seq<Item>, nlist: nat, size1: nat, size2: nat, i: nat)
    requires GoodItems(xs, nlist, size1, size2) && i < |xs| && Expanding(region, xs, nlist, size1, size2, i + 1)
    ensures 0 <= i * size2 <= i * size2 + size2 <= |region|
    ensures region[..i * size2] == Packed(xs[..i])
    ensures region[i * size2..i * size2 + size2] == xs[i].pq
  {
    Places(i, size1, size2);
    PackedLength(xs[..i], size2);
    assert xs[..i + 1][..i] == xs[..i];
    var packed := region[..(i + 1) * size2];
    assert packed == Packed(xs[..i]) + xs[i].pq;
    assert region[..i * size2] == packed[..i * size2];
    assert region[i * size2..i * size2 + size2] == packed[i * size2..];
  }

  /** Moving the code of vector i to its place and writing its list number touches no code before it. */
  lemma ExpandOne(region: seq<Byte>, xs: seq<Item>, nlist: nat, size1: nat, size2: nat, i: nat)
    requires GoodItems(xs, nlist, size1, size2) && i < |xs| && Expanding(region, xs, nlist, size1, size2, i + 1)
    ensures |Code(xs[i], nlist)| == size1 + size2
    ensures 0 <= i * (size1 + size2) <= i * (size1 + size2) + size1 + size2 <= |region|
    ensures Expanding(Splice(region, i * (size1 + size2), Code(xs[i], nlist)), xs, nlist, size1, size2, i)
  {
    NotMovedYet(region, xs, nlist, size1, size2, i);
    Places(i, size1, size2);
    var o := i * (size1 + size2);
    assert |Code(xs[i], nlist)| == size1 + size2;
    var next := Splice(region, o, Code(xs[i], nlist));
    hide Packed, ListBytes, ByteCount;
    assert xs[i..][1..] == xs[i + 1..];
    assert Codes(xs[i..], nlist) == Code(xs[i], nlist) + Codes(xs[i + 1..], nlist);
    hide Codes, Code;
    assert next[..i * size2] == region[..i * size2];
    assert next[o..] == Code(xs[i], nlist) + region[o + size1 + size2..];
  }

  /** Two writes, the residual code and the list number before it, are one. */
  lemma TwoWrites(region: seq<Byte>, x: Item, nlist: nat, size1: nat, o: nat)
    requires nlist > 0 && size1 == ByteCount(nlist - 1) && o + size1 + |x.pq| <= |region|
    ensures Splice(Splice(region, o + size1, x.pq), o, ListBytes(x.listNo, nlist - 1)) == Splice(region, o, Code(x, nlist))
  {
  }

  /** One turn of the descending loop, in the region that starts at o. */
  method ExpandAt(xs: seq<Item>, nlist: nat, size1: nat, size2: nat, bytes: array<Byte>, o: nat, i: nat,
                  ghost before: seq<Byte>, ghost region: seq<Byte>)
    returns (ghost next: seq<Byte>)
    requires GoodItems(xs, nlist, size1, size2) && i < |xs| && o + |region| <= |before| == bytes.Length
    requires Expanding(region, xs, nlist, size1, size2, i + 1) && bytes[..] == Splice(before, o, region)
    modifies bytes
    ensures Expanding(next, xs, nlist, size1, size2, i)
    ensures |next| == |region| && bytes[..] == Splice(before, o, next)
  {
    hide *;
    ExpandOne(region, xs, nlist, size1, size2, i);
    NotMovedYet(region, xs, nlist, size1, size2, i);
    ItemSizes(xs, nlist, size1, size2, i);
    Places(i, size1, size2);
    WriteCode(xs[i], nlist, size1, size2, bytes, o, i * (size1 + size2), i * size2, before, region);
    next := Splice(region, i * (size1 + size2), Code(xs[i], nlist));
  }

  lemma ItemSizes(xs: seq<Item>, nlist: nat, size1: nat, size2: nat, i: nat)
    requires GoodItems(xs, nlist, size1, size2) && i < |xs|
    ensures nlist > 0 && size1 == ByteCount(nlist - 1) && |xs[i].pq| == size2
  {
  }

  /** A packed code moves to its place, and its list number goes before it. */
  method WriteCode(x: Item, nlist: nat, size1: nat, size2: nat, bytes: array<Byte>, o: nat, code: nat, from: nat,
                   ghost before: seq<Byte>, ghost region: seq<Byte>)
    requires nlist > 0 && size1 == ByteCount(nlist - 1) && |x.pq| == size2 && |Code(x, nlist)| == size1 + size2
    requires o + |region| <= |before| == bytes.Length && bytes[..] == Splice(before, o, region)
    requires code + size1 + size2 <= |region| && from + size2 <= |region| && region[from..from + size2] == x.pq
    modifies bytes
    ensures bytes[..] == Splice(before, o, Splice(region, code, Code(x, nlist)))
  {
    hide *;
    SpliceSlice(before, o, region, from, from + size2);
    assert bytes[o + from..o + from + size2] == bytes[..][o + from..o + (from + size2)];
    MoveBytes(bytes, o + code + size1, o + from, size2);
    SpliceInside(before, o, region, code + size1, x.pq);
    EncodeListNo(x.listNo, nlist, bytes, o + code);
    SpliceInside(before, o, Splice(region, code + size1, x.pq), code, ListBytes(x.listNo, nlist - 1));
    TwoWrites(region, x, nlist, size1, code);
  }

  lemma AllPacked(rest: seq<Byte>, xs: seq<Item>, nlist: nat, size1: nat, size2: nat)
    requires GoodItems(xs, nlist, size1, size2) && |Packed(xs)| + |rest| == |xs| * (size1 + size2)
    ensures Expanding(Packed(xs) + rest, xs, nlist, size1, size2, |xs|)
  {
    PackedLength(xs, size2);
    Places(|xs|, size1, size2);
    assert xs[..|xs|] == xs && xs[|xs|..] == [];
    var region := Packed(xs) + rest;
    assert region[..|xs| * size2] == Packed(xs);
    assert region[|region|..] == [];
  }

  lemma AllExpanded(region: seq<Byte>, xs: seq<Item>, nlist: nat, size1: nat, size2: nat)
    requires Expanding(region, xs, nlist, size1, size2, 0)
    ensures nlist > 0 && region == Codes(xs, nlist)
  {
    assert xs[0..] == xs && region[0..] == region;
  }

  lemma SpliceWider(s: seq<Byte>, at: nat, x: seq<Byte>, len: nat)
    requires |x| <= len && at + len <= |s|
    ensures Splice(s, at, x) == Splice(s, at, x + s[at + |x|..at + len])
  {
  }

  lemma BlockSizes(xs: seq<Item>, nlist: nat, size1: nat, size2: nat)
    requires GoodItems(xs, nlist, size1, size2)
    ensures nlist > 0 && |Codes(xs, nlist)| == |xs| * (size1 + size2) && |Packed(xs)| <= |Codes(xs, nlist)|
  {
    Places(|xs|, size1, size2);
    CodesLength(xs, nlist, size1, size2);
    PackedLength(xs, size2);
  }

  /** Encodes a block: residual codes packed first, then expanded from the last one backwards. */
  method EncodeBlock(xs: seq<Item>, nlist: nat, size1: nat, size2: nat, bytes: array<Byte>, o: nat)
    requires GoodItems(xs, nlist, size1, size2) && o + |Codes(xs, nlist)| <= bytes.Length
    modifies bytes
    ensures bytes[..] == Splice(old(bytes[..]), o, Codes(xs, nlist))
  {
    hide *;
    BlockSizes(xs, nlist, size1, size2);
    ghost var before, len := bytes[..], |Codes(xs, nlist)|;
    ComputeCodes(xs, bytes, o);
    ghost var rest := before[o + |Packed(xs)|..o + len];
    SpliceWider(before, o, Packed(xs), len);
    AllPacked(rest, xs, nlist, size1, size2);
    ghost var region := Packed(xs) + rest;
    var i: nat := |xs|;
    while i > 0
      invariant i <= |xs| && Expanding(region, xs, nlist, size1, size2, i)
      invariant |region| == len && bytes[..] == Splice(before, o, region)
    {
      i := i - 1;
      region := ExpandAt(xs, nlist, size1, size2, bytes, o, i, before, region);
    }
    AllExpanded(region, xs, nlist, size1, size2);
  }

  /** The whole encoder: in blocks of bs vectors when there are more. Either way the output is the code of
      every vector in turn, and nothing else is written. */
  method SaEncode(xs: seq<Item>, nlist: nat, size1: nat, size2: nat, bs: nat, bytes: array<Byte>, o: nat)
    requires GoodItems(xs, nlist, size1, size2) && bs > 0 && o + |Codes(xs, nlist)| <= bytes.Length
    modifies bytes
    ensures bytes[..] == Splice(old(bytes[..]), o, Codes(xs, nlist))
  {
    hide *;
    ListSize(xs, nlist, size1, size2);
    var n, size := |xs|, size1 + size2;
    if n <= bs {
      EncodeBlock(xs, nlist, size1, size2, bytes, o);
      return;
    }
    ghost var before := bytes[..];
    var i0: nat := 0;
    NothingEncoded(xs, nlist, before, o);
    while i0 < n
      invariant i0 <= n && o + |Codes(xs[..i0], nlist)| <= bytes.Length
      invariant bytes[..] == Splice(before, o, Codes(xs[..i0], nlist))
    {
      var i1 := if i0 + bs < n then i0 + bs else n;
      BlockCodes(xs, nlist, size1, size2, i0, i1);
      EncodeBlock(xs[i0..i1], nlist, size1, size2, bytes, o + i0 * size);
      SpliceBehind(before, o, Codes(xs[..i0], nlist), Codes(xs[i0..i1], nlist));
      i0 := i1;
    }
    assert xs[..n] == xs;
  }

  lemma NothingEncoded(xs: seq<Item>, nlist: nat, s: seq<Byte>, o: nat)
    requires nlist > 0 && o <= |s|
    ensures Codes(xs[..0], nlist) == [] && Splice(s, o, []) == s
  {
  }

  lemma PartsAreGood(xs: seq<Item>, nlist: nat, size1: nat, size2: nat, i0: nat, i1: nat)
    requires GoodItems(xs, nlist, size1, size2) && i0 <= i1 <= |xs|
    ensures GoodItems(xs[i0..i1], nlist, size1, size2) && GoodItems(xs[..i0], nlist, size1, size2)
  {
  }

  lemma BlockCodes(xs: seq<Item>, nlist: nat, size1: nat, size2: nat, i0: nat, i1: nat)
    requires GoodItems(xs, nlist, size1, size2) && i0 <= i1 <= |xs|
    ensures nlist > 0 && GoodItems(xs[i0..i1], nlist, size1, size2)
    ensures |Codes(xs[..i0], nlist)| == i0 * (size1 + size2)
    ensures Codes(xs[..i1], nlist) == Codes(xs[..i0], nlist) + Codes(xs[i0..i1], nlist)
    ensures |Codes(xs[..i1], nlist)| <= |Codes(xs, nlist)|
  {
    hide *;
    ListSize(xs, nlist, size1, size2);
    PartsAreGood(xs, nlist, size1, size2, i0, i1);
    CodesLength(xs[..i0], nlist, size1, size2);
    CodesConcat(xs[..i0], xs[i0..i1], nlist);
    assert xs[..i0] + xs[i0..i1] == xs[..i1];
    CodesConcat(xs[..i1], xs[i1..], nlist);
    assert xs[..i1] + xs[i1..] == xs;
  }

  // The other users of the codes.

  datatype Posting = Posting(id: nat, pq: seq<Byte>)

  /** The vectors of list l among the first n, in order. */
  function Postings(xs: seq<Item>, n: nat, l: nat): seq<Posting>
    requires n <= |xs|
  {
    if n == 0 then []
    else Postings(xs, n - 1, l) + if xs[n - 1].listNo == l then [Posting(n - 1, xs[n - 1].pq)] else []
  }

  /** transfer_to_IVFPQ: a pointer walks over the codes, and every vector ends up in its list with its
      number and its residual code. Refused unless the other index has as many lists, the same code size,
      and is empty. */
  method TransferToIvf(codes: seq<Byte>, ntotal: nat, nlist: nat, size1: nat, size2: nat, otherNlist: nat,
                       otherCodeSize: nat, otherTotal: nat, ghost xs: seq<Item>)
    returns (ok: bool, lists: seq<seq<Posting>>)
    requires GoodItems(xs, nlist, size1, size2) && ntotal == |xs| && codes == Codes(xs, nlist)
    ensures ok <==> otherNlist == nlist && otherCodeSize == size2 && otherTotal == 0
    ensures ok ==> |lists| == nlist && forall l :: 0 <= l < nlist ==> lists[l] == Postings(xs, ntotal, l)
  {
    ok, lists := otherNlist == nlist && otherCodeSize == size2 && otherTotal == 0, [];
    if !ok {
      return;
    }
    lists := seq(nlist, _ => []);
    var rp := 0;
    for i := 0 to ntotal
      invariant rp == i * (size1 + size2) && |lists| == nlist
      invariant forall l :: 0 <= l < nlist ==> lists[l] == Postings(xs, i, l)
    {
      hide *;
      PartsAt(xs, nlist, size1, size2, i, rp);
      PostingsStep(xs, i);
      var key := Value(codes[rp..rp + size1]);
      rp := rp + size1;
      lists := lists[key := lists[key] + [Posting(i, codes[rp..rp + size2])]];
      rp := rp + size2;
    }
  }

  lemma PostingsStep(xs: seq<Item>, i: nat)
    requires i < |xs|
    ensures forall l: nat ::
      Postings(xs, i + 1, l) == Postings(xs, i, l) + if xs[i].listNo == l then [Posting(i, xs[i].pq)] else []
  {
  }

  /** Both parts of the code at rp, and where the next code starts. */
  lemma PartsAt(xs: seq<Item>, nlist: nat, size1: nat, size2: nat, i: nat, rp: int)
    requires GoodItems(xs, nlist, size1, size2) && i < |xs| && rp == i * (size1 + size2)
    ensures nlist > 0 && xs[i].listNo < nlist && size1 == ByteCount(nlist - 1)
    ensures 0 <= rp && rp + size1 + size2 == (i + 1) * (size1 + size2) <= |Codes(xs, nlist)|
    ensures Value(Codes(xs, nlist)[rp..rp + size1]) == xs[i].listNo
    ensures Codes(xs, nlist)[rp + size1..rp + size1 + size2] == xs[i].pq
  {
    CodeAt(xs, nlist, size1, size2, i);
    Distribute(i, 1, size1 + size2);
    ItemIsGood(xs, nlist, size1, size2, i);
    CodeRoundTrip(xs[i], nlist, size1, size2);
    ListSize(xs, nlist, size1, size2);
    var codes := Codes(xs, nlist);
    hide *;
    var code := codes[rp..rp + (size1 + size2)];
    assert codes[rp..rp + size1] == code[..size1];
    assert codes[rp + size1..rp + size1 + size2] == code[size1..];
  }

  lemma ItemIsGood(xs: seq<Item>, nlist: nat, size1: nat, size2: nat, i: nat)
    requires GoodItems(xs, nlist, size1, size2) && i < |xs|
    ensures GoodItems([xs[i]], nlist, size1, size2) && xs[i].listNo < nlist
  {
  }

  /** The two parts of the codes in a sequence of bytes. */
  function ItemsOf(bytes: seq<Byte>, n: nat, size1: nat, size2: nat): (items: seq<Item>)
    requires n * (size1 + size2) <= |bytes|
    ensures |items| == n
  {
    if n == 0 then []
    else
      var p := (n - 1) * (size1 + size2);
      Places(n - 1, size1, size2);
      ItemsOf(bytes, n - 1, size1, size2) + [Item(Value(bytes[p..p + size1]), bytes[p + size1..p + size1 + size2])]
  }

  lemma NextItem(bytes: seq<Byte>, i: nat, n: nat, size1: nat, size2: nat)
    requires i < n && n * (size1 + size2) <= |bytes|
    ensures var p := i * (size1 + size2);
      && 0 <= p <= p + size1 <= p + size1 + size2 <= |bytes| && (i + 1) * (size1 + size2) <= |bytes|
      && ItemsOf(bytes, i + 1, size1, size2) ==
         ItemsOf(bytes, i, size1, size2) + [Item(Value(bytes[p..p + size1]), bytes[p + size1..p + size1 + size2])]
  {
    Places(i, size1, size2);
    Distribute(i + 1, n - i - 1, size1 + size2);
    assert (n - i - 1) * (size1 + size2) >= 0;
  }

  lemma NothingRead(bytes: seq<Byte>, size1: nat, size2: nat)
    ensures ItemsOf(bytes, 0, size1, size2) == []
  {
  }

  lemma {:induction false} ItemsOfPrefix(xs: seq<Item>, nlist: nat, size1: nat, size2: nat, n: nat)
    requires GoodItems(xs, nlist, size1, size2) && n <= |xs|
    ensures nlist > 0 && n * (size1 + size2) <= |Codes(xs, nlist)|
    ensures ItemsOf(Codes(xs, nlist), n, size1, size2) == xs[..n]
  {
    hide *;
    ListSize(xs, nlist, size1, size2);
    if n == 0 {
      NothingRead(Codes(xs, nlist), size1, size2);
    } else {
      var i: nat := n - 1;
      ItemsOfPrefix(xs, nlist, size1, size2, i);
      PartsAt(xs, nlist, size1, size2, i, i * (size1 + size2));
      NextItem(Codes(xs, nlist), i, n, size1, size2);
      assert xs[..n] == xs[..i] + [xs[i]];
    }
  }

  /** Reading back what was encoded gives the list numbers and residual codes of all vectors. */
  lemma ItemsOfCodes(xs: seq<Item>, nlist: nat, size1: nat, size2: nat)
    requires GoodItems(xs, nlist, size1, size2)
    ensures |xs| * (size1 + size2) == |Codes(xs, nlist)| && ItemsOf(Codes(xs, nlist), |xs|, size1, size2) == xs
    ensures InLists(xs, nlist)
  {
    CodesLength(xs, nlist, size1, size2);
    ItemsOfPrefix(xs, nlist, size1, size2, |xs|);
    assert xs[..|xs|] == xs;
  }

  predicate InLists(items: seq<Item>, nlist: nat) {
    forall i :: 0 <= i < |items| ==> items[i].listNo < nlist
  }

  /** The two quantizers as decoders: the centroid of a list, and the residual that a code stands for. */
  datatype Decoders = Decoders(d: nat, centroid: nat -> seq<real>, residual: seq<Byte> -> seq<real>)

  ghost predicate GoodDecoders(q: Decoders) {
    (forall l: nat :: |q.centroid(l)| == q.d) && forall c: seq<Byte> :: |q.residual(c)| == q.d
  }

  /** Component by component. */
  function Plus(a: seq<real>, b: seq<real>): (r: seq<real>)
    requires |a| == |b|
    ensures |r| == |a| && forall j :: 0 <= j < |r| ==> r[j] == a[j] + b[j]
  {
    seq(|a|, j requires 0 <= j < |a| => a[j] + b[j])
  }

  /** The vectors that the items stand for, one after the other. */
  ghost function Decoded(items: seq<Item>, q: Decoders): (x: seq<real>)
    requires GoodDecoders(q)
    ensures |x| == |items| * q.d
  {
    if items == [] then []
    else
      var n := |items| - 1;
      Distribute(n, 1, q.d);
      Decoded(items[..n], q) + Plus(q.residual(items[n].pq), q.centroid(items[n].listNo))
  }

  lemma DecodedSnoc(items: seq<Item>, it: Item, q: Decoders)
    requires GoodDecoders(q)
    ensures |q.residual(it.pq)| == |q.centroid(it.listNo)| == q.d
    ensures Decoded(items + [it], q) == Decoded(items, q) + Plus(q.residual(it.pq), q.centroid(it.listNo))
  {
    assert (items + [it])[..|items|] == items;
  }

  /** The residual is written to its place and the centroid added to it. */
  method AddCentroid(x: array<real>, o: nat, residual: seq<real>, centroid: seq<real>)
    requires |residual| == |centroid| && o + |residual| <= x.Length
    modifies x
    ensures x[..o] == old(x[..o]) && x[o..o + |residual|] == Plus(residual, centroid)
  {
    for j := 0 to |residual|
      invariant x[..o] == old(x[..o]) && x[o..o + j] == residual[..j]
    {
      x[o + j] := residual[j];
    }
    for j := 0 to |residual|
      invariant x[..o] == old(x[..o])
      invariant forall m :: 0 <= m < |residual| ==> x[o + m] == if m < j then residual[m] + centroid[m] else residual[m]
    {
      x[o + j] := x[o + j] + centroid[j];
    }
  }

  lemma {:induction false} ItemsGrow(bytes: seq<Byte>, i: nat, n: nat, size1: nat, size2: nat)
    requires i <= n && n * (size1 + size2) <= |bytes|
    ensures i * (size1 + size2) <= |bytes|
    ensures ItemsOf(bytes, i, size1, size2) == ItemsOf(bytes, n, size1, size2)[..i]
    decreases n - i
  {
    if i < n {
      NextItem(bytes, i, n, size1, size2);
      ItemsGrow(bytes, i + 1, n, size1, size2);
    }
  }

  lemma PlaceOfVector(i: nat, n: nat, d: nat)
    requires i < n
    ensures 0 <= i * d && i * d + d == (i + 1) * d <= n * d
  {
    Distribute(i, 1, d);
    Distribute(i + 1, n - i - 1, d);
    assert (n - i - 1) * d >= 0;
  }

  lemma NothingDecoded(bytes: seq<Byte>, n: nat, size1: nat, size2: nat, nlist: nat, q: Decoders)
    requires GoodDecoders(q) && n * (size1 + size2) <= |bytes|
    ensures ItemsOf(bytes, 0, size1, size2) == [] && Decoded([], q) == [] && InLists([], nlist)
  {
  }

  lemma FailsAt(bytes: seq<Byte>, i: nat, n: nat, size1: nat, size2: nat, nlist: nat, it: Item)
    requires i < n && n * (size1 + size2) <= |bytes| && (i + 1) * (size1 + size2) <= |bytes|
    requires ItemsOf(bytes, i + 1, size1, size2) == ItemsOf(bytes, i, size1, size2) + [it]
    ensures !(it.listNo < nlist) ==> !InLists(ItemsOf(bytes, n, size1, size2), nlist)
    ensures it.listNo < nlist && InLists(ItemsOf(bytes, i, size1, size2), nlist) ==>
      InLists(ItemsOf(bytes, i + 1, size1, size2), nlist)
  {
    ItemsGrow(bytes, i + 1, n, size1, size2);
    hide ItemsOf;
    var all := ItemsOf(bytes, n, size1, size2);
    assert all[..i + 1][i] == it && all[i] == it;
  }

  /** sa_decode: every code gives the sum of the centroid of its list and its residual. It throws exactly when
      some list number is out of range. */
  method SaDecode(bytes: seq<Byte>, n: nat, nlist: nat, size1: nat, size2: nat, q: Decoders, x: array<real>)
    returns (ok: bool)
    requires nlist > 0 && size1 == ByteCount(nlist - 1) && n * (size1 + size2) <= |bytes|
    requires GoodDecoders(q) && n * q.d <= x.Length
    modifies x
    ensures ok <==> InLists(ItemsOf(bytes, n, size1, size2), nlist)
    ensures ok ==> n * q.d <= x.Length && x[..n * q.d] == Decoded(ItemsOf(bytes, n, size1, size2), q)
  {
    hide *;
    NothingDecoded(bytes, n, size1, size2, nlist, q);
    var o, p := 0, 0;
    for i := 0 to n
      invariant 0 <= i * (size1 + size2) == p <= |bytes| && 0 <= i * q.d == o <= x.Length
      invariant InLists(ItemsOf(bytes, i, size1, size2), nlist)
      invariant x[..o] == Decoded(ItemsOf(bytes, i, size1, size2), q)
    {
      NextItem(bytes, i, n, size1, size2);
      PlaceOfVector(i, n, q.d);
      PlaceOfVector(i, n, size1 + size2);
      ghost var it := Item(Value(bytes[p..p + size1]), bytes[p + size1..p + size1 + size2]);
      FailsAt(bytes, i, n, size1, size2, nlist, it);
      DecodedSnoc(ItemsOf(bytes, i, size1, size2), it, q);
      var inRange, listNo := DecodeListNo(bytes[p..p + size1], nlist);
      if !inRange {
        return false;
      }
      AddCentroid(x, o, q.residual(bytes[p + size1..p + size1 + size2]), q.centroid(listNo));
      assert x[..o + q.d] == x[..o] + x[o..o + q.d];
      o, p := o + q.d, p + size1 + size2;
    }
    ok := true;
  }

  lemma ListSize(xs: seq<Item>, nlist: nat, size1: nat, size2: nat)
    requires GoodItems(xs, nlist, size1, size2)
    ensures nlist > 0 && size1 == ByteCount(nlist - 1)
  {
  }
}
