/** Byte order conversion in place (lib/h2endian.c). Memory is an array of bytes. */
module ByteSwap {
  import opened Declarations

  type Byte = bv8

  /** The C types the element functions work on. */
  datatype Width = ShortInt | Int | LongLong {
    function Size(): nat {
      match this
      case ShortInt => 2
      case Int => 4
      case LongLong => 8
    }
  }

  // ----- what a swap is

  function Mirror(s: seq<Byte>): seq<Byte> {
    seq(|s|, i requires 0 <= i < |s| => s[|s| - 1 - i])
  }

  /** Does an element of w bytes begin, or the array of elements end, at this position? */
  predicate Aligned(at: nat, w: nat)
    requires w > 0
    decreases at
  {
    at == 0 || (at >= w && Aligned(at - w, w))
  }

  lemma {:induction false} MultipleAligned(e: nat, w: nat)
    requires w > 0
    ensures 0 <= e * w && Aligned(e * w, w)
  {
    if e > 0 {
      MultipleAligned(e - 1, w);
      assert e * w == (e - 1) * w + w;
    }
  }

  /** The position opposite to i in its element. */
  function Opposite(i: nat, w: nat): nat
    requires w > 0
  {
    if i < w then w - 1 - i else w + Opposite(i - w, w)
  }

  lemma {:induction false} OppositeBounds(i: nat, w: nat, size: nat)
    requires w > 0 && Aligned(size, w) && i < size
    ensures Opposite(i, w) < size && Opposite(Opposite(i, w), w) == i
    decreases i
  {
    if i >= w {
      OppositeBounds(i - w, w, size - w);
    }
  }

  lemma {:induction false} OppositeAt(at: nat, w: nat, k: nat)
    requires w > 0 && Aligned(at, w) && k < w
    ensures Opposite(at + k, w) == at + w - 1 - k
    decreases at
  {
    if at > 0 {
      OppositeAt(at - w, w, k);
      assert Opposite(at + k, w) == w + Opposite(at - w + k, w);
    }
  }

  /** The elements of w bytes in the first `size` bytes mirrored, the rest as it is. */
  function MirrorElements(m: seq<Byte>, w: nat, size: nat): (r: seq<Byte>)
    requires w > 0 && Aligned(size, w) && size <= |m|
    ensures |r| == |m|
  {
    seq(|m|, i requires 0 <= i < |m| =>
      if i < size then (OppositeBounds(i, w, size); m[Opposite(i, w)]) else m[i])
  }

  lemma MirrorTwice(s: seq<Byte>)
    ensures Mirror(Mirror(s)) == s
  {
  }

  /** Swapping the same elements twice is the identity. */
  lemma SwapTwice(m: seq<Byte>, w: nat, size: nat)
    requires w > 0 && Aligned(size, w) && size <= |m|
    ensures MirrorElements(MirrorElements(m, w, size), w, size) == m
  {
    var r := MirrorElements(m, w, size);
    forall i | 0 <= i < |m| ensures MirrorElements(r, w, size)[i] == m[i] {
      if i < size {
        OppositeBounds(i, w, size);
      }
    }
  }

  /** Every element in the first `size` bytes is mirrored; nothing beyond them is touched. */
  lemma EachElement(m: seq<Byte>, w: nat, size: nat, at: nat)
    requires w > 0 && Aligned(size, w) && size <= |m| && Aligned(at, w) && at + w <= size
    ensures MirrorElements(m, w, size)[at..at + w] == Mirror(m[at..at + w])
    ensures MirrorElements(m, w, size)[size..] == m[size..]
  {
    var mine, mirrored := MirrorElements(m, w, size)[at..at + w], Mirror(m[at..at + w]);
    forall k | 0 <= k < w ensures mine[k] == mirrored[k] {
      MirroredByte(m, w, size, at, k);
    }
    TailStays(m, w, size);
  }

  lemma MirroredByte(m: seq<Byte>, w: nat, size: nat, at: nat, k: nat)
    requires w > 0 && Aligned(size, w) && size <= |m| && Aligned(at, w) && at + w <= size && k < w
    ensures MirrorElements(m, w, size)[at + k] == m[at + w - 1 - k]
  {
    OppositeAt(at, w, k);
  }

  lemma TailStays(m: seq<Byte>, w: nat, size: nat)
    requires w > 0 && Aligned(size, w) && size <= |m|
    ensures MirrorElements(m, w, size)[size..] == m[size..]
  {
  }

  /** Element e of n begins at a multiple of its size and lies within the array. */
  lemma ElementPositions(e: nat, n: nat, w: nat)
    requires w > 0 && e < n
    ensures 0 <= e * w && Aligned(e * w, w) && e * w + w <= n * w
  {
    MultipleAligned(e, w);
    Within(e, n, w);
  }

  lemma Within(e: nat, n: nat, w: nat)
    requires e < n
    ensures 0 <= e * w && (e + 1) * w == e * w + w <= n * w
  {
  }

  // ----- integers and their bytes in memory

  /** The integers the element functions assemble, first byte highest. */
  function Word16(a: Byte, b: Byte): bv16 {
    ((a as bv16) << 8) | (b as bv16)
  }

  function Word32(a: Byte, b: Byte, c: Byte, d: Byte): bv32 {
    ((a as bv32) << 24) | ((b as bv32) << 16) | ((c as bv32) << 8) | (d as bv32)
  }

  function Word64(a: Byte, b: Byte, c: Byte, d: Byte, e: Byte, f: Byte, g: Byte, h: Byte): bv64 {
    ((a as bv64) << 56) | ((b as bv64) << 48) | ((c as bv64) << 40) | ((d as bv64) << 32)
    | ((e as bv64) << 24) | ((f as bv64) << 16) | ((g as bv64) << 8) | (h as bv64)
  }

  /** The bytes of an integer, lowest first. */
  function Bytes16(x: bv16): seq<Byte> {
    [(x & 0xff) as Byte, ((x >> 8) & 0xff) as Byte]
  }

  function Bytes32(x: bv32): seq<Byte> {
    [(x & 0xff) as Byte, ((x >> 8) & 0xff) as Byte, ((x >> 16) & 0xff) as Byte, ((x >> 24) & 0xff) as Byte]
  }

  function Bytes64(x: bv64): seq<Byte> {
    [(x & 0xff) as Byte, ((x >> 8) & 0xff) as Byte, ((x >> 16) & 0xff) as Byte, ((x >> 24) & 0xff) as Byte,
     ((x >> 32) & 0xff) as Byte, ((x >> 40) & 0xff) as Byte, ((x >> 48) & 0xff) as Byte, ((x >> 56) & 0xff) as Byte]
  }

  /** How a host of either byte order lays them out in memory. */
  function Stored(lowFirst: seq<Byte>, littleHost: bool): seq<Byte> {
    if littleHost then lowFirst else Mirror(lowFirst)
  }

  lemma WordBytes16(a: Byte, b: Byte)
    ensures Bytes16(Word16(a, b)) == [b, a]
  {
  }

  lemma WordBytes32(a: Byte, b: Byte, c: Byte, d: Byte)
    ensures Bytes32(Word32(a, b, c, d)) == [d, c, b, a]
  {
  }

  lemma WordBytes64(a: Byte, b: Byte, c: Byte, d: Byte, e: Byte, f: Byte, g: Byte, h: Byte)
    ensures Bytes64(Word64(a, b, c, d, e, f, g, h)) == [h, g, f, e, d, c, b, a]
  {
  }

  /** A little-endian host keeps the lowest byte of an integer first, the other one last. */
  lemma HostOrder(x: bv32)
    ensures Stored(Bytes32(x), true)[0] == (x & 0xff) as Byte && Stored(Bytes32(x), true)[3] == (x >> 24) as Byte
    ensures Stored(Bytes32(x), false)[3] == (x & 0xff) as Byte && Stored(Bytes32(x), false)[0] == (x >> 24) as Byte
  {
  }

  // ----- the functions

  /** What an element function makes of the bytes of an element: it was compiled for a host of one
      byte order (the LITTLE_ENDIAN macro) and runs on a host of one. */
  function Swapped(bytes: seq<Byte>, littleMacro: bool, littleHost: bool): seq<Byte> {
    if littleMacro == littleHost then Mirror(bytes) else bytes
  }

  /** Memory m with the given bytes from position `at` on. */
  function Patched(m: seq<Byte>, at: nat, bytes: seq<Byte>): (r: seq<Byte>)
    requires at + |bytes| <= |m|
    ensures |r| == |m|
  {
    m[..at] + bytes + m[at + |bytes|..]
  }

  method Store(a: array<Byte>, at: nat, bytes: seq<Byte>)
    requires at + |bytes| <= a.Length
    modifies a
    ensures a[..] == Patched(old(a[..]), at, bytes)
  {
    forall k | 0 <= k < |bytes| {
      a[at + k] := bytes[k];
    }
  }

  method SwapShortElt(a: array<Byte>, at: nat, littleMacro: bool, littleHost: bool)
    requires at + 2 <= a.Length
    modifies a
    ensures a[..] == Patched(old(a[..]), at, Swapped(old(a[at..at+2]), littleMacro, littleHost))
  {
    ghost var c := a[at..at+2];
    var res := if littleMacro then Word16(a[at], a[at+1]) else Word16(a[at+1], a[at]);
    WordBytes16(a[at], a[at+1]);
    WordBytes16(a[at+1], a[at]);
    Laid(c, Bytes16(res), littleMacro, littleHost);
    Store(a, at, Stored(Bytes16(res), littleHost));
  }

  method SwapIntElt(a: array<Byte>, at: nat, littleMacro: bool, littleHost: bool)
    requires at + 4 <= a.Length
    modifies a
    ensures a[..] == Patched(old(a[..]), at, Swapped(old(a[at..at+4]), littleMacro, littleHost))
  {
    ghost var c := a[at..at+4];
    var res := if littleMacro then Word32(a[at], a[at+1], a[at+2], a[at+3])
               else Word32(a[at+3], a[at+2], a[at+1], a[at]);
    WordBytes32(a[at], a[at+1], a[at+2], a[at+3]);
    WordBytes32(a[at+3], a[at+2], a[at+1], a[at]);
    Laid(c, Bytes32(res), littleMacro, littleHost);
    Store(a, at, Stored(Bytes32(res), littleHost));
  }

  method SwapLongLongElt(a: array<Byte>, at: nat, littleMacro: bool, littleHost: bool)
    requires at + 8 <= a.Length
    modifies a
    ensures a[..] == Patched(old(a[..]), at, Swapped(old(a[at..at+8]), littleMacro, littleHost))
  {
    ghost var c := a[at..at+8];
    var res :=
      if littleMacro then Word64(a[at], a[at+1], a[at+2], a[at+3], a[at+4], a[at+5], a[at+6], a[at+7])
      else Word64(a[at+7], a[at+6], a[at+5], a[at+4], a[at+3], a[at+2], a[at+1], a[at]);
    WordBytes64(a[at], a[at+1], a[at+2], a[at+3], a[at+4], a[at+5], a[at+6], a[at+7]);
    WordBytes64(a[at+7], a[at+6], a[at+5], a[at+4], a[at+3], a[at+2], a[at+1], a[at]);
    Laid(c, Bytes64(res), littleMacro, littleHost);
    Store(a, at, Stored(Bytes64(res), littleHost));
  }

  /** An integer assembled from c, in the order the macro chooses, goes back to memory mirrored iff
      macro and host agree. */
  lemma Laid(c: seq<Byte>, lowFirst: seq<Byte>, littleMacro: bool, littleHost: bool)
    requires |lowFirst| == |c|
    requires if littleMacro then lowFirst == Mirror(c) else lowFirst == c
    ensures Stored(lowFirst, littleHost) == Swapped(c, littleMacro, littleHost)
  {
    MirrorTwice(c);
  }

  /** How many elements FOR_EACH_elt visits. */
  function Count(dims: seq<int>): nat {
    if Product(dims) > 0 then Product(dims) else 0
  }

  /** An array with positive dimensions is swapped as a whole. */
  lemma CountMeans(dims: seq<int>)
    requires forall k :: 0 <= k < |dims| ==> dims[k] > 0
    ensures Count(dims) == Product(dims) > 0
  {
    ProductPositive(dims);
  }

  method SwapElt(a: array<Byte>, at: nat, width: Width, littleMacro: bool, littleHost: bool)
    requires at + width.Size() <= a.Length
    modifies a
    ensures a[..] == Patched(old(a[..]), at, Swapped(old(a[at..at+width.Size()]), littleMacro, littleHost))
  {
    match width {
      case ShortInt => SwapShortElt(a, at, littleMacro, littleHost);
      case Int => SwapIntElt(a, at, littleMacro, littleHost);
      case LongLong => SwapLongLongElt(a, at, littleMacro, littleHost);
    }
  }

  /** Memory after the elements in its first `size` bytes have been swapped. */
  function AfterSwaps(m: seq<Byte>, w: nat, size: nat, littleMacro: bool, littleHost: bool): (r: seq<Byte>)
    requires w > 0 && Aligned(size, w) && size <= |m|
    ensures |r| == |m|
  {
    if littleMacro == littleHost then MirrorElements(m, w, size) else m
  }

  /** Whatever the host: compiled for it, the swap mirrors the elements; compiled for the other one, it does
      nothing. */
  lemma SwapsOrNot(m: seq<Byte>, w: nat, size: nat, littleHost: bool)
    requires w > 0 && Aligned(size, w) && size <= |m|
    ensures AfterSwaps(m, w, size, littleHost, littleHost) == MirrorElements(m, w, size)
    ensures AfterSwaps(m, w, size, !littleHost, littleHost) == m
  {
  }

  /** One element more. */
  lemma NextSwap(m: seq<Byte>, w: nat, at: nat, littleMacro: bool, littleHost: bool)
    requires w > 0 && Aligned(at, w) && at + w <= |m|
    ensures Aligned(at + w, w)
    ensures var here := AfterSwaps(m, w, at, littleMacro, littleHost);
            AfterSwaps(m, w, at + w, littleMacro, littleHost)
              == Patched(here, at, Swapped(here[at..at + w], littleMacro, littleHost))
  {
    var here := AfterSwaps(m, w, at, littleMacro, littleHost);
    var next := AfterSwaps(m, w, at + w, littleMacro, littleHost);
    var patched := Patched(here, at, Swapped(here[at..at + w], littleMacro, littleHost));
    forall i | 0 <= i < |m| ensures next[i] == patched[i] {
      if at <= i < at + w {
        OppositeAt(at, w, i - at);
      }
    }
  }

  /** The swap of a whole array: compiled for the byte order it runs on, it mirrors exactly the
      elements of the array; compiled for the other one, it changes nothing. */
  method SwapArray(a: array<Byte>, width: Width, dims: seq<int>, littleMacro: bool, littleHost: bool)
    requires Count(dims) * width.Size() <= a.Length
    modifies a
    ensures Aligned(Count(dims) * width.Size(), width.Size())
    ensures a[..] == AfterSwaps(old(a[..]), width.Size(), Count(dims) * width.Size(), littleMacro, littleHost)
  {
    var nElts := CountElements(dims);
    var elt := 0;
    while elt < nElts
      invariant elt <= Count(dims) && SwappedUpTo(a, old(a[..]), width, elt, littleMacro, littleHost)
    {
      Within(elt, Count(dims), width.Size());
      SwapNext(a, width, elt, littleMacro, littleHost, old(a[..]));
      elt := elt + 1;
    }
  }

  /** The first e elements have been swapped. */
  ghost predicate SwappedUpTo(a: array<Byte>, m: seq<Byte>, width: Width, e: nat, littleMacro: bool, littleHost: bool)
    reads a
  {
    SwappedBelow(a, m, width.Size(), e * width.Size(), littleMacro, littleHost)
  }

  /** The elements below this position have been swapped. */
  ghost predicate SwappedBelow(a: array<Byte>, m: seq<Byte>, w: nat, at: int, littleMacro: bool, littleHost: bool)
    reads a
  {
    && w > 0 && 0 <= at <= |m| == a.Length && Aligned(at, w)
    && a[..] == AfterSwaps(m, w, at, littleMacro, littleHost)
  }

  method SwapNext(a: array<Byte>, width: Width, elt: nat, littleMacro: bool, littleHost: bool, ghost m: seq<Byte>)
    requires SwappedUpTo(a, m, width, elt, littleMacro, littleHost) && (elt + 1) * width.Size() <= a.Length
    modifies a
    ensures SwappedUpTo(a, m, width, elt + 1, littleMacro, littleHost)
  {
    Within(elt, elt + 1, width.Size());
    SwapAt(a, width, elt * width.Size(), littleMacro, littleHost, m);
  }

  method SwapAt(a: array<Byte>, width: Width, at: nat, littleMacro: bool, littleHost: bool, ghost m: seq<Byte>)
    requires SwappedBelow(a, m, width.Size(), at, littleMacro, littleHost) && at + width.Size() <= a.Length
    modifies a
    ensures SwappedBelow(a, m, width.Size(), at + width.Size(), littleMacro, littleHost)
  {
    NextSwap(m, width.Size(), at, littleMacro, littleHost);
    SwapElt(a, at, width, littleMacro, littleHost);
  }

  /** endianswap_buffer: two pointers towards each other; the same mirror as the element functions. */
  method SwapBuffer(buf: array<Byte>, bufsize: nat)
    requires bufsize <= buf.Length
    modifies buf
    ensures buf[..] == Patched(old(buf[..]), 0, Mirror(old(buf[..bufsize])))
  {
    var bs, be := 0, bufsize - 1;
    while bs < be
      invariant 0 <= bs <= bufsize && be == bufsize - 1 - bs && bs <= be + 2
      invariant forall k :: 0 <= k < bs ==> buf[k] == old(buf[bufsize - 1 - k]) && buf[bufsize - 1 - k] == old(buf[k])
      invariant forall k :: bs <= k <= be ==> buf[k] == old(buf[k])
      invariant forall k :: bufsize <= k < buf.Length ==> buf[k] == old(buf[k])
    {
      buf[be], buf[bs] := buf[bs], buf[be];
      bs, be := bs + 1, be - 1;
    }
    ghost var was := old(buf[..]);
    assert was[..bufsize] == old(buf[..bufsize]);
    forall k | 0 <= k < buf.Length ensures buf[k] == Patched(was, 0, Mirror(was[..bufsize]))[k] {
      if k < bufsize {
        assert buf[k] == was[bufsize - 1 - k];
      }
    }
  }
}
