/** Tile and Untile, in place on byte buffers (varianta/runtime/rex_texture.h:84-103). */
module Surfaces {
  import opened Words
  import opened Tiling

  /** Where block (x, y) starts in a buffer. */
  type Layout = (u32, u32) -> nat

  /** The layout of the GPU. */
  function Xenos(w: u32, p: u32): Layout {
    (x: u32, y: u32) => TiledByte(x, y, w, p)
  }

  /** Byte k of block (x, y) in row-major order. */
  function LinAt(x: nat, y: nat, k: nat, w: nat, p: nat): nat {
    (y * w + x) * p + k
  }

  /** Bytes of the row-major surface. */
  function LinSize(w: nat, h: nat, p: nat): nat {
    h * w * p
  }

  /** Every block of the surface lies inside a buffer of len bytes. */
  ghost predicate Covers(len: nat, at: Layout, w: u32, h: u32, p: u32) {
    forall x: u32, y: u32 :: x < w && y < h ==> at(x, y) + p <= len
  }

  /** No two blocks of the surface overlap. */
  ghost predicate Apart(at: Layout, w: u32, h: u32, p: u32) {
    forall x: u32, y: u32, x': u32, y': u32 :: x < w && y < h && x' < w && y' < h && (x != x' || y != y') ==>
      at(x, y) + p <= at(x', y') || at(x', y') + p <= at(x, y)
  }

  /** Row-major order of blocks. */
  predicate Before(x': nat, y': nat, x: nat, y: nat) {
    y' < y || (y' == y && x' < x)
  }

  /** The blocks before (x, y) are the same in the row-major surface `lin` and in `tiled`. */
  ghost predicate TiledUpTo(lin: seq<byte>, tiled: seq<byte>, at: Layout, x: nat, y: nat, w: u32, h: u32, p: u32) {
    forall x': u32, y': u32, k: nat :: x' < w && y' < h && k < p && Before(x', y', x, y) ==>
      LinAt(x', y', k, w, p) < |lin| && at(x', y') + p <= |tiled|
      && tiled[at(x', y') + k] == lin[LinAt(x', y', k, w, p)]
  }

  /** `tiled` holds every block of the row-major surface `lin` at its place in the layout. */
  ghost predicate IsTiling(lin: seq<byte>, tiled: seq<byte>, at: Layout, w: u32, h: u32, p: u32) {
    TiledUpTo(lin, tiled, at, 0, h, w, h, p)
  }

  // ---- row-major offsets -------------------------------------------------------------------------

  lemma LinInside(x: nat, y: nat, w: nat, h: nat, p: nat)
    requires x < w && y < h
    ensures LinAt(x, y, 0, w, p) + p <= h * w * p
  {
    MulLe(y + 1, h, w);
    assert (y + 1) * w == y * w + w;
    MulLe(y * w + x + 1, h * w, p);
    assert (y * w + x + 1) * p == (y * w + x) * p + p;
  }

  /** Block offsets are unique, and different blocks do not overlap. */
  lemma LinApart(x: nat, y: nat, x': nat, y': nat, w: nat, p: nat)
    requires x < w && x' < w && (x != x' || y != y')
    ensures LinAt(x, y, 0, w, p) + p <= LinAt(x', y', 0, w, p) || LinAt(x', y', 0, w, p) + p <= LinAt(x, y, 0, w, p)
  {
    DivMod(y, w, x);
    DivMod(y', w, x');
    var a, b := y * w + x, y' * w + x';
    if a < b { Steps(a, b, p); } else { Steps(b, a, p); }
  }

  lemma Steps(a: nat, b: nat, p: nat)
    requires a < b
    ensures a * p + p <= b * p
  {
    MulLe(a + 1, b, p);
    assert (a + 1) * p == a * p + p;
  }

  /** Every byte of the row-major surface belongs to a block. */
  lemma BlockOfByte(i: nat, w: nat, h: nat, p: nat) returns (x: nat, y: nat, k: nat)
    requires i < h * w * p && p > 0 && w > 0
    ensures x < w && y < h && k < p && LinAt(x, y, k, w, p) == i
  {
    var b, r := Quotient(i, p, h * w);
    y, x := Quotient(b, w, h);
    k := r;
  }

  lemma SurfaceBelowPadded(w: nat, h: nat, p: nat)
    ensures h * w * p <= PaddedSize(w, h, p)
  {
    PaddedBound(w, h, p);
    ProductBelow(w, h, TilesAcross(w), TilesAcross(h), p);
  }

  lemma ProductBelow(w: nat, h: nat, mw: nat, mh: nat, p: nat)
    requires w <= mw * 32 && h <= mh * 32
    ensures h * w * p <= mw * mh * p * 1024
  {
    MulLe(h, mh * 32, w);
    MulLe(w, mw * 32, mh * 32);
    assert mh * 32 * w == w * (mh * 32);
    assert mw * 32 * (mh * 32) == mw * mh * 1024;
    MulLe(h * w, mw * mh * 1024, p);
    assert mw * mh * 1024 * p == mw * mh * p * 1024;
  }

  // ---- the GPU layout ----------------------------------------------------------------------------

  lemma XenosApart(w: u32, h: u32, p: u32)
    requires Fits(w, h, p)
    ensures Apart(Xenos(w, p), w, h, p)
  {
    forall x: u32, y: u32, x': u32, y': u32 | x < w && y < h && x' < w && y' < h && (x != x' || y != y')
      ensures TiledByte(x, y, w, p) + p <= TiledByte(x', y', w, p) || TiledByte(x', y', w, p) + p <= TiledByte(x, y, w, p)
    {
      var a, b := XGAddress2DTiledOffset(x, y, w, p), XGAddress2DTiledOffset(x', y', w, p);
      if a == b {
        AddressInjective(x, y, x', y', w, h, p);
      }
      if a < b { Steps(a, b, p); } else { Steps(b, a, p); }
    }
  }

  /** A buffer of the size rounded up to 4 KiB holds the surface. */
  lemma PaddedCovers(w: u32, h: u32, p: u32)
    requires Fits(w, h, p)
    ensures Covers(PaddedSize(w, h, p), Xenos(w, p), w, h, p)
  {
    forall x: u32, y: u32 | x < w && y < h
      ensures TiledByte(x, y, w, p) + p <= PaddedSize(w, h, p)
    {
      AddressInPadded(x, y, w, h, p);
    }
  }

  lemma LinOffset(x: u32, y: u32, w: u32, h: u32, p: u32)
    requires Fits(w, h, p) && x < w && y < h
    ensures (y * w + x) % TWO32 * p % TWO32 == LinAt(x, y, 0, w, p) && LinAt(x, y, 0, w, p) + p <= h * w * p
  {
    LinInside(x, y, w, h, p);
    SurfaceBelowPadded(w, h, p);
    LinFits(y * w + x, p);
  }

  lemma TiledOffset(x: u32, y: u32, w: u32, h: u32, p: u32, block: u32)
    requires Fits(w, h, p) && x < w && y < h && block == XGAddress2DTiledOffset(x, y, w, p)
    ensures block * p % TWO32 == Xenos(w, p)(x, y)
  {
    var a := TiledByte(x, y, w, p);
    AddressInPadded(x, y, w, h, p);
    WrapFree(a);
  }

  lemma LinFits(b: nat, p: nat)
    requires p > 0 && b * p < TWO32
    ensures b % TWO32 * p % TWO32 == b * p
  {
    MulLe(1, p, b);
  }

  // ---- copying blocks ----------------------------------------------------------------------------

  /** dst after memcpy(dst + d, src + s, n). */
  function Copied(dst: seq<byte>, d: nat, src: seq<byte>, s: nat, n: nat): seq<byte>
    requires d + n <= |dst| && s + n <= |src|
  {
    dst[..d] + src[s..s + n] + dst[d + n..]
  }

  method CopyBytes(src: array<byte>, s: nat, dst: array<byte>, d: nat, n: nat)
    requires src != dst && s + n <= src.Length && d + n <= dst.Length
    modifies dst
    ensures dst[..] == Copied(old(dst[..]), d, src[..], s, n)
  {
    forall i | d <= i < d + n {
      dst[i] := src[s + (i - d)];
    }
  }

  lemma CopiedAt(dst: seq<byte>, d: nat, src: seq<byte>, s: nat, n: nat, i: nat)
    requires d + n <= |dst| && s + n <= |src| && i < |dst|
    ensures var r := Copied(dst, d, src, s, n);
            |r| == |dst| && r[i] == if d <= i < d + n then src[s + (i - d)] else dst[i]
  {
  }

  /** One step of Untile: block (x, y) is copied out of the tiled buffer, the earlier ones stay. */
  lemma UntileStep(lin: seq<byte>, tiled: seq<byte>, at: Layout, x: u32, y: u32, w: u32, h: u32, p: u32)
    requires TiledUpTo(lin, tiled, at, x, y, w, h, p) && x < w && y < h
    requires LinAt(x, y, 0, w, p) + p <= |lin| && at(x, y) + p <= |tiled|
    ensures TiledUpTo(Copied(lin, LinAt(x, y, 0, w, p), tiled, at(x, y), p), tiled, at, x + 1, y, w, h, p)
    ensures forall i :: LinAt(x, y, 0, w, p) + p <= i < |lin| ==> Copied(lin, LinAt(x, y, 0, w, p), tiled, at(x, y), p)[i] == lin[i]
  {
    var l, t := LinAt(x, y, 0, w, p), at(x, y);
    var r := Copied(lin, l, tiled, t, p);
    forall x': u32, y': u32, k: nat | x' < w && y' < h && k < p && Before(x', y', x + 1, y)
      ensures LinAt(x', y', k, w, p) < |r| && at(x', y') + p <= |tiled|
      ensures tiled[at(x', y') + k] == r[LinAt(x', y', k, w, p)]
    {
      if x' != x || y' != y {
        LinApart(x', y', x, y, w, p);
      }
      CopiedAt(lin, l, tiled, t, p, LinAt(x', y', k, w, p));
    }
  }

  /** One step of Tile. */
  lemma TileStep(lin: seq<byte>, tiled: seq<byte>, at: Layout, x: u32, y: u32, w: u32, h: u32, p: u32)
    requires TiledUpTo(lin, tiled, at, x, y, w, h, p) && Apart(at, w, h, p) && x < w && y < h
    requires LinAt(x, y, 0, w, p) + p <= |lin| && at(x, y) + p <= |tiled|
    ensures TiledUpTo(lin, Copied(tiled, at(x, y), lin, LinAt(x, y, 0, w, p), p), at, x + 1, y, w, h, p)
  {
    var l, t := LinAt(x, y, 0, w, p), at(x, y);
    var r := Copied(tiled, t, lin, l, p);
    forall x': u32, y': u32, k: nat | x' < w && y' < h && k < p && Before(x', y', x + 1, y)
      ensures LinAt(x', y', k, w, p) < |lin| && at(x', y') + p <= |r|
      ensures r[at(x', y') + k] == lin[LinAt(x', y', k, w, p)]
    {
      CopiedAt(tiled, t, lin, l, p, at(x', y') + k);
    }
  }

  lemma RowDone(lin: seq<byte>, tiled: seq<byte>, at: Layout, y: nat, w: u32, h: u32, p: u32)
    requires TiledUpTo(lin, tiled, at, w, y, w, h, p)
    ensures TiledUpTo(lin, tiled, at, 0, y + 1, w, h, p)
  {
    forall x': u32, y': u32, k: nat | x' < w && y' < h && k < p && Before(x', y', 0, y + 1)
      ensures LinAt(x', y', k, w, p) < |lin| && at(x', y') + p <= |tiled|
      ensures tiled[at(x', y') + k] == lin[LinAt(x', y', k, w, p)]
    {
      assert Before(x', y', w, y);
    }
  }

  /** The two offsets of the inner loops, in uint32_t arithmetic. */
  method BlockOffsets(x: u32, y: u32, w: u32, ghost h: u32, p: u32, ghost at: Layout) returns (tiledOff: nat, linOff: nat)
    requires Fits(w, h, p) && x < w && y < h && at == Xenos(w, p)
    ensures tiledOff == at(x, y) && linOff == LinAt(x, y, 0, w, p) && linOff + p <= LinSize(w, h, p)
  {
    var block := XGAddress2DTiledOffset(x, y, w, p);
    tiledOff := block * p % TWO32;
    linOff := (y * w + x) % TWO32 * p % TWO32;
    LinOffset(x, y, w, h, p);
    TiledOffset(x, y, w, h, p, block);
  }

  method Untile(src: array<byte>, dst: array<byte>, wBlocks: u32, hBlocks: u32, bytesPerBlock: u32)
    requires src != dst && Fits(wBlocks, hBlocks, bytesPerBlock)
    requires Covers(src.Length, Xenos(wBlocks, bytesPerBlock), wBlocks, hBlocks, bytesPerBlock)
    requires dst.Length >= LinSize(wBlocks, hBlocks, bytesPerBlock)
    modifies dst
    ensures IsTiling(dst[..], src[..], Xenos(wBlocks, bytesPerBlock), wBlocks, hBlocks, bytesPerBlock)
    ensures forall i :: LinSize(wBlocks, hBlocks, bytesPerBlock) <= i < dst.Length ==> dst[i] == old(dst[i])
  {
    UntileRows(src, dst, wBlocks, hBlocks, bytesPerBlock, Xenos(wBlocks, bytesPerBlock));
  }

  method UntileRows(src: array<byte>, dst: array<byte>, wBlocks: u32, hBlocks: u32, bytesPerBlock: u32, ghost at: Layout)
    requires src != dst && Fits(wBlocks, hBlocks, bytesPerBlock) && at == Xenos(wBlocks, bytesPerBlock)
    requires Covers(src.Length, at, wBlocks, hBlocks, bytesPerBlock)
    requires dst.Length >= LinSize(wBlocks, hBlocks, bytesPerBlock)
    modifies dst
    ensures IsTiling(dst[..], src[..], at, wBlocks, hBlocks, bytesPerBlock)
    ensures forall i :: LinSize(wBlocks, hBlocks, bytesPerBlock) <= i < dst.Length ==> dst[i] == old(dst[i])
  {
    ghost var size := LinSize(wBlocks, hBlocks, bytesPerBlock);
    var y := 0;
    while y < hBlocks
      invariant y <= hBlocks && TiledUpTo(dst[..], src[..], at, 0, y, wBlocks, hBlocks, bytesPerBlock)
      invariant forall i :: size <= i < dst.Length ==> dst[i] == old(dst[i])
    {
      var x := 0;
      while x < wBlocks
        invariant x <= wBlocks && TiledUpTo(dst[..], src[..], at, x, y, wBlocks, hBlocks, bytesPerBlock)
        invariant forall i :: size <= i < dst.Length ==> dst[i] == old(dst[i])
      {
        var tiledOff, linOff := BlockOffsets(x, y, wBlocks, hBlocks, bytesPerBlock, at);
        UntileStep(dst[..], src[..], at, x, y, wBlocks, hBlocks, bytesPerBlock);
        CopyBytes(src, tiledOff, dst, linOff, bytesPerBlock);
        x := x + 1;
      }
      RowDone(dst[..], src[..], at, y, wBlocks, hBlocks, bytesPerBlock);
      y := y + 1;
    }
  }

  /** Byte i of the buffer belongs to a block of the surface. */
  ghost predicate Hit(i: nat, at: Layout, w: u32, h: u32, p: u32) {
    exists x: u32, y: u32 :: x < w && y < h && at(x, y) <= i < at(x, y) + p
  }

  /** The bytes that belong to no block keep their value. */
  ghost predicate KeepsRest(was: seq<byte>, now: seq<byte>, at: Layout, w: u32, h: u32, p: u32) {
    |now| == |was| && forall i :: 0 <= i < |was| && !Hit(i, at, w, h, p) ==> now[i] == was[i]
  }

  lemma RestKept(was: seq<byte>, now: seq<byte>, lin: seq<byte>, l: nat, at: Layout, x: u32, y: u32, w: u32, h: u32, p: u32)
    requires KeepsRest(was, now, at, w, h, p) && x < w && y < h && at(x, y) + p <= |now| && l + p <= |lin|
    ensures KeepsRest(was, Copied(now, at(x, y), lin, l, p), at, w, h, p)
  {
    forall i | 0 <= i < |was| && !Hit(i, at, w, h, p)
      ensures Copied(now, at(x, y), lin, l, p)[i] == was[i]
    {
      CopiedAt(now, at(x, y), lin, l, p, i);
    }
  }

  method Tile(lin: array<byte>, tiled: array<byte>, wBlocks: u32, hBlocks: u32, bytesPerBlock: u32)
    requires lin != tiled && Fits(wBlocks, hBlocks, bytesPerBlock)
    requires Covers(tiled.Length, Xenos(wBlocks, bytesPerBlock), wBlocks, hBlocks, bytesPerBlock)
    requires lin.Length >= LinSize(wBlocks, hBlocks, bytesPerBlock)
    modifies tiled
    ensures var at := Xenos(wBlocks, bytesPerBlock);
            IsTiling(lin[..], tiled[..], at, wBlocks, hBlocks, bytesPerBlock)
            && KeepsRest(old(tiled[..]), tiled[..], at, wBlocks, hBlocks, bytesPerBlock)
  {
    TileRows(lin, tiled, wBlocks, hBlocks, bytesPerBlock, Xenos(wBlocks, bytesPerBlock));
  }

  method TileRows(lin: array<byte>, tiled: array<byte>, wBlocks: u32, hBlocks: u32, bytesPerBlock: u32, ghost at: Layout)
    requires lin != tiled && Fits(wBlocks, hBlocks, bytesPerBlock) && at == Xenos(wBlocks, bytesPerBlock)
    requires Covers(tiled.Length, at, wBlocks, hBlocks, bytesPerBlock)
    requires lin.Length >= LinSize(wBlocks, hBlocks, bytesPerBlock)
    modifies tiled
    ensures IsTiling(lin[..], tiled[..], at, wBlocks, hBlocks, bytesPerBlock)
    ensures KeepsRest(old(tiled[..]), tiled[..], at, wBlocks, hBlocks, bytesPerBlock)
  {
    XenosApart(wBlocks, hBlocks, bytesPerBlock);
    var y := 0;
    while y < hBlocks
      invariant y <= hBlocks && TiledUpTo(lin[..], tiled[..], at, 0, y, wBlocks, hBlocks, bytesPerBlock)
      invariant KeepsRest(old(tiled[..]), tiled[..], at, wBlocks, hBlocks, bytesPerBlock)
    {
      var x := 0;
      while x < wBlocks
        invariant x <= wBlocks && TiledUpTo(lin[..], tiled[..], at, x, y, wBlocks, hBlocks, bytesPerBlock)
        invariant KeepsRest(old(tiled[..]), tiled[..], at, wBlocks, hBlocks, bytesPerBlock)
      {
        var tiledOff, linOff := BlockOffsets(x, y, wBlocks, hBlocks, bytesPerBlock, at);
        TileStep(lin[..], tiled[..], at, x, y, wBlocks, hBlocks, bytesPerBlock);
        RestKept(old(tiled[..]), tiled[..], lin[..], linOff, at, x, y, wBlocks, hBlocks, bytesPerBlock);
        CopyBytes(lin, linOff, tiled, tiledOff, bytesPerBlock);
        x := x + 1;
      }
      RowDone(lin[..], tiled[..], at, y, wBlocks, hBlocks, bytesPerBlock);
      y := y + 1;
    }
  }

  // ---- Tile and Untile are inverse ---------------------------------------------------------------

  /** Untile after Tile is the identity: a tiled surface has one row-major form. */
  lemma UntileAfterTile(a: seq<byte>, b: seq<byte>, tiled: seq<byte>, at: Layout, w: u32, h: u32, p: u32)
    requires |a| == LinSize(w, h, p) && |b| == |a|
    requires IsTiling(a, tiled, at, w, h, p) && IsTiling(b, tiled, at, w, h, p)
    ensures a == b
  {
    forall i | 0 <= i < |a|
      ensures a[i] == b[i]
    {
      assert w > 0 && p > 0;
      var x, y, k := BlockOfByte(i, w, h, p);
      assert tiled[at(x, y) + k] == a[LinAt(x, y, k, w, p)];
    }
  }

  /** Tile after Untile is the identity of the whole buffer when the blocks fill whole 4 KiB pages. */
  lemma TileAfterUntile(lin: seq<byte>, t: seq<byte>, t': seq<byte>, at: Layout, w: u32, h: u32, p: u32)
    requires Fits(w, h, p) && w > 0 && h > 0 && w % 32 == 0 && h % 32 == 0 && Tiles(w, h) * p % 4 == 0
    requires |t| == PaddedSize(w, h, p) && |t'| == |t| && at == Xenos(w, p)
    requires IsTiling(lin, t, at, w, h, p) && IsTiling(lin, t', at, w, h, p)
    ensures t == t'
  {
    forall i | 0 <= i < |t|
      ensures t[i] == t'[i]
    {
      var x, y, k := BlockOfTiledByte(i, at, w, h, p);
      SameByte(lin, t, t', at, x, y, k, w, h, p);
    }
  }

  lemma SameByte(lin: seq<byte>, t: seq<byte>, t': seq<byte>, at: Layout, x: u32, y: u32, k: nat, w: u32, h: u32, p: u32)
    requires IsTiling(lin, t, at, w, h, p) && IsTiling(lin, t', at, w, h, p)
    requires x < w && y < h && k < p
    ensures at(x, y) + p <= |t| && at(x, y) + p <= |t'| && t[at(x, y) + k] == t'[at(x, y) + k]
  {
    assert Before(x, y, 0, h);
    assert LinAt(x, y, k, w, p) < |lin|;
  }

  lemma BlockOfTiledByte(i: nat, at: Layout, w: u32, h: u32, p: u32) returns (x: u32, y: u32, k: nat)
    requires Fits(w, h, p) && w > 0 && h > 0 && w % 32 == 0 && h % 32 == 0 && Tiles(w, h) * p % 4 == 0
    requires i < PaddedSize(w, h, p) && at == Xenos(w, p)
    ensures x < w && y < h && k < p && at(x, y) + k == i
  {
    var a;
    k := i % p;
    a := i / p * p;
    Euclid(i, p);
    DivMod(i / p, p, 0);
    AddressOnto(a, w, h, p);
    Whole32(w);
    Whole32(h);
    var c := Locate(a, w, p);
    x, y := c.x, c.y;
  }

  lemma Whole32(w: nat)
    requires w % 32 == 0
    ensures Align32(w) == w
  {
  }

  // ---- both, one after the other -----------------------------------------------------------------

  /** Tiling a row-major surface and untiling the result gives the surface back. */
  method TiledAndBack(src: array<byte>, tiled: array<byte>, dst: array<byte>, w: u32, h: u32, p: u32)
    requires src != tiled && src != dst && tiled != dst && Fits(w, h, p)
    requires src.Length == dst.Length == LinSize(w, h, p) && Covers(tiled.Length, Xenos(w, p), w, h, p)
    modifies tiled, dst
    ensures dst[..] == src[..]
  {
    Tile(src, tiled, w, h, p);
    Untile(tiled, dst, w, h, p);
    UntileAfterTile(dst[..], src[..], tiled[..], Xenos(w, p), w, h, p);
  }

  /** And on surfaces of whole pages, untiling a buffer and tiling the result gives every byte of the buffer back. */
  method UntiledAndBack(src: array<byte>, lin: array<byte>, dst: array<byte>, w: u32, h: u32, p: u32)
    requires src != lin && src != dst && lin != dst
    requires Fits(w, h, p) && w > 0 && h > 0 && w % 32 == 0 && h % 32 == 0 && Tiles(w, h) * p % 4 == 0
    requires src.Length == dst.Length == PaddedSize(w, h, p) && lin.Length == LinSize(w, h, p)
    modifies lin, dst
    ensures dst[..] == src[..]
  {
    PaddedCovers(w, h, p);
    Untile(src, lin, w, h, p);
    Tile(lin, dst, w, h, p);
    TileAfterUntile(lin[..], src[..], dst[..], Xenos(w, p), w, h, p);
  }
}
