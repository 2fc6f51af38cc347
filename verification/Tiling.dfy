/** The Xenos 2D tiling address map (varianta/runtime/rex_texture.h:70-110). */
module Tiling {
  import opened Words

  predicate IsPitch(p: nat) {
    p == 1 || p == 2 || p == 4 || p == 8 || p == 16
  }

  function TilesAcross(w: nat): (n: nat)
    ensures w > 0 ==> n > 0
  {
    (w + 31) / 32
  }

  /** `(w + 31) & ~31`. */
  function Align32(w: nat): nat {
    TilesAcross(w) * 32
  }

  function LogBpp(texelPitch: nat): nat {
    Shr(texelPitch, 2) + Shr(Shr(texelPitch, 1), Shr(texelPitch, 2))
  }

  /** XGAddress2DTiledOffset, every operator on uint32_t as in the source: the masks are written as
      remainders and digit extractions, the shifts and sums wrap at 2^32. */
  function XGAddress2DTiledOffset(x: u32, y: u32, width: u32, texelPitch: u32): u32 {
    var alignedWidth := Align32(width) % TWO32;
    var logBpp := LogBpp(texelPitch);
    Shr(XGSwizzle(XGUnswizzled(XGTile(x, y, alignedWidth), x, y, logBpp), x, y), logBpp)
  }

  /** The tile index inside the local variable macro. */
  function XGTile(x: u32, y: u32, alignedWidth: u32): u32 {
    (x / 32 + (y / 32) * (alignedWidth / 32)) % TWO32
  }

  /** The local variables macro, micro and offset of the source. */
  function XGUnswizzled(tile: u32, x: u32, y: u32, logBpp: nat): u32 {
    var macro := Shl(tile, logBpp + 7);
    var micro := Shl(x % 8 + Shl(y / 2 % 4 * 2, 2), logBpp);
    XGOffset(macro, micro, y, logBpp)
  }

  /** The byte offset Tile and Untile compute from it. */
  function TiledByte(x: u32, y: u32, width: u32, texelPitch: u32): nat {
    XGAddress2DTiledOffset(x, y, width, texelPitch) * texelPitch
  }

  /** The line of the source that packs the unswizzled offset. */
  function XGOffset(macro: u32, micro: u32, y: u32, logBpp: nat): u32 {
    (macro + Shl(micro - micro % 16, 1) + micro % 16 + Shl(y / 8 % 2 * 8, 3 + logBpp) + Shl(y % 2, 4)) % TWO32
  }

  /** The return expression of the source, before its final shift. */
  function XGSwizzle(offset: u32, x: u32, y: u32): u32 {
    XGPack(offset, y / 16 % 2, (y / 8 % 2 * 2 + x / 8) % 4)
  }

  /** Its shifts and sums, with bit 4 of y and the two bank bits. */
  function XGPack(offset: u32, y4: nat, bank: nat): u32 {
    (Shl(offset - offset % 0x200, 3) + Shl(offset / 0x40 % 8 * 0x40, 2) + offset % 0x40
     + Shl(y4 * 16, 7) + Shl(bank, 6)) % TWO32
  }

  /** TiledSizeBytes, again with the wrap of uint32_t. */
  function TiledSizeBytes(w: u32, h: u32, p: u32): u32 {
    (Align32(w) % TWO32) * (Align32(h) % TWO32) % TWO32 * p % TWO32
  }

  // ---- the map without machine arithmetic -------------------------------------------------------

  /** Number of 32x32 tiles of a surface. */
  function Tiles(w: nat, h: nat): nat {
    TilesAcross(w) * TilesAcross(h)
  }

  /** The tiled size rounded up to 4 KiB: one swizzle page per four KiB. */
  function PaddedSize(w: nat, h: nat, p: nat): nat {
    (Tiles(w, h) * p + 3) / 4 * 4096
  }

  /** Surfaces whose padded size stays below the 32-bit wrap. */
  predicate Fits(w: nat, h: nat, p: nat) {
    IsPitch(p) && PaddedSize(w, h, p) < TWO32
  }

  /** Index of the tile holding (x, y). */
  function Tile32(x: nat, y: nat, w: nat): nat {
    x / 32 + y / 32 * TilesAcross(w)
  }

  /** The linear offset before the page swizzle, for texel (u, v) of tile m: from the top, the tile,
      bit 3 of v, bits 1 and 2 of v with the low bits of u (split around bit 0 of v). */
  function Raw(m: nat, u: nat, v: nat, p: nat): nat {
    var micro := (u % 8 + v / 2 % 4 * 8) * p;
    m * (128 * p) + v / 8 % 2 * (64 * p) + micro / 16 * 32 + v % 2 * 16 + micro % 16
  }

  /** The page swizzle: raw offset o, bit 4 of v and the two bank bits b make a byte address. */
  function Swizzle(o: nat, v4: nat, b: nat): nat {
    o / 512 * 4096 + v4 * 2048 + o / 64 % 8 * 256 + b * 64 + o % 64
  }

  /** The byte address of texel (u, v) of tile m. */
  function ByteAddress(m: nat, u: nat, v: nat, p: nat): nat {
    Swizzle(Raw(m, u, v, p), v / 16 % 2, (v / 8 % 2 * 2 + u / 8) % 4)
  }

  /** A texel of a tiled surface: tile, and position inside the tile. */
  datatype Texel = Texel(tile: nat, u: nat, v: nat)

  /** The raw offset read off the digits of a byte address. */
  function RawAt(a: nat): nat {
    a / 4096 * 512 + a / 256 % 8 * 64 + a % 64
  }

  /** The texel of raw offset o; bit 4 of v and the two bits holding the middle of u come separately. */
  function TexelOf(o: nat, v4: nat, b: nat, p: nat): Texel
    requires IsPitch(p)
  {
    var s := (o / 32 % (2 * p) * 16 + o % 16) / p;
    var v3 := o / (64 * p) % 2;
    TexelOfDigits(o / (128 * p), s, v4, v3, o / 16 % 2, b)
  }

  function TexelOfDigits(m: nat, s: nat, v4: nat, v3: nat, v0: nat, b: nat): Texel {
    Texel(m, (b + 4 - 2 * v3) % 4 * 8 + s % 8, v4 * 16 + v3 * 8 + s / 8 * 2 + v0)
  }

  /** The inverse map. */
  function TexelAt(a: nat, p: nat): Texel
    requires IsPitch(p)
  {
    TexelOf(RawAt(a), a / 2048 % 2, a / 64 % 4, p)
  }

  // ---- digit lemmas ------------------------------------------------------------------------------

  /** The five digits of a page-swizzled byte address can be read back. */
  lemma PageDigits(h: nat, v4: nat, k: nat, b: nat, l: nat)
    requires v4 < 2 && k < 8 && b < 4 && l < 64
    ensures var a := h * 4096 + v4 * 2048 + k * 256 + b * 64 + l;
            && a / 4096 == h && a / 2048 % 2 == v4 && a / 256 % 8 == k && a / 64 % 4 == b && a % 64 == l
  {
    var t := 2 * h + v4;
    var q := 8 * t + k;
    DivMod(h, 4096, v4 * 2048 + k * 256 + b * 64 + l);
    DivMod(t, 2048, k * 256 + b * 64 + l);
    DivMod(q, 256, b * 64 + l);
    DivMod(4 * q + b, 64, l);
    DivMod(h, 2, v4);
    DivMod(t, 8, k);
    DivMod(q, 4, b);
  }

  /** The digits of the raw offset: tile, v3, the high and low part of micro, v0. */
  lemma RawDigits(m: nat, v3: nat, hi: nat, v0: nat, lo: nat, p: nat)
    requires p > 0 && v3 < 2 && hi < 2 * p && v0 < 2 && lo < 16
    ensures var o := m * (128 * p) + v3 * (64 * p) + hi * 32 + v0 * 16 + lo;
            && o / (128 * p) == m && o / (64 * p) % 2 == v3 && o / 32 % (2 * p) == hi && o / 16 % 2 == v0 && o % 16 == lo
  {
    var q, r := 2 * m + v3, hi * 32 + v0 * 16 + lo;
    RawForms(m, v3, hi, v0, lo, p);
    DivMod(m, 128 * p, v3 * (64 * p) + r);
    DivMod(q, 64 * p, r);
    DivMod(m, 2, v3);
    var t := q * (2 * p) + hi;
    DivMod(t, 32, v0 * 16 + lo);
    DivMod(q, 2 * p, hi);
    DivMod(2 * t + v0, 16, lo);
    DivMod(t, 2, v0);
  }

  /** The raw offset grouped by each of its digit boundaries. */
  lemma RawForms(m: nat, v3: nat, hi: nat, v0: nat, lo: nat, p: nat)
    requires v3 < 2 && hi < 2 * p && v0 < 2 && lo < 16
    ensures var o, r, q := m * (128 * p) + v3 * (64 * p) + hi * 32 + v0 * 16 + lo, hi * 32 + v0 * 16 + lo, 2 * m + v3;
            && r < 64 * p && v3 * (64 * p) + r < 128 * p
            && o == q * (64 * p) + r
            && o == (q * (2 * p) + hi) * 32 + (v0 * 16 + lo)
  {
    if v3 == 0 {} else {}
  }

  /** Inside a tile, the micro index and the pitch can be separated again. */
  lemma MicroDigits(s: nat, p: nat)
    requires IsPitch(p) && s < 32
    ensures s * p / 16 < 2 * p && s * p % 16 % p == 0
    ensures (s * p / 16 * 16 + s * p % 16) / p == s
  {
    DivMod(s, p, 0);
    MulLe(s + 1, 32, p);
    if p == 1 {} else if p == 2 {} else if p == 4 {} else if p == 8 {} else {}
  }

  /** The digits of the raw offset of texel (u, v). */
  lemma RawTexel(m: nat, u: nat, v: nat, p: nat)
    requires IsPitch(p)
    ensures var o := Raw(m, u, v, p);
            && o / (128 * p) == m && o / (64 * p) % 2 == v / 8 % 2 && o / 16 % 2 == v % 2
            && (o / 32 % (2 * p) * 16 + o % 16) / p == u % 8 + v / 2 % 4 * 8
            && o % 16 % p == 0
  {
    var s := u % 8 + v / 2 % 4 * 8;
    var hi, lo := s * p / 16, s * p % 16;
    MicroDigits(s, p);
    assert Raw(m, u, v, p) == m * (128 * p) + v / 8 % 2 * (64 * p) + hi * 32 + v % 2 * 16 + lo;
    RawDigits(m, v / 8 % 2, hi, v % 2, lo, p);
  }

  lemma Split(o: nat)
    ensures o == o / 512 * 512 + o / 64 % 8 * 64 + o % 64 && o % 64 % 16 == o % 16
  {
    Euclid(o, 64);
    Euclid(o / 64, 8);
    DivDiv(o, 64, 8);
    ModAdd(o / 64 * 4, 16, o % 64);
  }

  /** The swizzle loses nothing. */
  lemma SwizzledDigits(o: nat, v4: nat, b: nat)
    requires v4 < 2 && b < 4
    ensures var a := Swizzle(o, v4, b);
            RawAt(a) == o && a / 2048 % 2 == v4 && a / 64 % 4 == b && a % 16 == o % 16
  {
    PageDigits(o / 512, v4, o / 64 % 8, b, o % 64);
    Split(o);
    Split(Swizzle(o, v4, b));
  }

  lemma TexelAtSwizzle(o: nat, v4: nat, b: nat, p: nat)
    requires IsPitch(p) && v4 < 2 && b < 4
    ensures TexelAt(Swizzle(o, v4, b), p) == TexelOf(o, v4, b, p)
  {
    SwizzledDigits(o, v4, b);
  }

  /** Bits 3 and 4 of u are stored added to bit 3 of v; they come back because v3 is stored elsewhere. */
  lemma MiddleBits(v3: nat, uh: nat)
    requires v3 < 2 && uh < 4
    ensures ((v3 * 2 + uh) % 4 + 4 - 2 * v3) % 4 == uh
  {
  }

  lemma TileDigits(u: nat, v: nat)
    requires u < 32 && v < 32
    ensures u == u / 8 * 8 + u % 8 && u / 8 < 4
    ensures v == v / 16 % 2 * 16 + v / 8 % 2 * 8 + v / 2 % 4 * 2 + v % 2
    ensures var s := u % 8 + v / 2 % 4 * 8; s % 8 == u % 8 && s / 8 == v / 2 % 4
  {
    DivMod(v / 2 % 4, 8, u % 8);
    assert v / 2 / 4 == v / 8 && v / 8 / 2 == v / 16;
  }

  lemma DigitsBack(m: nat, u: nat, v: nat)
    requires u < 32 && v < 32
    ensures TexelOfDigits(m, u % 8 + v / 2 % 4 * 8, v / 16 % 2, v / 8 % 2, v % 2, (v / 8 % 2 * 2 + u / 8) % 4) == Texel(m, u, v)
  {
    TileDigits(u, v);
    MiddleBits(v / 8 % 2, u / 8);
  }

  lemma TexelOfRaw(m: nat, u: nat, v: nat, p: nat)
    requires IsPitch(p) && u < 32 && v < 32
    ensures TexelOf(Raw(m, u, v, p), v / 16 % 2, (v / 8 % 2 * 2 + u / 8) % 4, p) == Texel(m, u, v)
  {
    var o, v4, b := Raw(m, u, v, p), v / 16 % 2, (v / 8 % 2 * 2 + u / 8) % 4;
    assert TexelOf(o, v4, b, p) == TexelOfDigits(m, u % 8 + v / 2 % 4 * 8, v4, v / 8 % 2, v % 2, b) by {
      RawTexel(m, u, v, p);
    }
    DigitsBack(m, u, v);
  }

  /** A texel is recovered from its byte address: the map is injective. */
  lemma TexelAtByteAddress(m: nat, u: nat, v: nat, p: nat)
    requires IsPitch(p) && u < 32 && v < 32
    ensures TexelAt(ByteAddress(m, u, v, p), p) == Texel(m, u, v)
  {
    TexelOfRaw(m, u, v, p);
    TexelAtSwizzle(Raw(m, u, v, p), v / 16 % 2, (v / 8 % 2 * 2 + u / 8) % 4, p);
  }

  /** The final shift by logBpp drops only zero bits. */
  lemma MultipleOfPitch(m: nat, u: nat, v: nat, p: nat)
    requires IsPitch(p)
    ensures ByteAddress(m, u, v, p) % p == 0
  {
    RawTexel(m, u, v, p);
    SwizzledDigits(Raw(m, u, v, p), v / 16 % 2, (v / 8 % 2 * 2 + u / 8) % 4);
    ModMod(ByteAddress(m, u, v, p), p);
  }

  lemma ModMod(a: nat, p: nat)
    requires IsPitch(p)
    ensures a % 16 % p == a % p
  {
    ModModOf(a, p, if p == 1 then 16 else if p == 2 then 8 else if p == 4 then 4 else if p == 8 then 2 else 1);
  }

  lemma ModModOf(a: nat, p: nat, c: nat)
    requires p > 0 && c * p == 16
    ensures a % 16 % p == a % p
  {
    Euclid(a, 16);
    assert a / 16 * c * p == a / 16 * (c * p);
    ModAdd(a / 16 * c, p, a % 16);
  }

  // ---- the map is onto ---------------------------------------------------------------------------

  lemma SwizzleRawAt(a: nat)
    ensures Swizzle(RawAt(a), a / 2048 % 2, a / 64 % 4) == a
  {
    var h, k, l := a / 4096, a / 256 % 8, a % 64;
    DivMod(h, 512, k * 64 + l);
    DivMod(8 * h + k, 64, l);
    DivMod(h, 8, k);
    Recompose(a);
  }

  lemma Recompose(a: nat)
    ensures a == a / 4096 * 4096 + a / 2048 % 2 * 2048 + a / 256 % 8 * 256 + a / 64 % 4 * 64 + a % 64
  {
    Euclid(a / 64, 4);
    Euclid(a / 256, 8);
    Euclid(a / 2048, 2);
    DivDiv(a, 64, 4);
    DivDiv(a, 256, 8);
    DivDiv(a, 2048, 2);
  }

  lemma DivDiv(o: nat, c: nat, d: nat)
    requires c > 0 && d > 0
    ensures c * d > 0 && o / c / d == o / (c * d)
  {
    MulLe(1, c, d);
    var h := o / c;
    Euclid(o, c);
    Euclid(h, d);
    DivDivOf(o, c, d, h / d, h % d, o % c);
  }

  lemma DivDivOf(o: nat, c: nat, d: nat, q: nat, r: nat, l: nat)
    requires c * d > 0 && r < d && l < c && o == (q * d + r) * c + l
    ensures o / (c * d) == q
  {
    Distribute(c, d, q, r, l);
    DivMod(q, c * d, r * c + l);
  }

  lemma Distribute(c: nat, d: nat, q: nat, r: nat, l: nat)
    requires r < d && l < c
    ensures (q * d + r) * c + l == q * (c * d) + (r * c + l) && r * c + l < c * d
  {
    MulLe(r + 1, d, c);
    assert (r + 1) * c == r * c + c;
    assert q * d * c == q * (c * d);
  }

  /** Joining digits and reading them again. */
  lemma JoinDigits(uh: nat, s: nat, v4: nat, v3: nat, v0: nat)
    requires uh < 4 && s < 32 && v4 < 2 && v3 < 2 && v0 < 2
    ensures var u, v := uh * 8 + s % 8, v4 * 16 + v3 * 8 + s / 8 * 2 + v0;
            && u < 32 && u / 8 == uh && u % 8 == s % 8
            && v < 32 && v / 16 % 2 == v4 && v / 8 % 2 == v3 && v / 2 % 4 == s / 8 && v % 2 == v0
  {
    var e := s / 8;
    DivMod(uh, 8, s % 8);
    DivMod(v4, 16, v3 * 8 + e * 2 + v0);
    DivMod(v4 * 2 + v3, 8, e * 2 + v0);
    DivMod(v4, 2, v3);
    DivMod(v4 * 8 + v3 * 4 + e, 2, v0);
    DivMod(v4 * 2 + v3, 4, e);
  }

  lemma BankOf(v3: nat, b: nat)
    requires v3 < 2 && b < 4
    ensures (v3 * 2 + (b + 4 - 2 * v3) % 4) % 4 == b
  {
  }

  /** The micro index whose scaled value has high part hi and low part lo. */
  lemma MicroWitness(hi: nat, lo: nat, p: nat) returns (s: nat)
    requires IsPitch(p) && hi < 2 * p && lo < 16 && lo % p == 0
    ensures s < 32 && s * p == hi * 16 + lo
  {
    var c := if p == 1 then 16 else if p == 2 then 8 else if p == 4 then 4 else if p == 8 then 2 else 1;
    assert c * p == 16;
    var t, r := Quotient(lo, p, c);
    assert r == 0 by { DivMod(t, p, r); }
    s := hi * c + t;
    assert s * p == hi * (c * p) + t * p;
    MulLt(s, 32, p);
  }

  lemma MulLt(a: nat, b: nat, c: nat)
    requires a * c < b * c
    ensures a < b
  {
    if b <= a {
      MulLe(b, a, c);
    }
  }

  lemma Quotient(a: nat, d: nat, k: nat) returns (q: nat, r: nat)
    requires d > 0 && a < k * d
    ensures q < k && r < d && a == q * d + r
  {
    q, r := a / d, a % d;
    Euclid(a, d);
    DivBound(a, d, k);
  }

  /** The digits of a raw offset. */
  lemma RawDigitsOfOffset(o: nat, p: nat) returns (m: nat, v3: nat, hi: nat, v0: nat, lo: nat)
    requires p > 0
    ensures v3 < 2 && hi < 2 * p && v0 < 2 && lo < 16
    ensures o == m * (128 * p) + v3 * (64 * p) + hi * 32 + v0 * 16 + lo
  {
    var r1, r2, r3;
    m, r1 := o / (128 * p), o % (128 * p);
    Euclid(o, 128 * p);
    v3, r2 := Quotient(r1, 64 * p, 2);
    hi, r3 := Quotient(r2, 32, 2 * p);
    v0, lo := Quotient(r3, 16, 2);
  }

  lemma LowOfDigits(m: nat, v3: nat, hi: nat, v0: nat, lo: nat, p: nat)
    requires lo < 16
    ensures (m * (128 * p) + v3 * (64 * p) + hi * 32 + v0 * 16 + lo) % 16 == lo
  {
    var q := m * (8 * p) + v3 * (4 * p) + hi * 2 + v0;
    assert m * (128 * p) == m * (8 * p) * 16 && v3 * (64 * p) == v3 * (4 * p) * 16;
    DivMod(q, 16, lo);
  }

  /** Every raw offset whose low bits are a multiple of the pitch is that of a texel, whatever the two
      swizzle inputs are. */
  lemma RawWitness(o: nat, v4: nat, b: nat, p: nat) returns (m: nat, u: nat, v: nat)
    requires IsPitch(p) && v4 < 2 && b < 4 && o % 16 % p == 0
    ensures u < 32 && v < 32 && Raw(m, u, v, p) == o && v / 16 % 2 == v4 && (v / 8 % 2 * 2 + u / 8) % 4 == b
  {
    var v3, hi, v0, lo;
    m, v3, hi, v0, lo := RawDigitsOfOffset(o, p);
    LowOfDigits(m, v3, hi, v0, lo, p);
    var s := MicroWitness(hi, lo, p);
    var uh := (b + 4 - 2 * v3) % 4;
    JoinDigits(uh, s, v4, v3, v0);
    BankOf(v3, b);
    u, v := uh * 8 + s % 8, v4 * 16 + v3 * 8 + s / 8 * 2 + v0;
    RawOfDigits(m, u, v, s, v3, v0, hi, lo, p);
  }

  /** The raw offset of a texel given by its digits. */
  lemma RawOfDigits(m: nat, u: nat, v: nat, s: nat, v3: nat, v0: nat, hi: nat, lo: nat, p: nat)
    requires s < 32 && u % 8 == s % 8 && v / 8 % 2 == v3 && v / 2 % 4 == s / 8 && v % 2 == v0
    requires lo < 16 && s * p == hi * 16 + lo
    ensures Raw(m, u, v, p) == m * (128 * p) + v3 * (64 * p) + hi * 32 + v0 * 16 + lo
  {
    assert u % 8 + v / 2 % 4 * 8 == s;
    DivMod(hi, 16, lo);
  }

  /** Every multiple of the pitch is the address of a texel. */
  lemma ByteAddressOfTexel(a: nat, p: nat)
    requires IsPitch(p) && a % p == 0
    ensures var t := TexelAt(a, p); t.u < 32 && t.v < 32 && ByteAddress(t.tile, t.u, t.v, p) == a
  {
    ModMod(a, p);
    SwizzleRawAt(a);
    SwizzledDigits(RawAt(a), a / 2048 % 2, a / 64 % 4);
    var m, u, v := RawWitness(RawAt(a), a / 2048 % 2, a / 64 % 4, p);
    TexelOfRaw(m, u, v, p);
  }

  // ---- the machine arithmetic computes the map ---------------------------------------------------

  lemma LogBppIsLog(p: nat)
    requires IsPitch(p)
    ensures Pow2(LogBpp(p)) == p && Pow2(LogBpp(p) + 7) == 128 * p && Pow2(3 + LogBpp(p)) == 8 * p
  {
    assert Pow2(1) == 2 && Pow2(2) == 4 && Pow2(4) == 16;
    assert LogBpp(p) == if p == 1 then 0 else if p == 2 then 1 else if p == 4 then 2 else if p == 8 then 3 else 4;
    assert Pow2(3) == 8 && Pow2(7) == 128 && Pow2(8) == 256 && Pow2(9) == 512 && Pow2(10) == 1024 && Pow2(11) == 2048;
    assert Pow2(5) == 32 && Pow2(6) == 64;
  }

  /** Every tile's raw offsets lie in its own 128*p window. */
  lemma RawBound(m: nat, u: nat, v: nat, p: nat)
    requires IsPitch(p)
    ensures m * (128 * p) <= Raw(m, u, v, p) < (m + 1) * (128 * p)
  {
    var s := u % 8 + v / 2 % 4 * 8;
    MicroDigits(s, p);
    var rest := v / 8 % 2 * (64 * p) + s * p / 16 * 32 + v % 2 * 16 + s * p % 16;
    assert rest < 128 * p;
    assert (m + 1) * (128 * p) == m * (128 * p) + 128 * p;
  }

  /** Every address, and the texel it starts, lies in the padded size. */
  lemma Bounds(m: nat, u: nat, v: nat, p: nat, tiles: nat)
    requires IsPitch(p) && m < tiles
    ensures ByteAddress(m, u, v, p) + p <= (tiles * p + 3) / 4 * 4096
  {
    RawInTiles(m, u, v, p, tiles);
    SwizzleBound(Raw(m, u, v, p), v / 16 % 2, (v / 8 % 2 * 2 + u / 8) % 4, tiles * p);
    MultipleOfPitch(m, u, v, p);
    NextMultiple(ByteAddress(m, u, v, p), p, (tiles * p + 3) / 4);
  }

  lemma RawInTiles(m: nat, u: nat, v: nat, p: nat, tiles: nat)
    requires IsPitch(p) && m < tiles
    ensures Raw(m, u, v, p) < tiles * p * 128
  {
    RawBound(m, u, v, p);
    MulLe(m + 1, tiles, 128 * p);
    assert tiles * (128 * p) == tiles * p * 128;
  }

  lemma SwizzleBound(o: nat, v4: nat, b: nat, n: nat)
    requires o < n * 128 && v4 < 2 && b < 4
    ensures Swizzle(o, v4, b) < (n + 3) / 4 * 4096
  {
    assert o / 512 + 1 <= (n + 3) / 4;
  }

  lemma NextMultiple(a: nat, p: nat, pages: nat)
    requires IsPitch(p) && a % p == 0 && a < pages * 4096
    ensures a + p <= pages * 4096
  {
    var c := if p == 1 then 4096 else if p == 2 then 2048 else if p == 4 then 1024 else if p == 8 then 512 else 256;
    NextMultipleOf(a, p, c, pages);
  }

  lemma NextMultipleOf(a: nat, p: nat, c: nat, pages: nat)
    requires p > 0 && c * p == 4096 && a % p == 0 && a < pages * 4096
    ensures a + p <= pages * 4096
  {
    var n := pages * c;
    assert n * p == pages * (c * p);
    Euclid(a, p);
    DivBound(a, p, n);
    MulLe(a / p + 1, n, p);
  }

  lemma TileInSurface(x: nat, y: nat, w: nat, h: nat)
    requires x < Align32(w) && y < Align32(h)
    ensures Tile32(x, y, w) < Tiles(w, h) && TilesAcross(w) <= Tiles(w, h)
    ensures var mw := TilesAcross(w); Tile32(x, y, w) % mw == x / 32 && Tile32(x, y, w) / mw == y / 32
  {
    var mw, mh := TilesAcross(w), TilesAcross(h);
    assert y / 32 + 1 <= mh && x / 32 < mw;
    assert (y / 32 + 1) * mw <= mh * mw;
    assert mh * mw >= mw by { assert (mh - 1) * mw >= 0; }
    DivMod(y / 32, mw, x / 32);
  }

  lemma ShlFits(a: nat, k: nat, q: nat)
    requires Pow2(k) == q && a * q < TWO32
    ensures Shl(a, k) == a * q
  {
  }

  /** None of the shifted terms of the packed offset loses a bit, and those below the tile fill its window. */
  lemma OffsetTerms(micro: u32, v3: nat, v0: nat, p: nat, k: nat)
    requires p > 0 && Pow2(3 + k) == 8 * p && micro < 32 * p && v3 < 2 && v0 < 2 && 128 * p <= TWO32
    ensures Shl(micro - micro % 16, 1) == micro / 16 * 32 && Shl(v3 * 8, 3 + k) == v3 * (64 * p) && Shl(v0, 4) == v0 * 16
    ensures v3 * (64 * p) + micro / 16 * 32 + v0 * 16 + micro % 16 < 128 * p
  {
    HighMicro(micro, p);
    BitThree(v3, p, 3 + k);
    ShlFits(v0, 4, 16) by { assert Pow2(4) == 16; }
  }

  lemma HighMicro(micro: u32, p: nat)
    requires micro < 32 * p && 128 * p <= TWO32
    ensures Shl(micro - micro % 16, 1) == micro / 16 * 32 && micro / 16 * 32 + 32 <= 64 * p
  {
    var hi := micro / 16;
    Euclid(micro, 16);
    assert hi < 2 * p;
    ShlFits(hi * 16, 1, 2);
  }

  lemma BitThree(v3: nat, p: nat, k: nat)
    requires Pow2(k) == 8 * p && v3 < 2 && 128 * p <= TWO32
    ensures Shl(v3 * 8, k) == v3 * (64 * p) <= 64 * p
  {
    if v3 == 0 { ShlFits(0, k, 8 * p); } else { ShlFits(8, k, 8 * p); }
  }

  /** A raw offset put together from a tile's address, bit 3 of y, micro and bit 0 of y. */
  function RawSum(macro: nat, v3: nat, micro: nat, v0: nat, p: nat): nat {
    macro + v3 * (64 * p) + micro / 16 * 32 + v0 * 16 + micro % 16
  }

  lemma MachineOffset(macro: u32, micro: u32, y: u32, p: nat, k: nat)
    requires p > 0 && Pow2(3 + k) == 8 * p && micro < 32 * p && macro + 128 * p <= TWO32
    ensures XGOffset(macro, micro, y, k) == RawSum(macro, y / 8 % 2, micro, y % 2, p)
  {
    OffsetTerms(micro, y / 8 % 2, y % 2, p, k);
  }

  // Dropping the tile index keeps the digits below it.
  lemma LowEighths(y: nat)
    ensures y % 32 / 8 == y / 8 % 4
  {
    var q, r := y / 32, y % 32;
    DivMod(4 * q + r / 8, 8, r % 8);
    DivMod(q, 4, r / 8);
  }

  lemma LowBits012(y: nat)
    ensures y % 32 % 8 == y % 8 && y % 32 % 2 == y % 2
  {
    ModAdd(4 * (y / 32), 8, y % 32);
    ModAdd(16 * (y / 32), 2, y % 32);
  }

  lemma LowBit3(y: nat)
    ensures y % 32 / 8 % 2 == y / 8 % 2
  {
    LowEighths(y);
    ModAdd(2 * (y / 8 / 4), 2, y / 8 % 4);
  }

  lemma LowBits12(y: nat)
    ensures y % 32 / 2 % 4 == y / 2 % 4
  {
    var q, r := y / 32, y % 32;
    DivMod(16 * q + r / 2, 2, r % 2);
    ModAdd(4 * q, 4, r / 2);
  }

  lemma LowBit4(y: nat)
    ensures y % 32 / 16 % 2 == y / 16 % 2
  {
    var q, r := y / 32, y % 32;
    DivMod(2 * q + r / 16, 16, r % 16);
    ModAdd(q, 2, r / 16);
  }

  /** Bits 3 and 4 of u, added to bit 3 of v, do not see the tile index. */
  lemma BankDigits(x: nat, y: nat)
    ensures (y % 32 / 8 % 2 * 2 + x % 32 / 8) % 4 == (y / 8 % 2 * 2 + x / 8) % 4
  {
    LowEighths(x);
    LowBit3(y);
    ModSum(y / 8 % 2 * 2, x / 8);
  }

  lemma ModSum(a: nat, b: nat)
    ensures (a + b % 4) % 4 == (a + b) % 4
  {
  }

  /** The unswizzled offset without the masks of x and y. */
  lemma RawDigitsOf(m: nat, x: nat, y: nat, p: nat, macro: nat, micro: nat)
    requires macro == m * (128 * p) && micro == (x % 8 + y / 2 % 4 * 8) * p
    ensures Raw(m, x % 32, y % 32, p) == RawSum(macro, y / 8 % 2, micro, y % 2, p)
  {
    LowBits012(x);
    LowBits012(y);
    LowBit3(y);
    LowBits12(y);
  }

  lemma Pow2Table()
    ensures Pow2(1) == 2 && Pow2(2) == 4 && Pow2(3) == 8 && Pow2(4) == 16 && Pow2(6) == 64 && Pow2(7) == 128
  {
    assert Pow2(5) == 32;
  }

  lemma SwizzleTerms(o: u32, v4: nat, b: nat)
    requires v4 < 2 && b < 4 && o / 512 * 4096 < TWO32
    ensures Shl(o - o % 0x200, 3) == o / 512 * 4096 && Shl(o / 0x40 % 8 * 0x40, 2) == o / 64 % 8 * 256
    ensures Shl(v4 * 16, 7) == v4 * 2048 && Shl(b, 6) == b * 64
  {
    var q, r := o / 512, o / 0x40 % 8;
    Euclid(o, 512);
    Pow2Table();
    ShlFits(q * 512, 3, 8);
    ShlFits(r * 0x40, 2, 4);
    ShlFits(v4 * 16, 7, 128);
    ShlFits(b, 6, 64);
  }

  lemma Packed(o: u32, v4: nat, b: nat)
    requires v4 < 2 && b < 4 && Swizzle(o, v4, b) < TWO32
    ensures XGPack(o, v4, b) == Swizzle(o, v4, b)
  {
    SwizzleTerms(o, v4, b);
  }

  lemma MachineSwizzle(o: u32, x: u32, y: u32)
    requires Swizzle(o, y / 16 % 2, (y / 8 % 2 * 2 + x / 8) % 4) < TWO32
    ensures XGSwizzle(o, x, y) == Swizzle(o, y / 16 % 2, (y / 8 % 2 * 2 + x / 8) % 4)
  {
    Packed(o, y / 16 % 2, (y / 8 % 2 * 2 + x / 8) % 4);
  }

  lemma WrapFree(a: nat)
    requires a < TWO32
    ensures a % TWO32 == a
  {
  }

  /** The left shifts that build macro and micro lose nothing. */
  lemma MachineShifts(m: nat, x: u32, y: u32, p: nat, k: nat)
    requires IsPitch(p) && Pow2(k) == p && Pow2(k + 7) == 128 * p && (m + 1) * (128 * p) <= TWO32
    ensures m < TWO32 && Shl(m, k + 7) == m * (128 * p) && m * (128 * p) + 128 * p <= TWO32
    ensures var s := x % 8 + y / 2 % 4 * 8;
            Shl(x % 8 + Shl(y / 2 % 4 * 2, 2), k) == s * p && s * p < 32 * p
  {
    assert (m + 1) * (128 * p) == m * (128 * p) + 128 * p;
    assert m * (128 * p) >= m by { MulLe(1, 128 * p, m); }
    ShlFits(m, k + 7, 128 * p);
    ShlFits(y / 2 % 4 * 2, 2, 4) by { assert Pow2(2) == 4; }
    var s := x % 8 + y / 2 % 4 * 8;
    MulLe(s + 1, 32, p);
    ShlFits(s, k, p);
  }

  /** Below 32 bits, the offset of the source is the raw offset of the map. */
  lemma MachineRaw(m: nat, x: u32, y: u32, p: nat)
    requires IsPitch(p) && (m + 1) * (128 * p) <= TWO32
    ensures m < TWO32
    ensures XGUnswizzled(m, x, y, LogBpp(p)) == Raw(m, x % 32, y % 32, p)
  {
    LogBppIsLog(p);
    var macro, micro := Windows(m, x, y, p);
    Unswizzled(m, x, y, p, LogBpp(p), macro, micro);
    OffsetIsRaw(m, x, y, p, LogBpp(p), macro, micro);
  }

  lemma Windows(m: nat, x: u32, y: u32, p: nat) returns (macro: nat, micro: nat)
    requires IsPitch(p) && (m + 1) * (128 * p) <= TWO32
    ensures macro == m * (128 * p) && micro == (x % 8 + y / 2 % 4 * 8) * p
    ensures m < TWO32 && micro < 32 * p && macro + 128 * p <= TWO32
  {
    macro, micro := m * (128 * p), (x % 8 + y / 2 % 4 * 8) * p;
    MulLe(1, 128 * p, m);
    MulLe(x % 8 + y / 2 % 4 * 8 + 1, 32, p);
  }

  lemma OffsetIsRaw(m: nat, x: u32, y: u32, p: nat, k: nat, macro: u32, micro: u32)
    requires p > 0 && Pow2(3 + k) == 8 * p && macro == m * (128 * p) && micro == (x % 8 + y / 2 % 4 * 8) * p
    requires micro < 32 * p && macro + 128 * p <= TWO32
    ensures XGOffset(macro, micro, y, k) == Raw(m, x % 32, y % 32, p)
  {
    MachineOffset(macro, micro, y, p, k);
    RawDigitsOf(m, x, y, p, macro, micro);
  }

  lemma Unswizzled(m: nat, x: u32, y: u32, p: nat, k: nat, macro: nat, micro: nat)
    requires IsPitch(p) && Pow2(k) == p && Pow2(k + 7) == 128 * p && (m + 1) * (128 * p) <= TWO32
    requires macro == m * (128 * p) && micro == (x % 8 + y / 2 % 4 * 8) * p
    ensures m < TWO32 && macro < TWO32 && micro < TWO32 && XGUnswizzled(m, x, y, k) == XGOffset(macro, micro, y, k)
  {
    MachineShifts(m, x, y, p, k);
  }

  /** Below 32 bits, the return expression is the byte address. */
  lemma MachineByte(m: nat, x: u32, y: u32, p: nat)
    requires IsPitch(p) && Raw(m, x % 32, y % 32, p) < TWO32 && ByteAddress(m, x % 32, y % 32, p) < TWO32
    ensures XGSwizzle(Raw(m, x % 32, y % 32, p), x, y) == ByteAddress(m, x % 32, y % 32, p)
  {
    BankDigits(x, y);
    LowBit4(y);
    MachineSwizzle(Raw(m, x % 32, y % 32, p), x, y);
  }

  lemma PaddedBound(w: nat, h: nat, p: nat)
    ensures Tiles(w, h) * p * 1024 <= PaddedSize(w, h, p)
  {
    var n := Tiles(w, h) * p;
    assert n <= (n + 3) / 4 * 4;
  }

  /** A surface that fits leaves room for every intermediate value. */
  lemma FitsTile(m: nat, w: u32, h: u32, p: nat)
    requires Fits(w, h, p) && m < Tiles(w, h) && TilesAcross(w) <= Tiles(w, h)
    ensures (m + 1) * (128 * p) <= TWO32 && Align32(w) < TWO32
  {
    var tiles := Tiles(w, h);
    PaddedBound(w, h, p);
    MulLe(m + 1, tiles, 128 * p);
    assert tiles * (128 * p) == tiles * p * 128;
    MulLe(1, p, tiles);
  }

  lemma ShrExact(a: nat, k: nat, p: nat)
    requires Pow2(k) == p && a % p == 0
    ensures Shr(a, k) * p == a
  {
    Euclid(a, p);
    ShrMultiple(a / p, k);
  }

  lemma MachineSteps(m: nat, x: u32, y: u32, p: u32)
    requires IsPitch(p) && (m + 1) * (128 * p) <= TWO32 && ByteAddress(m, x % 32, y % 32, p) < TWO32
    ensures m < TWO32
    ensures XGSwizzle(XGUnswizzled(m, x, y, LogBpp(p)), x, y) == ByteAddress(m, x % 32, y % 32, p)
  {
    MachineRaw(m, x, y, p);
    RawBound(m, x % 32, y % 32, p);
    MachineByte(m, x, y, p);
  }

  lemma MachineTile(x: u32, y: u32, w: u32)
    requires Align32(w) < TWO32 && Tile32(x, y, w) < TWO32
    ensures XGTile(x, y, Align32(w)) == Tile32(x, y, w)
  {
  }

  lemma MachineCall(x: u32, y: u32, w: u32, p: u32, m: nat)
    requires Align32(w) < TWO32 && m == Tile32(x, y, w) && m < TWO32
    ensures XGAddress2DTiledOffset(x, y, w, p) == Shr(XGSwizzle(XGUnswizzled(m, x, y, LogBpp(p)), x, y), LogBpp(p))
  {
    MachineTile(x, y, w);
    assert Align32(w) % TWO32 == Align32(w);
  }

  lemma FitsAddress(m: nat, u: nat, v: nat, w: u32, h: u32, p: nat)
    requires Fits(w, h, p) && m < Tiles(w, h)
    ensures ByteAddress(m, u, v, p) + p <= PaddedSize(w, h, p)
  {
    Bounds(m, u, v, p, Tiles(w, h));
  }

  /** Under Fits no step of XGAddress2DTiledOffset wraps, and it returns the address in units of p. */
  lemma MachineAddress(x: u32, y: u32, w: u32, h: u32, p: u32)
    requires Fits(w, h, p) && x < Align32(w) && y < Align32(h)
    ensures TiledByte(x, y, w, p) == ByteAddress(Tile32(x, y, w), x % 32, y % 32, p)
  {
    var m := Tile32(x, y, w);
    TileInSurface(x, y, w, h);
    FitsTile(m, w, h, p);
    FitsAddress(m, x % 32, y % 32, w, h, p);
    MachineSteps(m, x, y, p);
    MachineCall(x, y, w, p, m);
    MultipleOfPitch(m, x % 32, y % 32, p);
    LogBppIsLog(p);
    ShrExact(ByteAddress(m, x % 32, y % 32, p), LogBpp(p), p);
  }

  // ---- the address map of a surface --------------------------------------------------------------

  datatype Coord = Coord(x: nat, y: nat)

  /** Texel (u, v) of a tile, on a surface mw tiles wide. */
  function Place(tile: nat, u: nat, v: nat, mw: nat): Coord
    requires mw > 0
  {
    Coord(tile % mw * 32 + u, tile / mw * 32 + v)
  }

  /** The block stored at byte address a: computed from the address alone. */
  function Locate(a: nat, w: nat, p: nat): Coord
    requires IsPitch(p) && w > 0
  {
    var t := TexelAt(a, p);
    Place(t.tile, t.u, t.v, TilesAcross(w))
  }

  lemma PlaceTile(x: nat, y: nat, w: nat, h: nat)
    requires w > 0 && x < Align32(w) && y < Align32(h)
    ensures Place(Tile32(x, y, w), x % 32, y % 32, TilesAcross(w)) == Coord(x, y)
  {
    TileInSurface(x, y, w, h);
  }

  lemma LocateByte(x: nat, y: nat, w: nat, p: nat, a: nat)
    requires IsPitch(p) && w > 0 && x < Align32(w) && a == ByteAddress(Tile32(x, y, w), x % 32, y % 32, p)
    ensures Locate(a, w, p) == Coord(x, y)
  {
    TexelAtByteAddress(Tile32(x, y, w), x % 32, y % 32, p);
    PlaceTile(x, y, w, y + 1);
  }

  /** Every block is found again from its address. */
  lemma LocateAddress(x: u32, y: u32, w: u32, h: u32, p: u32)
    requires Fits(w, h, p) && w > 0 && x < Align32(w) && y < Align32(h)
    ensures Locate(TiledByte(x, y, w, p), w, p) == Coord(x, y)
  {
    MachineAddress(x, y, w, h, p);
    LocateByte(x, y, w, p, TiledByte(x, y, w, p));
  }

  /** Every block ends inside the surface size rounded up to 4 KiB. */
  lemma AddressInPadded(x: u32, y: u32, w: u32, h: u32, p: u32)
    requires Fits(w, h, p) && x < Align32(w) && y < Align32(h)
    ensures TiledByte(x, y, w, p) + p <= PaddedSize(w, h, p)
  {
    MachineAddress(x, y, w, h, p);
    TileInSurface(x, y, w, h);
    FitsAddress(Tile32(x, y, w), x % 32, y % 32, w, h, p);
  }

  /** No two blocks of the padded surface share an address. */
  lemma AddressInjective(x: u32, y: u32, x': u32, y': u32, w: u32, h: u32, p: u32)
    requires Fits(w, h, p) && w > 0 && x < Align32(w) && y < Align32(h) && x' < Align32(w) && y' < Align32(h)
    requires TiledByte(x, y, w, p) == TiledByte(x', y', w, p)
    ensures x == x' && y == y'
  {
    LocateAddress(x, y, w, h, p);
    LocateAddress(x', y', w, h, p);
  }

  lemma TileOfRaw(o: nat, p: nat, tiles: nat)
    requires p > 0 && o < tiles * p * 128
    ensures o / (128 * p) < tiles
  {
    Euclid(o, 128 * p);
    var q := o / (128 * p);
    assert tiles * (128 * p) == tiles * p * 128;
    if q >= tiles {
      MulLe(tiles, q, 128 * p);
    }
  }

  lemma RawAtBound(a: nat, n: nat)
    requires n % 4 == 0 && a < n / 4 * 4096
    ensures RawAt(a) < n * 128
  {
    var h := a / 4096;
    assert h + 1 <= n / 4 && n / 4 * 512 == n * 128;
  }

  lemma TexelInSurface(a: nat, w: nat, h: nat, p: nat)
    requires IsPitch(p) && Tiles(w, h) * p % 4 == 0 && a < PaddedSize(w, h, p)
    ensures TexelAt(a, p).tile < Tiles(w, h)
  {
    var n := Tiles(w, h) * p;
    assert (n + 3) / 4 == n / 4;
    RawAtBound(a, n);
    TileOfRaw(RawAt(a), p, Tiles(w, h));
  }

  /** A texel of a tile of the surface has coordinates in the surface, and they lead back to it. */
  lemma PlacedTile(m: nat, u: nat, v: nat, w: nat, h: nat)
    requires w > 0 && m < Tiles(w, h) && u < 32 && v < 32
    ensures var c := Place(m, u, v, TilesAcross(w));
            && c.x < Align32(w) && c.y < Align32(h) && c.x % 32 == u && c.y % 32 == v && Tile32(c.x, c.y, w) == m
  {
    var mw := TilesAcross(w);
    Euclid(m, mw);
    LocateTile(m, mw, TilesAcross(h));
    DivMod(m % mw, 32, u);
    DivMod(m / mw, 32, v);
  }

  lemma LocateTile(m: nat, mw: nat, mh: nat)
    requires m < mw * mh && mw > 0
    ensures m % mw < mw && m / mw < mh
  {
    Euclid(m, mw);
    if m / mw >= mh {
      MulLe(mh, m / mw, mw);
    }
  }

  lemma FitsWords(w: u32, h: u32, p: u32)
    requires Fits(w, h, p) && w > 0 && h > 0
    ensures Align32(w) < TWO32 && Align32(h) < TWO32
  {
    PaddedBound(w, h, p);
    MulLe(1, p, Tiles(w, h));
    MulLe(1, TilesAcross(w), TilesAcross(h));
    MulLe(1, TilesAcross(h), TilesAcross(w));
  }

  /** On a surface filling whole 4 KiB pages every multiple of the pitch is the address of a block. */
  lemma AddressOnto(a: nat, w: u32, h: u32, p: u32)
    requires Fits(w, h, p) && w > 0 && h > 0 && Tiles(w, h) * p % 4 == 0 && a % p == 0 && a < PaddedSize(w, h, p)
    ensures var c := Locate(a, w, p);
            && c.x < Align32(w) < TWO32 && c.y < Align32(h) < TWO32 && TiledByte(c.x, c.y, w, p) == a
  {
    var t, c := TexelAt(a, p), Locate(a, w, p);
    ByteAddressOfTexel(a, p);
    TexelInSurface(a, w, h, p);
    PlacedTile(t.tile, t.u, t.v, w, h);
    FitsWords(w, h, p);
    MachineAddress(c.x, c.y, w, h, p);
  }

  // ---- TiledSizeBytes itself ---------------------------------------------------------------------

  /** Texel (u, v) of tile m lies past the end of TiledSizeBytes: the last page is incomplete, bit 4
      of v is set, and so the texel is in the upper half of that page. */
  predicate Spills(m: nat, v: nat, tiles: nat, p: nat) {
    var n := tiles * p;
    n % 4 != 0 && v / 16 % 2 == 1 && m * p >= n / 4 * 4 + (if n % 4 == 3 then 2 else 0)
  }

  lemma SizeBytes(w: u32, h: u32, p: u32)
    requires Fits(w, h, p) && w > 0 && h > 0
    ensures TiledSizeBytes(w, h, p) == Tiles(w, h) * p * 1024
  {
    FitsWords(w, h, p);
    PaddedBound(w, h, p);
    MulLe(1, p, Tiles(w, h));
    TilesArea(w, h);
    NoWrap(Align32(w), Align32(h), Tiles(w, h), p);
  }

  lemma TilesArea(w: nat, h: nat)
    ensures Align32(w) * Align32(h) == Tiles(w, h) * 1024
  {
  }

  lemma NoWrap(aw: u32, ah: u32, t: nat, p: nat)
    requires aw * ah == t * 1024 && t * p * 1024 < TWO32 && t <= t * p
    ensures (aw % TWO32) * (ah % TWO32) % TWO32 * p % TWO32 == t * p * 1024
  {
    assert aw * ah % TWO32 == t * 1024;
    assert t * 1024 * p == t * p * 1024;
  }

  lemma SpillIff(o: nat, mp: nat, v4: nat, b: nat, q: nat, r: nat, p: nat)
    requires p == 1 || p == 2
    requires 1 <= r <= 3 && (4 * q + r) % p == 0 && mp % p == 0 && mp < 4 * q + r && v4 < 2 && b < 4
    requires mp * 128 <= o < (mp + p) * 128
    ensures Swizzle(o, v4, b) < (4 * q + r) * 1024 <==> !(v4 == 1 && mp >= q * 4 + (if r == 3 then 2 else 0))
  {
    WholePitches(mp, q, r, p);
    if mp < q * 4 {
      SwizzleBound(o, v4, b, q * 4);
      DivMod(q, 4, 3);
    } else {
      LastPage(o - 512 * q, q, v4, b, r);
    }
  }

  lemma WholePitches(mp: nat, q: nat, r: nat, p: nat)
    requires (p == 1 || p == 2) && mp % p == 0 && (4 * q + r) % p == 0 && mp < 4 * q + r
    ensures mp + p <= 4 * q + r && (mp < q * 4 ==> mp + p <= q * 4) && (r == 3 ==> p == 1)
  {
    if p == 2 {
      Euclid(mp, 2);
      Euclid(4 * q + r, 2);
      EvenSteps(mp / 2, 2 * q, r, (4 * q + r) / 2);
    }
  }

  lemma EvenSteps(a: nat, q: nat, r: nat, n: nat)
    requires 2 * q + r == 2 * n && 2 * a < 2 * n
    ensures 2 * a + 2 <= 2 * n && (a < q ==> 2 * a + 2 <= 2 * q) && r != 3
  {
  }

  /** Within the last page, c bytes of raw offset in: what bit 4 of v decides. */
  lemma LastPage(c: nat, q: nat, v4: nat, b: nat, r: nat)
    requires 1 <= r <= 3 && c < r * 128 && v4 < 2 && b < 4
    ensures Swizzle(q * 512 + c, v4, b) < (4 * q + r) * 1024 <==> !(v4 == 1 && (r == 3 ==> c >= 256))
  {
    DivMod(q, 512, c);
    DivMod(8 * q + c / 64, 64, c % 64);
    DivMod(q, 8, c / 64);
  }

  lemma EndsBefore(a: nat, p: nat, n: nat)
    requires (p == 1 || p == 2) && a % p == 0
    ensures a + p <= n * 1024 <==> a < n * 1024
  {
    if p == 2 {
      assert a == a / 2 * 2;
    }
  }

  lemma PartialPage(m: nat, u: nat, v: nat, t: nat, p: nat)
    requires IsPitch(p) && m < t && t * p % 4 != 0
    ensures ByteAddress(m, u, v, p) + p <= t * p * 1024 <==> !Spills(m, v, t, p)
  {
    var n := t * p;
    PitchOfPartialPage(t, p);
    RawBound(m, u, v, p);
    TilePages(m, t, p);
    DivMod(m, p, 0);
    assert (m + 1) * p * 128 == (m * p + p) * 128;
    Euclid(n, 4);
    SpillIff(Raw(m, u, v, p), m * p, v / 16 % 2, (v / 8 % 2 * 2 + u / 8) % 4, n / 4, n % 4, p);
    MultipleOfPitch(m, u, v, p);
    EndsBefore(ByteAddress(m, u, v, p), p, n);
  }

  lemma ByteInSize(m: nat, u: nat, y: nat, t: nat, p: nat)
    requires IsPitch(p) && m < t
    ensures ByteAddress(m, u, y % 32, p) + p <= t * p * 1024 <==> !Spills(m, y, t, p)
  {
    if t * p % 4 == 0 {
      WholePages(t * p);
      Bounds(m, u, y % 32, p, t);
    } else {
      PartialPage(m, u, y % 32, t, p);
      LowBit4(y);
    }
  }

  /** A block of the padded surface stays inside TiledSizeBytes exactly when it does not spill. */
  lemma InTiledSize(x: u32, y: u32, w: u32, h: u32, p: u32)
    requires Fits(w, h, p) && w > 0 && h > 0 && x < Align32(w) && y < Align32(h)
    ensures TiledByte(x, y, w, p) + p <= TiledSizeBytes(w, h, p)
            <==> !Spills(Tile32(x, y, w), y, Tiles(w, h), p)
  {
    SizeBytes(w, h, p);
    MachineAddress(x, y, w, h, p);
    TileInSurface(x, y, w, h);
    ByteInSize(Tile32(x, y, w), x % 32, y, Tiles(w, h), p);
  }

  lemma WholePages(n: nat)
    requires n % 4 == 0
    ensures (n + 3) / 4 * 4096 == n * 1024
  {
  }

  lemma FourDivides(t: nat, p: nat)
    requires IsPitch(p) && p >= 4
    ensures t * p % 4 == 0
  {
    assert t * p == t * (p / 4) * 4;
    DivMod(t * (p / 4), 4, 0);
  }

  lemma PitchOfPartialPage(t: nat, p: nat)
    requires IsPitch(p) && t * p % 4 != 0
    ensures p == 1 || p == 2
    ensures t * p % p == 0
  {
    DivMod(t, p, 0);
    if p >= 4 {
      FourDivides(t, p);
    }
  }

  lemma TilePages(m: nat, t: nat, p: nat)
    requires m < t && p > 0
    ensures m * p < t * p && m * (128 * p) == m * p * 128 && (m + 1) * (128 * p) == (m + 1) * p * 128
  {
    MulLe(m + 1, t, p);
  }

  /** Surfaces whose every block stays inside TiledSizeBytes: whole 4 KiB pages, or a last tile row
      that never reaches the upper half of its page. */
  predicate StaysInTiledSize(w: nat, h: nat, p: nat) {
    || Tiles(w, h) * p % 4 == 0
    || (1 <= h % 32 <= 16 && !(p == 1 && Tiles(w, h) % 4 == 2 && TilesAcross(w) == 1))
  }

  /** TiledSizeBytes bounds the whole surface exactly under StaysInTiledSize. */
  lemma TiledSizeExact(w: u32, h: u32, p: u32)
    requires Fits(w, h, p) && w > 0 && h > 0
    ensures StaysInTiledSize(w, h, p)
            <==> forall x: u32, y: u32 :: x < w && y < h ==>
                   TiledByte(x, y, w, p) + p <= TiledSizeBytes(w, h, p)
  {
    if StaysInTiledSize(w, h, p) {
      forall x: u32, y: u32 | x < w && y < h
        ensures TiledByte(x, y, w, p) + p <= TiledSizeBytes(w, h, p)
      {
        NoSpill(x, y, w, h, p);
        InTiledSize(x, y, w, h, p);
      }
    } else {
      var x, y := SpillingBlock(w, h, p);
      InTiledSize(x, y, w, h, p);
    }
  }

  lemma LastRow(y: nat, h: nat)
    requires y < h && 1 <= h % 32 <= 16 && y / 16 % 2 == 1
    ensures y / 32 + 2 <= TilesAcross(h)
  {
    LowBit4(y);
    assert y % 32 >= 16;
  }

  lemma NoSpill(x: u32, y: u32, w: u32, h: u32, p: u32)
    requires IsPitch(p) && w > 0 && h > 0 && StaysInTiledSize(w, h, p) && x < w && y < h
    ensures !Spills(Tile32(x, y, w), y, Tiles(w, h), p)
  {
    var mw, mh := TilesAcross(w), TilesAcross(h);
    if mw * mh * p % 4 != 0 && y / 16 % 2 == 1 {
      PitchOfPartialPage(mw * mh, p);
      LastRow(y, h);
      EarlierRow(x / 32, y / 32, mw, mh);
      BelowLastPage(Tile32(x, y, w), mw, mw * mh, p);
    }
  }

  lemma EarlierRow(tx: nat, ty: nat, mw: nat, mh: nat)
    requires tx < mw && ty + 2 <= mh
    ensures tx + ty * mw + 1 + mw <= mw * mh
  {
    MulLe(ty + 2, mh, mw);
    assert (ty + 2) * mw == ty * mw + 2 * mw;
  }

  lemma BelowLastPage(m: nat, mw: nat, t: nat, p: nat)
    requires (p == 1 || p == 2) && t * p % 4 != 0 && mw >= 1 && m + 1 + mw <= t
    requires !(p == 1 && t % 4 == 2 && mw == 1)
    ensures m * p < t * p / 4 * 4 + (if t * p % 4 == 3 then 2 else 0)
  {
    if p == 1 {} else {}
  }

  /** Outside StaysInTiledSize some block of the surface spills. */
  lemma SpillingBlock(w: u32, h: u32, p: u32) returns (x: u32, y: u32)
    requires IsPitch(p) && w > 0 && h > 0 && !StaysInTiledSize(w, h, p)
    ensures x < w && y < h && Spills(Tile32(x, y, w), y, Tiles(w, h), p)
  {
    LastRows(h);
    LastRows(w);
    if 1 <= h % 32 <= 16 {
      OneColumn(w, h, p);
      x, y := 0, (TilesAcross(h) - 2) * 32 + 16;
      SpillsAbove(w, h, p);
    } else {
      x, y := (TilesAcross(w) - 1) * 32, (TilesAcross(h) - 1) * 32 + 16;
      SpillsLast(w, h, p);
    }
  }

  lemma LastRows(h: nat)
    ensures h > 0 ==> (TilesAcross(h) - 2) * 32 + 16 < h
    ensures !(1 <= h % 32 <= 16) && h > 0 ==> (TilesAcross(h) - 1) * 32 + 16 < h
    ensures h > 0 ==> (TilesAcross(h) - 1) * 32 < h
  {
    Euclid(h, 32);
  }

  lemma OneColumn(w: nat, h: nat, p: nat)
    requires !StaysInTiledSize(w, h, p) && 1 <= h % 32 <= 16
    ensures p == 1 && TilesAcross(w) == 1 && TilesAcross(h) % 4 == 2
  {
  }

  lemma SpillsAbove(w: nat, h: nat, p: nat)
    requires p == 1 && TilesAcross(w) == 1 && TilesAcross(h) % 4 == 2
    ensures Spills(Tile32(0, (TilesAcross(h) - 2) * 32 + 16, w), (TilesAcross(h) - 2) * 32 + 16, Tiles(w, h), p)
  {
    RowAbove(TilesAcross(h) - 2);
  }

  lemma SpillsLast(w: nat, h: nat, p: nat)
    requires IsPitch(p) && w > 0 && h > 0 && Tiles(w, h) * p % 4 != 0
    ensures var x, y := (TilesAcross(w) - 1) * 32, (TilesAcross(h) - 1) * 32 + 16;
            Spills(Tile32(x, y, w), y, Tiles(w, h), p)
  {
    var mw, mh := TilesAcross(w), TilesAcross(h);
    PitchOfPartialPage(mw * mh, p);
    RowAbove(mh - 1);
    LastTile(mw, mh);
    LastTilePage(mw * mh, p);
  }

  lemma RowAbove(t: nat)
    ensures (t * 32 + 16) / 32 == t && (t * 32 + 16) / 16 % 2 == 1
  {
    DivMod(t, 32, 16);
    DivMod(2 * t + 1, 16, 0);
  }

  lemma LastTile(mw: nat, mh: nat)
    requires mw > 0 && mh > 0
    ensures (mw - 1) * 32 / 32 + ((mh - 1) * 32 + 16) / 32 * mw == mw * mh - 1
  {
    assert (mh - 1) * mw == mw * mh - mw;
  }

  lemma LastTilePage(t: nat, p: nat)
    requires (p == 1 || p == 2) && t > 0 && t * p % 4 != 0
    ensures (t - 1) * p >= t * p / 4 * 4 + (if t * p % 4 == 3 then 2 else 0)
  {
    if p == 1 {} else {}
  }

  /** A 32x32 surface of one-byte texels: texel (0, 16) is stored past the end of TiledSizeBytes. */
  lemma OneTileSpills(w: u32, y: u32, p: u32)
    requires w == 32 && y == 16 && p == 1
    ensures TiledByte(0, y, w, p) + p > TiledSizeBytes(w, w, p)
  {
    OneTile(w, y, p);
    InTiledSize(0, y, w, w, p);
  }

  lemma OneTile(w: u32, y: u32, p: u32)
    requires w == 32 && y == 16 && p == 1
    ensures Fits(w, w, p) && 0 < Align32(w) && y < Align32(w) && Spills(Tile32(0, y, w), y, Tiles(w, w), p)
  {
    assert TilesAcross(w) == 1;
    assert Tiles(w, w) == 1 && Tile32(0, y, w) == 0;
  }
}
