/**
 * What a decoded texture shows, told from the bytes of its data (varianta/runtime/rex_texture.h:113-257).
 */
module ColourLaws {
  import opened Words
  import opened Tiling
  import opened Surfaces
  import opened Codec
  import opened Decoder

  const GREY: Rgba := Rgba(128, 128, 128, 255)

  /** Four bytes as a number, the first one lowest. */
  function Number(b0: int, b1: int, b2: int, b3: int): int {
    b0 + 0x100 * b1 + 0x1_0000 * b2 + 0x100_0000 * b3
  }

  /** v is field / m on the scale of 0 to 255, rounded down. */
  predicate Scaled(v: byte, field: int, m: nat) {
    m * v <= 255 * field < m * (v + 1)
  }

  /** c is the 5_6_5 colour n: red in the high bits. */
  predicate Shows565(c: Rgba, n: int) {
    Scaled(c.r, n / 0x800, 31) && Scaled(c.g, n / 0x20 % 0x40, 63) && Scaled(c.b, n % 0x20, 31) && c.a == 255
  }

  /** c is two parts p and one part q. */
  predicate Nearer(c: Rgba, p: Rgba, q: Rgba) {
    && 3 * c.r <= 2 * p.r + q.r < 3 * (c.r + 1)
    && 3 * c.g <= 2 * p.g + q.g < 3 * (c.g + 1)
    && 3 * c.b <= 2 * p.b + q.b < 3 * (c.b + 1)
    && c.a == 255
  }

  /** c is halfway between p and q. */
  predicate Midway(c: Rgba, p: Rgba, q: Rgba) {
    && 2 * c.r <= p.r + q.r < 2 * (c.r + 1)
    && 2 * c.g <= p.g + q.g < 2 * (c.g + 1)
    && 2 * c.b <= p.b + q.b < 2 * (c.b + 1)
    && c.a == 255
  }

  // ---- uncompressed texels -----------------------------------------------------------------------

  /** c is the colour of the texel with bytes s, by the number of the format. */
  predicate TexelShows(c: Rgba, s: seq<byte>, fmt: nat) {
    if fmt == 2 then |s| == 1 && c == Rgba(s[0], s[0], s[0], 255)
    else if fmt == 3 then |s| == 2 && Shows1555(c, Number(s[0], s[1], 0, 0))
    else if fmt == 4 then |s| == 2 && Shows565(c, Number(s[0], s[1], 0, 0))
    else if fmt == 5 then |s| == 2 && c == GREY
    else if fmt == 6 then
      |s| == 4 && Number(c.b, c.g, c.r, c.a) == Number(s[0], s[1], s[2], s[3])
    else if fmt == 7 then |s| == 4 && c == GREY
    else if fmt == 10 then |s| == 2 && c == Rgba(s[0], s[1], 0, 255)
    else fmt == 15 && |s| == 2 && Shows4444(c, Number(s[0], s[1], 0, 0))
  }

  predicate Shows1555(c: Rgba, n: int) {
    && Scaled(c.r, n / 0x400 % 0x20, 31) && Scaled(c.g, n / 0x20 % 0x20, 31) && Scaled(c.b, n % 0x20, 31)
    && c.a == if n >= 0x8000 then 255 else 0
  }

  predicate Shows4444(c: Rgba, n: int) {
    && Scaled(c.r, n / 0x100 % 0x10, 15) && Scaled(c.g, n / 0x10 % 0x10, 15) && Scaled(c.b, n % 0x10, 15)
    && Scaled(c.a, n / 0x1000, 15)
  }

  /** Every texel of an uncompressed format is shown in its colour. */
  lemma TexelLaw(s: seq<byte>, fmt: nat)
    requires !IsCompressed(fmt) && |s| == BytesPerBlock(fmt) && |s| > 0
    ensures TexelShows(ConvUncompressed(s, fmt), s, fmt)
  {
    if fmt == 3 || fmt == 4 || fmt == 15 {
      var n := Number(s[0], s[1], 0, 0);
      assert n == Word(s[0], s[1]) && 0 <= n < 0x1_0000;
      if fmt == 3 { Law1555(ConvUncompressed(s, fmt), n); }
      else if fmt == 4 { Law565(n); }
      else { Law4444(ConvUncompressed(s, fmt), n); }
    }
  }

  lemma Law565(n: nat)
    requires n < 0x1_0000
    ensures Shows565(Rgb565(n), n)
  {
    HighField(n);
    RoundedDown(n / 0x800, 31);
    RoundedDown(n / 0x20 % 0x40, 63);
    RoundedDown(n % 0x20, 31);
  }

  lemma HighField(n: nat)
    requires n < 0x1_0000
    ensures n / 2048 % 32 == n / 2048 < 32
  {
  }

  lemma RoundedDown(field: nat, m: nat)
    requires field <= m && (m == 31 || m == 63)
    ensures field * 255 / m <= 255 && Scaled(field * 255 / m, field, m)
  {
  }

  lemma Law1555(c: Rgba, n: nat)
    requires n < 0x1_0000
    requires c == Rgba(n / 1024 % 32 * 255 / 31, n / 32 % 32 * 255 / 31, n % 32 * 255 / 31, if n >= 0x8000 then 255 else 0)
    ensures Shows1555(c, n)
  {
    RoundedDown(n / 1024 % 32, 31);
    RoundedDown(n / 32 % 32, 31);
    RoundedDown(n % 32, 31);
  }

  lemma Law4444(c: Rgba, n: nat)
    requires n < 0x1_0000
    requires c == Rgba(n / 256 % 16 * 17, n / 16 % 16 * 17, n % 16 * 17, n / 4096 % 16 * 17)
    ensures Shows4444(c, n)
  {
  }

  /** A colour of format 8_8_8_8 is read back from its number, alpha in the high byte and blue in the low. */
  lemma PackedColour(c: Rgba, s: seq<byte>)
    requires |s| == 4
    requires Number(s[0], s[1], s[2], s[3]) == Number(c.b, c.g, c.r, c.a)
    ensures ConvUncompressed(s, 6) == c
  {
    SameBytes(s[0], s[1], s[2], s[3], c.b, c.g, c.r, c.a);
  }

  lemma SameBytes(a: byte, b: byte, c: byte, d: byte, a': byte, b': byte, c': byte, d': byte)
    requires Number(a, b, c, d) == Number(a', b', c', d')
    ensures a == a' && b == b' && c == c' && d == d'
  {
  }

  // ---- compressed blocks -------------------------------------------------------------------------

  /** Bit n of a byte string, the lowest bit of a byte first. */
  function Bit(b: seq<byte>, n: nat): nat
    requires n / 8 < |b|
  {
    b[n / 8] / Pow2(n % 8) % 2
  }

  lemma {:induction false} ShrSum(a: nat, j: nat, k: nat)
    ensures Shr(a, j + k) == Shr(Shr(a, j), k)
  {
    if j > 0 { ShrSum(a / 2, j - 1, k); }
  }

  lemma {:induction false} PowSum(j: nat, k: nat)
    ensures Pow2(j + k) == Pow2(j) * Pow2(k)
  {
    if j > 0 {
      PowSum(j - 1, k);
      var a, b := Pow2(j - 1), Pow2(k);
      assert 2 * (a * b) == (2 * a) * b;
    }
  }

  /** Shifting out what lies below a multiple of 2^k. */
  lemma {:induction false} ShrPart(x: nat, m: nat, k: nat)
    ensures Shr(x + Pow2(k) * m, k) == x / Pow2(k) + m
  {
    if k > 0 {
      var h := Pow2(k - 1);
      Twice(x, m, Pow2(k), h);
      ShrPart(x / 2, m, k - 1);
      ShrStep(x + Pow2(k) * m, x / 2 + h * m, k);
    }
  }

  lemma ShrStep(t: nat, h: nat, k: nat)
    requires k > 0 && h == t / 2
    ensures Shr(t, k) == Shr(h, k - 1)
  {
  }

  lemma Twice(x: nat, m: nat, p: nat, h: nat)
    requires h > 0 && p == 2 * h
    ensures (x + p * m) / 2 == x / 2 + h * m && x / p == x / 2 / h
  {
    var n := h * m;
    assert p * m == 2 * n;
    Euclid(x / 2, h);
    var q := x / 2 / h;
    assert x / 2 == q * h + x / 2 % h && q * p == 2 * (q * h);
    DivMod(q, p, x - q * p);
  }

  lemma BitOfByte(x: byte, m: nat, r: nat)
    requires r < 8
    ensures Shr(x + 256 * m, r) % 2 == x / Pow2(r) % 2
  {
    PowSum(r, 8 - r);
    var p, h := Pow2(r), Pow2(7 - r);
    assert Pow2(8) == 256 && Pow2(8 - r) == 2 * h;
    Shared(p, h, m);
    ShrPart(x, 2 * (h * m), r);
  }

  lemma Shared(p: nat, h: nat, m: nat)
    requires p * (2 * h) == 256
    ensures 256 * m == p * (2 * (h * m))
  {
    assert p * (2 * h) * m == p * (2 * h * m);
    assert 2 * h * m == 2 * (h * m);
  }

  lemma NextByte(x: byte, m: nat, n: nat)
    ensures Shr(x + 256 * m, 8 + n) == Shr(m, n)
  {
    ShrSum(x + 256 * m, 8, n);
    EightHalvings();
    ShrPart(x, m, 8);
  }

  lemma EightHalvings()
    ensures Pow2(8) == 256
  {
    assert Pow2(8) == 4 * Pow2(6) == 16 * Pow2(4) == 64 * Pow2(2);
  }

  /** The shifts of a little-endian number read the bits of its bytes. */
  lemma {:induction false} BitOfNumber(s: seq<byte>, q: nat, r: nat)
    requires q < |s| && r < 8
    ensures Shr(LittleEndian(s), 8 * q + r) % 2 == s[q] / Pow2(r) % 2
  {
    var rest := s[1..];
    if q == 0 {
      BitOfByte(s[0], LittleEndian(rest), r);
    } else {
      NextByte(s[0], LittleEndian(rest), 8 * (q - 1) + r);
      BitOfNumber(rest, q - 1, r);
    }
  }

  /** Bit k of a shifted number is bit n + k of the number. */
  lemma Bits(s: seq<byte>, n: nat, k: nat)
    requires (n + k) / 8 < |s|
    ensures Shr(Shr(LittleEndian(s), n), k) % 2 == Bit(s, n + k)
  {
    ShrSum(LittleEndian(s), n, k);
    Euclid(n + k, 8);
    BitOfNumber(s, (n + k) / 8, (n + k) % 8);
  }

  lemma TwoDigits(a: nat, x: nat, y: nat)
    requires Shr(a, 0) % 2 == x && Shr(a, 1) % 2 == y
    ensures a % 4 == x + 2 * y
  {
    assert Shr(a, 1) == a / 2;
  }

  lemma FourDigits(a: nat, x: nat, y: nat, z: nat, v: nat)
    requires Shr(a, 0) % 2 == x && Shr(a, 1) % 2 == y && Shr(a, 2) % 2 == z && Shr(a, 3) % 2 == v
    ensures a % 8 == x + 2 * y + 4 * z && a % 16 == x + 2 * y + 4 * z + 8 * v
  {
    var h := a / 2;
    var q := h / 2;
    var e := q / 2;
    assert Shr(a, 1) == Shr(h, 0);
    assert Shr(a, 2) == Shr(h, 1) == Shr(q, 0);
    assert Shr(a, 3) == Shr(h, 2) == Shr(q, 1) == Shr(e, 0);
    Halvings(a, h, q, e, e / 2, x, y, z, v);
  }

  lemma Halvings(a: nat, h: nat, q: nat, e: nat, f: nat, x: nat, y: nat, z: nat, v: nat)
    requires a == 2 * h + x && h == 2 * q + y && q == 2 * e + z && e == 2 * f + v
    requires x < 2 && y < 2 && z < 2 && v < 2
    ensures a % 8 == x + 2 * y + 4 * z && a % 16 == x + 2 * y + 4 * z + 8 * v
  {
    DivMod(e, 8, x + 2 * y + 4 * z);
    DivMod(f, 16, x + 2 * y + 4 * z + 8 * v);
  }

  lemma TwoBits(s: seq<byte>, n: nat)
    requires (n + 1) / 8 < |s|
    ensures Shr(LittleEndian(s), n) % 4 == Bit(s, n) + 2 * Bit(s, n + 1)
  {
    Bits(s, n, 0);
    Bits(s, n, 1);
    TwoDigits(Shr(LittleEndian(s), n), Bit(s, n), Bit(s, n + 1));
  }

  lemma ThreeBits(s: seq<byte>, n: nat)
    requires (n + 2) / 8 < |s|
    ensures Shr(LittleEndian(s), n) % 8 == Bit(s, n) + 2 * Bit(s, n + 1) + 4 * Bit(s, n + 2)
  {
    Bits(s, n, 0);
    Bits(s, n, 1);
    Bits(s, n, 2);
    var a := Shr(LittleEndian(s), n);
    FourDigits(a, Bit(s, n), Bit(s, n + 1), Bit(s, n + 2), Shr(a, 3) % 2);
  }

  lemma FourBits(s: seq<byte>, n: nat)
    requires (n + 3) / 8 < |s|
    ensures Shr(LittleEndian(s), n) % 16 == Bit(s, n) + 2 * Bit(s, n + 1) + 4 * Bit(s, n + 2) + 8 * Bit(s, n + 3)
  {
    Bits(s, n, 0);
    Bits(s, n, 1);
    Bits(s, n, 2);
    Bits(s, n, 3);
    FourDigits(Shr(LittleEndian(s), n), Bit(s, n), Bit(s, n + 1), Bit(s, n + 2), Bit(s, n + 3));
  }

  /** The colour that index n of a block selects: p and q are its ends, `three` says that it is in three-colour mode. */
  predicate Selected(c: Rgba, n: nat, p: Rgba, q: Rgba, three: bool) {
    if n == 0 then c == p
    else if n == 1 then c == q
    else if n == 2 then if three then Midway(c, p, q) else Nearer(c, p, q)
    else if three then c == Rgba(0, 0, 0, 0) else Nearer(c, q, p)
  }

  /** Texel i of the colour block b with the ends p and q. */
  predicate BlockShows(c: Rgba, b: seq<byte>, i: nat, p: Rgba, q: Rgba, punchAlpha: bool)
    requires |b| == 8 && i < 16
  {
    Selected(c, Bit(b, 32 + 2 * i) + 2 * Bit(b, 33 + 2 * i), p, q,
             punchAlpha && Number(b[0], b[1], 0, 0) <= Number(b[2], b[3], 0, 0))
  }

  /** The two ends of the colour block b. */
  predicate Ends(b: seq<byte>, p: Rgba, q: Rgba)
    requires |b| == 8
  {
    Shows565(p, Number(b[0], b[1], 0, 0)) && Shows565(q, Number(b[2], b[3], 0, 0))
  }

  lemma OneScale(v: byte, w: byte, field: int, m: nat)
    requires (m == 31 || m == 63) && Scaled(v, field, m) && Scaled(w, field, m)
    ensures v == w
  {
  }

  lemma One565(c: Rgba, n: nat)
    requires n < 0x1_0000 && Shows565(c, n)
    ensures c == Rgb565(n)
  {
    Law565(n);
    OneScale(c.r, Rgb565(n).r, n / 0x800, 31);
    OneScale(c.g, Rgb565(n).g, n / 0x20 % 0x40, 63);
    OneScale(c.b, Rgb565(n).b, n % 0x20, 31);
  }

  lemma PaletteLaw(c0: nat, c1: nat, n: nat, p: Rgba, q: Rgba, punchAlpha: bool)
    requires p == Rgb565(c0) && q == Rgb565(c1) && n < 4
    ensures Selected(BC1Palette(c0, c1, punchAlpha)[n], n, p, q, punchAlpha && c0 <= c1)
  {
  }

  lemma IndexLaw(b: seq<byte>, i: nat)
    requires |b| == 8 && i < 16
    ensures Shr(LittleEndian(b[4..8]), i * 2) % 4 == Bit(b, 32 + 2 * i) + 2 * Bit(b, 33 + 2 * i)
  {
    var s := b[4..8];
    TwoBits(s, 2 * i);
    BitIn(b, 4, 8, 2 * i);
    BitIn(b, 4, 8, 2 * i + 1);
  }

  lemma BitIn(b: seq<byte>, from: nat, end: nat, n: nat)
    requires from <= end <= |b| && n / 8 < end - from
    ensures (8 * from + n) / 8 < |b| && Bit(b[from..end], n) == Bit(b, 8 * from + n)
  {
    Euclid(n, 8);
    DivMod(from + n / 8, 8, n % 8);
  }

  /** The colour of a texel: an end of its block or a mixture of both. */
  lemma BlockLaw(b: seq<byte>, i: nat, p: Rgba, q: Rgba, punchAlpha: bool)
    requires |b| == 8 && i < 16 && Ends(b, p, q)
    ensures BlockShows(BC1Texel(b, i, punchAlpha), b, i, p, q, punchAlpha)
  {
    One565(p, Word(b[0], b[1]));
    One565(q, Word(b[2], b[3]));
    IndexLaw(b, i);
    PaletteLaw(Word(b[0], b[1]), Word(b[2], b[3]), Shr(LittleEndian(b[4..8]), i * 2) % 4, p, q, punchAlpha);
  }

  /** Entry k of the palette of two alphas: an end or the mean of seven or five samples of them. */
  predicate AlphaShows(v: byte, a0: byte, a1: byte, k: nat) {
    if k == 0 then v == a0
    else if k == 1 then v == a1
    else if a0 > a1 then 7 * v <= Mixed(a0, a1, 8 - k, k - 1) < 7 * (v + 1)
    else if k < 6 then 5 * v <= Mixed(a0, a1, 6 - k, k - 1) < 5 * (v + 1)
    else v == if k == 6 then 0 else 255
  }

  function Mixed(a0: int, a1: int, m: int, n: int): int {
    m * a0 + n * a1
  }

  lemma AlphaLaw(a0: byte, a1: byte, k: nat)
    requires k < 8
    ensures AlphaShows(BC3Alpha(a0, a1, k), a0, a1, k)
  {
    if k >= 2 {
      if a0 > a1 {
        SamplesAre(a0, a1, 8 - k, k - 1);
        MeanOf(Samples(a0, a1, 8 - k, 7), 7);
      } else if k < 6 {
        SamplesAre(a0, a1, 6 - k, k - 1);
        MeanOf(Samples(a0, a1, 6 - k, 5), 5);
      }
    }
  }

  lemma MeanOf(t: nat, n: nat)
    requires n == 5 || n == 7
    ensures n * (t / n) <= t < n * (t / n + 1)
  {
  }

  /** c is texel i of the block b, by the number of the format; p and q are the ends of its colours. */
  predicate CompressedShows(c: Rgba, b: seq<byte>, i: nat, fmt: nat, p: Rgba, q: Rgba)
    requires i < 16
  {
    if fmt == 18 then |b| == 8 && Ends(b, p, q) && BlockShows(c, b, i, p, q, true)
    else if fmt == 19 then
      |b| == 16 && Ends(b[8..], p, q) && BlockShows(c.(a := 255), b[8..], i, p, q, false)
      && Scaled(c.a, Bit(b, 4 * i) + 2 * Bit(b, 4 * i + 1) + 4 * Bit(b, 4 * i + 2) + 8 * Bit(b, 4 * i + 3), 15)
    else if fmt == 20 then
      |b| == 16 && Ends(b[8..], p, q) && BlockShows(c.(a := 255), b[8..], i, p, q, false)
      && AlphaShows(c.a, b[0], b[1], Bit(b, 16 + 3 * i) + 2 * Bit(b, 17 + 3 * i) + 4 * Bit(b, 18 + 3 * i))
    else if fmt == 36 then |b| == 16 && c == GREY
    else (fmt == 59 || fmt == 60 || fmt == 61) && |b| == 8 && c == GREY
  }

  /** Every texel of a compressed format is shown in its colour. */
  lemma CompressedLaw(b: seq<byte>, i: nat, fmt: nat) returns (p: Rgba, q: Rgba)
    requires i < 16 && IsCompressed(fmt) && |b| == BytesPerBlock(fmt)
    ensures CompressedShows(BlockTexel(b, i, fmt), b, i, fmt, p, q)
  {
    var s := if |b| == 8 then b else b[8..];
    assert b[8..] == b[8..|b|];
    p, q := Rgb565(Word(s[0], s[1])), Rgb565(Word(s[2], s[3]));
    Law565(Word(s[0], s[1]));
    Law565(Word(s[2], s[3]));
    BlockLaw(s, i, p, q, fmt == 18);
    if fmt == 19 { Alpha2Law(b, i); }
    if fmt == 20 {
      OpaqueTexel(b[8..16], i);
      Alpha3Index(b, i);
      AlphaLaw(b[0], b[1], Shr(LittleEndian(b[2..8]), i * 3) % 8);
    }
  }

  lemma OpaqueTexel(b: seq<byte>, i: nat)
    requires |b| == 8
    ensures BC1Texel(b, i, false).a == 255
  {
  }

  lemma Alpha2Law(b: seq<byte>, i: nat)
    requires |b| == 16 && i < 16
    ensures var c := BC2Texel(b, i);
            c.(a := 255) == BC1Texel(b[8..16], i, false)
            && Scaled(c.a, Bit(b, 4 * i) + 2 * Bit(b, 4 * i + 1) + 4 * Bit(b, 4 * i + 2) + 8 * Bit(b, 4 * i + 3), 15)
  {
    OpaqueTexel(b[8..16], i);
    FourBits(b[..8], i * 4);
    InFront(b, 8, 4 * i);
    InFront(b, 8, 4 * i + 1);
    InFront(b, 8, 4 * i + 2);
    InFront(b, 8, 4 * i + 3);
  }

  lemma InFront(b: seq<byte>, end: nat, n: nat)
    requires end <= |b| && n / 8 < end
    ensures Bit(b[..end], n) == Bit(b, n)
  {
  }

  lemma Alpha3Index(b: seq<byte>, i: nat)
    requires |b| == 16 && i < 16
    ensures Shr(LittleEndian(b[2..8]), i * 3) % 8
            == Bit(b, 16 + 3 * i) + 2 * Bit(b, 17 + 3 * i) + 4 * Bit(b, 18 + 3 * i)
  {
    ThreeBitsIn(b, 2, 8, 3 * i);
  }

  lemma ThreeBitsIn(b: seq<byte>, from: nat, end: nat, n: nat)
    requires from <= end <= |b| && (n + 2) / 8 < end - from
    ensures (8 * from + n + 2) / 8 < |b|
    ensures Shr(LittleEndian(b[from..end]), n) % 8
            == Bit(b, 8 * from + n) + 2 * Bit(b, 8 * from + n + 1) + 4 * Bit(b, 8 * from + n + 2)
  {
    ThreeBits(b[from..end], n);
    BitIn(b, from, end, n);
    BitIn(b, from, end, n + 1);
    BitIn(b, from, end, n + 2);
  }

  // ---- the picture -------------------------------------------------------------------------------

  /** Group g of s is group g of lin in the byte order: pairs for 1, quads for 2 and 3, single bytes for any other,
      and the bytes of an incomplete group stay. */
  ghost predicate SwapShows(s: seq<byte>, lin: seq<byte>, g: nat, endian: nat)
    requires |s| == |lin|
  {
    if endian == 1 && 2 * g + 1 < |s| then s[2 * g] == lin[2 * g + 1] && s[2 * g + 1] == lin[2 * g]
    else if endian == 1 then 2 * g < |s| ==> s[2 * g] == lin[2 * g]
    else if endian == 2 && 4 * g + 3 < |s| then
      s[4 * g] == lin[4 * g + 3] && s[4 * g + 1] == lin[4 * g + 2] && s[4 * g + 2] == lin[4 * g + 1] && s[4 * g + 3] == lin[4 * g]
    else if endian == 3 && 4 * g + 3 < |s| then
      s[4 * g] == lin[4 * g + 2] && s[4 * g + 1] == lin[4 * g + 3] && s[4 * g + 2] == lin[4 * g] && s[4 * g + 3] == lin[4 * g + 1]
    else if endian == 2 || endian == 3 then forall i :: 4 * g <= i < |s| ==> s[i] == lin[i]
    else g < |s| ==> s[g] == lin[g]
  }

  lemma SwapLaw(lin: seq<byte>, g: nat, endian: nat)
    ensures SwapShows(Swapped(lin, endian), lin, g, endian)
  {
    if endian == 1 {
      if 2 * g + 1 < |lin| { Pairs(g, |lin|); }
    } else if endian == 2 || endian == 3 {
      DivMod(g, 4, 0);
      SwapQuad(lin, g, 4 * g, endian);
    }
  }

  lemma SwapQuad(lin: seq<byte>, g: nat, o: nat, endian: nat)
    requires o == 4 * g && o % 4 == 0 && (endian == 2 || endian == 3)
    ensures SwapShows(Swapped(lin, endian), lin, g, endian)
  {
    if o + 3 < |lin| { QuadAt(o, |lin|, endian); }
    else if o <= |lin| { Rest(o, |lin|, endian); }
  }

  /** Where the hardware keeps block (x, y) of a surface w blocks wide, at p bytes a block: tiles of 32 x 32 blocks,
      and inside a tile the bits of x and y in this order. */
  function TiledPlace(x: int, y: int, w: int, p: int): int {
    Paged(InTile((x / 32 + y / 32 * ((w + 31) / 32)) * (128 * p), (x % 8 + y / 2 % 4 * 8) * p, y / 8 % 2 * (64 * p), y % 2),
          y / 16 % 2, (y / 8 % 2 * 2 + x / 8) % 4)
  }

  function InTile(tile: int, micro: int, half: int, y0: int): int {
    tile + half + micro / 16 * 32 + y0 * 16 + micro % 16
  }

  function Paged(o: int, y4: int, bank: int): int {
    o / 512 * 4096 + y4 * 2048 + o / 64 % 8 * 256 + bank * 64 + o % 64
  }

  lemma PlaceLaw(x: u32, y: u32, w: u32, h: u32, p: u32)
    requires Fits(w, h, p) && x < w && y < h
    ensures Xenos(w, p)(x, y) == TiledPlace(x, y, w, p)
  {
    MachineAddress(x, y, w, h, p);
    DigitsPlace(x, y, w, p, x / 32 + y / 32 * ((w + 31) / 32));
  }

  lemma DigitsPlace(x: nat, y: nat, w: nat, p: nat, tile: nat)
    requires tile == x / 32 + y / 32 * ((w + 31) / 32)
    ensures ByteAddress(tile, x % 32, y % 32, p) == TiledPlace(x, y, w, p)
  {
    var o, y4, bank := Raw(tile, x % 32, y % 32, p), y / 16 % 2, (y / 8 % 2 * 2 + x / 8) % 4;
    RawPlace(tile, x, y, p);
    BankDigits(x, y);
    LowBit4(y);
    AddressOf(tile, x % 32, y % 32, p, o, y4, bank);
    PlaceOf(x, y, w, p, o, y4, bank);
  }

  lemma AddressOf(m: nat, u: nat, v: nat, p: nat, o: nat, y4: nat, bank: nat)
    requires o == Raw(m, u, v, p) && y4 == v / 16 % 2 && bank == (v / 8 % 2 * 2 + u / 8) % 4
    ensures ByteAddress(m, u, v, p) == Paged(o, y4, bank)
  {
  }

  lemma PlaceOf(x: nat, y: nat, w: nat, p: nat, o: nat, y4: nat, bank: nat)
    requires y4 == y / 16 % 2 && bank == (y / 8 % 2 * 2 + x / 8) % 4
    requires o == InTile((x / 32 + y / 32 * ((w + 31) / 32)) * (128 * p), (x % 8 + y / 2 % 4 * 8) * p,
                         y / 8 % 2 * (64 * p), y % 2)
    ensures TiledPlace(x, y, w, p) == Paged(o, y4, bank)
  {
  }

  lemma RawPlace(m: nat, x: nat, y: nat, p: nat)
    ensures Raw(m, x % 32, y % 32, p) == InTile(m * (128 * p), (x % 8 + y / 2 % 4 * 8) * p, y / 8 % 2 * (64 * p), y % 2)
  {
    LowBits012(x);
    LowBits012(y);
    LowBit3(y);
    LowBits12(y);
  }

  /** The formats, by number: those that come in blocks of 4 x 4 texels, and the bytes of a block or texel. */
  predicate InBlocks(fmt: nat) {
    fmt == 18 || fmt == 19 || fmt == 20 || fmt == 36 || fmt == 59 || fmt == 60 || fmt == 61
  }

  function Size(fmt: nat): nat {
    if fmt == 2 then 1
    else if fmt == 3 || fmt == 4 || fmt == 5 || fmt == 10 || fmt == 15 then 2
    else if fmt == 6 || fmt == 7 then 4
    else if fmt == 18 || fmt == 59 || fmt == 60 || fmt == 61 then 8
    else if fmt == 19 || fmt == 20 || fmt == 36 then 16
    else 0
  }

  lemma FormatLaw(fmt: nat)
    ensures IsCompressed(fmt) == InBlocks(fmt) && BytesPerBlock(fmt) == Size(fmt)
  {
  }

  function Units(n: nat, fmt: nat): nat {
    if InBlocks(fmt) then (n + 3) / 4 else n
  }

  ghost predicate SameByte(a: seq<byte>, i: int, b: seq<byte>, j: int) {
    0 <= i < |a| && 0 <= j < |b| && a[i] == b[j]
  }

  /** Byte k of block (x, y) comes from its place in the data: tiled, or row by row at the pitch. */
  ghost predicate RowShows(lin: seq<byte>, data: seq<byte>, d: Desc, x: nat, y: nat, k: nat) {
    var w, p := Units(d.width, d.format), Size(d.format);
    var pitch := if InBlocks(d.format) || d.pitchTexels == 0 then w else d.pitchTexels;
    x < w && y < Units(d.height, d.format) && k < p ==>
      SameByte(lin, (y * w + x) * p + k, data, if d.tiled then TiledPlace(x, y, w, p) + k else (y * pitch + x) * p + k)
  }

  lemma RowLaw(lin: seq<byte>, data: seq<byte>, d: Desc, x: nat, y: nat, k: nat)
    requires Decodable(d) && IsLinear(data, d, lin)
    ensures RowShows(lin, data, d, x, y, k)
  {
    FormatLaw(d.format);
    var w, h, p := Across(d), Down(d), BytesPerBlock(d.format);
    if x < w && y < h && k < p {
      var pitch := if IsCompressed(d.format) then w else Pitch(d);
      if d.tiled {
        TiledRow(lin, data, x, y, k, w, h, p);
      } else {
        LinearRow(lin, data, x, y, k, w, h, p, pitch);
      }
    }
  }

  lemma TiledRow(lin: seq<byte>, data: seq<byte>, x: nat, y: nat, k: nat, w: u32, h: u32, p: u32)
    requires x < w && y < h && k < p && Fits(w, h, p) && IsTiling(lin, data, Xenos(w, p), w, h, p)
    ensures SameByte(lin, (y * w + x) * p + k, data, TiledPlace(x, y, w, p) + k)
  {
    PlaceLaw(x, y, w, h, p);
    LaidRow(lin, data, x, y, k, w, h, p, Xenos(w, p));
  }

  lemma LaidRow(lin: seq<byte>, data: seq<byte>, x: nat, y: nat, k: nat, w: u32, h: u32, p: u32, at: Layout)
    requires x < w && y < h && k < p && IsTiling(lin, data, at, w, h, p)
    ensures SameByte(lin, (y * w + x) * p + k, data, at(x, y) + k)
  {
    assert Before(x, y, 0, h) && LinAt(x, y, k, w, p) < |lin|;
  }

  lemma LinearRow(lin: seq<byte>, data: seq<byte>, x: nat, y: nat, k: nat, w: nat, h: nat, p: nat, pitch: nat)
    requires x < w && y < h && k < p && SameRows(lin, data, w, h, p, pitch)
    ensures SameByte(lin, (y * w + x) * p + k, data, (y * pitch + x) * p + k)
  {
    assert LinAt(x, y, k, w, p) < |lin|;
  }

  /** The n bytes of s from o on, or nothing when they are not all there. */
  function Slice(s: seq<byte>, o: int, n: nat): seq<byte> {
    if 0 <= o && o + n <= |s| then s[o..o + n] else []
  }

  /** The four bytes at o are the colour c. */
  predicate ColourAt(rgba: seq<byte>, o: int, c: Rgba) {
    Slice(rgba, o, 4) == [c.r, c.g, c.b, c.a]
  }

  ghost predicate BlockColour(c: Rgba, b: seq<byte>, i: nat, fmt: nat)
    requires i < 16
  {
    exists p: Rgba, q: Rgba :: CompressedShows(c, b, i, fmt, p, q)
  }

  /** c is the colour of pixel (px, py) by the bytes of its texel or block in s. */
  ghost predicate ColourShows(c: Rgba, s: seq<byte>, d: Desc, px: nat, py: nat) {
    var n := Size(d.format);
    if InBlocks(d.format) then
      BlockColour(c, Slice(s, (py / 4 * ((d.width + 3) / 4) + px / 4) * n, n), py % 4 * 4 + px % 4, d.format)
    else TexelShows(c, Slice(s, (py * d.width + px) * n, n), d.format)
  }

  /** Pixel (px, py) has the colour of its texel in s. */
  ghost predicate PixelShows(s: seq<byte>, d: Desc, rgba: seq<byte>, px: nat, py: nat) {
    px < d.width && py < d.height ==>
      exists c :: ColourShows(c, s, d, px, py) && ColourAt(rgba, (py * d.width + px) * 4, c)
  }

  lemma PixelLaw(s: seq<byte>, d: Desc, rgba: seq<byte>, px: nat, py: nat)
    requires Decodable(d) && |s| == LinSize(Across(d), Down(d), BytesPerBlock(d.format)) && IsPicture(s, d, rgba)
    ensures PixelShows(s, d, rgba, px, py)
  {
    if px < d.width && py < d.height {
      var c := PixelOf(s, d, px, py);
      Channels(s, d, rgba, px, py);
      ColourLaw(s, d, px, py);
    }
  }

  lemma Channels(s: seq<byte>, d: Desc, rgba: seq<byte>, px: nat, py: nat)
    requires Decodable(d) && |s| == LinSize(Across(d), Down(d), BytesPerBlock(d.format)) && IsPicture(s, d, rgba)
    requires px < d.width && py < d.height
    ensures ColourAt(rgba, (py * d.width + px) * 4, PixelOf(s, d, px, py))
  {
    var c, w := PixelOf(s, d, px, py), d.width;
    assert LinAt(px, py, 0, w, 4) < |rgba| && LinAt(px, py, 3, w, 4) < |rgba|;
    assert rgba[LinAt(px, py, 0, w, 4)] == c.Channel(0) && rgba[LinAt(px, py, 1, w, 4)] == c.Channel(1);
    assert rgba[LinAt(px, py, 2, w, 4)] == c.Channel(2) && rgba[LinAt(px, py, 3, w, 4)] == c.Channel(3);
  }

  lemma ColourLaw(s: seq<byte>, d: Desc, px: nat, py: nat)
    requires Decodable(d) && |s| == LinSize(Across(d), Down(d), BytesPerBlock(d.format))
    requires px < d.width && py < d.height
    ensures ColourShows(PixelOf(s, d, px, py), s, d, px, py)
  {
    FormatLaw(d.format);
    QuarterInside(px, d.width);
    QuarterInside(py, d.height);
    ColourIn(s, d, px, py, Across(d), Down(d), BytesPerBlock(d.format));
  }

  lemma ColourIn(s: seq<byte>, d: Desc, px: nat, py: nat, w: nat, h: nat, n: nat)
    requires n == Size(d.format) == BytesPerBlock(d.format) && n > 0 && w == Units(d.width, d.format)
    requires IsCompressed(d.format) == InBlocks(d.format) && |s| == LinSize(w, h, n)
    requires if InBlocks(d.format) then px / 4 < w && py / 4 < h else px < w && py < h
    ensures ColourShows(PixelIn(s, d.format, w, h, px, py), s, d, px, py)
  {
    PixelInLaw(s, d.format, w, h, px, py);
    ColourIs(PixelIn(s, d.format, w, h, px, py), s, d, px, py, w, n);
  }

  lemma QuarterInside(x: nat, w: nat)
    requires x < w
    ensures x / 4 < (w + 3) / 4
  {
  }

  lemma ColourIs(c: Rgba, s: seq<byte>, d: Desc, px: nat, py: nat, w: nat, n: nat)
    requires n == Size(d.format) && w == Units(d.width, d.format)
    requires if InBlocks(d.format) then BlockColour(c, Slice(s, (py / 4 * w + px / 4) * n, n), py % 4 * 4 + px % 4, d.format)
             else TexelShows(c, Slice(s, (py * w + px) * n, n), d.format)
    ensures ColourShows(c, s, d, px, py)
  {
  }

  lemma PixelInLaw(s: seq<byte>, fmt: nat, w: nat, h: nat, px: nat, py: nat)
    requires |s| == LinSize(w, h, BytesPerBlock(fmt)) && BytesPerBlock(fmt) > 0
    requires if IsCompressed(fmt) then px / 4 < w && py / 4 < h else px < w && py < h
    ensures var c, n := PixelIn(s, fmt, w, h, px, py), BytesPerBlock(fmt);
            if IsCompressed(fmt) then BlockColour(c, Slice(s, (py / 4 * w + px / 4) * n, n), py % 4 * 4 + px % 4, fmt)
            else TexelShows(c, Slice(s, (py * w + px) * n, n), fmt)
  {
    var n := BytesPerBlock(fmt);
    if IsCompressed(fmt) {
      LinInside(px / 4, py / 4, w, h, n);
      InBlockLaw(s, fmt, LinAt(px / 4, py / 4, 0, w, n), py % 4 * 4 + px % 4);
    } else {
      LinInside(px, py, w, h, n);
      AloneLaw(s, fmt, LinAt(px, py, 0, w, n));
    }
  }

  lemma InBlockLaw(s: seq<byte>, fmt: nat, o: nat, t: nat)
    requires IsCompressed(fmt) && o + BytesPerBlock(fmt) <= |s| && t < 16
    ensures BlockColour(Decoder.TexelAt(s, fmt, o, t), Slice(s, o, BytesPerBlock(fmt)), t, fmt)
  {
    var p, q := CompressedLaw(s[o..o + BytesPerBlock(fmt)], t, fmt);
  }

  lemma AloneLaw(s: seq<byte>, fmt: nat, o: nat)
    requires !IsCompressed(fmt) && BytesPerBlock(fmt) > 0 && o + BytesPerBlock(fmt) <= |s|
    ensures TexelShows(ConvUncompressed(s[o..o + BytesPerBlock(fmt)], fmt), Slice(s, o, BytesPerBlock(fmt)), fmt)
  {
    TexelLaw(s[o..o + BytesPerBlock(fmt)], fmt);
  }

  /** rgba shows the texture d stored in data: its bytes from their places, swapped, and each pixel in the colour of
      its texel. */
  ghost predicate Shown(data: seq<byte>, d: Desc, rgba: seq<byte>) {
    exists lin: seq<byte>, s: seq<byte> :: Shows(data, d, rgba, lin, s)
  }

  ghost predicate Shows(data: seq<byte>, d: Desc, rgba: seq<byte>, lin: seq<byte>, s: seq<byte>) {
    && |lin| == |s| == Units(d.height, d.format) * Units(d.width, d.format) * Size(d.format)
    && |rgba| == d.height * d.width * 4
    && (forall x: nat, y: nat, k: nat :: RowShows(lin, data, d, x, y, k))
    && (forall g: nat :: SwapShows(s, lin, g, d.endian))
    && forall px: nat, py: nat :: PixelShows(s, d, rgba, px, py)
  }

  /** What a decode makes is what the bytes show, for every format, size, pitch, layout and byte order. */
  lemma DecodingLaw(data: seq<byte>, d: Desc, rgba: seq<byte>)
    requires Decodable(d) && IsDecoding(data, d, rgba)
    ensures Shown(data, d, rgba)
  {
    FormatLaw(d.format);
    var lin :| IsLinear(data, d, lin) && IsPicture(Swapped(lin, d.endian), d, rgba);
    var s := Swapped(lin, d.endian);
    forall x: nat, y: nat, k: nat ensures RowShows(lin, data, d, x, y, k) {
      RowLaw(lin, data, d, x, y, k);
    }
    forall g: nat ensures SwapShows(s, lin, g, d.endian) {
      SwapLaw(lin, g, d.endian);
    }
    forall px: nat, py: nat ensures PixelShows(s, d, rgba, px, py) {
      PixelLaw(s, d, rgba, px, py);
    }
    assert Shows(data, d, rgba, lin, s);
  }
}
