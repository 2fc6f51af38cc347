/** Byte swapping, block decompression and texel conversion (varianta/runtime/rex_texture.h:113-213). */
module Codec {
  import opened Words

  // ---- EndianSwap --------------------------------------------------------------------------------

  const END_8IN16: nat := 1
  const END_8IN32: nat := 2
  const END_16IN32: nat := 3

  /** Where byte i of the swapped buffer comes from; an incomplete last group stays. */
  function SwapIndex(i: nat, n: nat, endian: nat): (j: nat)
    requires i < n
    ensures j < n
  {
    if endian == END_8IN16 && i / 2 * 2 + 1 < n then i / 2 * 2 + (1 - i % 2)
    else if endian == END_8IN32 && i / 4 * 4 + 3 < n then i / 4 * 4 + (3 - i % 4)
    else if endian == END_16IN32 && i / 4 * 4 + 3 < n then i / 4 * 4 + (i + 2) % 4
    else i
  }

  function Swapped(s: seq<byte>, endian: nat): (r: seq<byte>)
    ensures |r| == |s|
  {
    seq(|s|, i requires 0 <= i < |s| => s[SwapIndex(i, |s|, endian)])
  }

  /** Swapping twice is the identity, in every mode and for every length. */
  lemma SwappedTwice(s: seq<byte>, endian: nat)
    ensures Swapped(Swapped(s, endian), endian) == s
  {
    forall i | 0 <= i < |s|
      ensures SwapIndex(SwapIndex(i, |s|, endian), |s|, endian) == i
    {
      SwapIndexTwice(i, |s|, endian);
    }
  }

  lemma SwapIndexTwice(i: nat, n: nat, endian: nat)
    requires i < n
    ensures SwapIndex(SwapIndex(i, n, endian), n, endian) == i
  {
    if endian == END_8IN16 {
      if i / 2 * 2 + 1 < n { Pairs(i / 2, n); }
    } else if i / 4 * 4 + 3 < n {
      QuadOf(i / 4 * 4, i % 4, n, endian);
    }
  }

  lemma QuadOf(g: nat, d: nat, n: nat, endian: nat)
    requires g % 4 == 0 && d < 4 && g + 3 < n && endian != END_8IN16
    ensures SwapIndex(SwapIndex(g + d, n, endian), n, endian) == g + d
  {
    QuadAt(g, n, endian);
    Group(g, d);
    assert d == 0 || d == 1 || d == 2 || d == 3;
  }

  lemma Pairs(q: nat, n: nat)
    requires q * 2 + 1 < n
    ensures SwapIndex(q * 2, n, END_8IN16) == q * 2 + 1 && SwapIndex(q * 2 + 1, n, END_8IN16) == q * 2
  {
  }

  lemma Group(i: nat, d: nat)
    requires i % 4 == 0 && d < 4
    ensures (i + d) / 4 * 4 == i && (i + d) % 4 == d
  {
  }

  /** The first i bytes are swapped, the others are as before. */
  ghost predicate Moved(s: seq<byte>, was: seq<byte>, i: nat, endian: nat) {
    |s| == |was| && forall j :: 0 <= j < |s| ==> s[j] == if j < i then was[SwapIndex(j, |was|, endian)] else was[j]
  }

  function Exchanged(s: seq<byte>, i: nat, j: nat): seq<byte>
    requires i < |s| && j < |s|
  {
    s[i := s[j]][j := s[i]]
  }

  /** std::swap(p[i], p[j]). */
  method Exchange(p: array<byte>, i: nat, j: nat)
    requires i < p.Length && j < p.Length
    modifies p
    ensures p[..] == Exchanged(old(p[..]), i, j)
  {
    p[i], p[j] := p[j], p[i];
  }

  lemma MovedPair(s: seq<byte>, was: seq<byte>, i: nat, g: nat)
    requires i == 2 * g && i + 1 < |s| && Moved(s, was, i, END_8IN16)
    ensures Moved(Exchanged(s, i, i + 1), was, i + 2, END_8IN16)
  {
    Pairs(i / 2, |s|);
  }

  lemma MovedQuad32(s: seq<byte>, was: seq<byte>, i: nat, g: nat)
    requires i == 4 * g && i + 3 < |s| && Moved(s, was, i, END_8IN32)
    ensures Moved(Exchanged(Exchanged(s, i, i + 3), i + 1, i + 2), was, i + 4, END_8IN32)
  {
    QuadAt(i, |s|, END_8IN32);
  }

  lemma MovedQuad16(s: seq<byte>, was: seq<byte>, i: nat, g: nat)
    requires i == 4 * g && i + 3 < |s| && Moved(s, was, i, END_16IN32)
    ensures Moved(Exchanged(Exchanged(s, i, i + 2), i + 1, i + 3), was, i + 4, END_16IN32)
  {
    QuadAt(i, |s|, END_16IN32);
  }

  lemma MovedAll(s: seq<byte>, was: seq<byte>, i: nat, g: nat, endian: nat)
    requires Moved(s, was, i, endian) && i <= |s|
    requires endian == END_8IN16 ==> i == 2 * g && i + 1 >= |s|
    requires endian == END_8IN32 || endian == END_16IN32 ==> i == 4 * g && i + 3 >= |s|
    ensures s == Swapped(was, endian)
  {
    DivMod(g, if endian == END_8IN16 then 2 else 4, 0);
    Rest(i, |s|, endian);
  }

  method Swap8in16(p: array<byte>)
    modifies p
    ensures p[..] == Swapped(old(p[..]), END_8IN16)
  {
    var n, i := p.Length, 0;
    ghost var was, g := p[..], 0;
    while i + 1 < n
      invariant i == 2 * g && i <= n && Moved(p[..], was, i, END_8IN16)
    {
      MovedPair(p[..], was, i, g);
      Exchange(p, i, i + 1);
      i, g := i + 2, g + 1;
    }
    MovedAll(p[..], was, i, g, END_8IN16);
  }

  method Swap8in32(p: array<byte>)
    modifies p
    ensures p[..] == Swapped(old(p[..]), END_8IN32)
  {
    var n, i := p.Length, 0;
    ghost var was, g := p[..], 0;
    while i + 3 < n
      invariant i == 4 * g && i <= n && Moved(p[..], was, i, END_8IN32)
    {
      MovedQuad32(p[..], was, i, g);
      Exchange(p, i, i + 3);
      Exchange(p, i + 1, i + 2);
      i, g := i + 4, g + 1;
    }
    MovedAll(p[..], was, i, g, END_8IN32);
  }

  method Swap16in32(p: array<byte>)
    modifies p
    ensures p[..] == Swapped(old(p[..]), END_16IN32)
  {
    var n, i := p.Length, 0;
    ghost var was, g := p[..], 0;
    while i + 3 < n
      invariant i == 4 * g && i <= n && Moved(p[..], was, i, END_16IN32)
    {
      MovedQuad16(p[..], was, i, g);
      Exchange(p, i, i + 2);
      Exchange(p, i + 1, i + 3);
      i, g := i + 4, g + 1;
    }
    MovedAll(p[..], was, i, g, END_16IN32);
  }

  method EndianSwap(p: array<byte>, endian: nat)
    modifies p
    ensures p[..] == Swapped(old(p[..]), endian)
  {
    if endian == END_8IN16 {
      Swap8in16(p);
    } else if endian == END_8IN32 {
      Swap8in32(p);
    } else if endian == END_16IN32 {
      Swap16in32(p);
    }
  }

  lemma QuadAt(i: nat, n: nat, endian: nat)
    requires i % 4 == 0 && i + 3 < n
    ensures endian == END_8IN32 ==> SwapIndex(i, n, endian) == i + 3 && SwapIndex(i + 1, n, endian) == i + 2
                                    && SwapIndex(i + 2, n, endian) == i + 1 && SwapIndex(i + 3, n, endian) == i
    ensures endian == END_16IN32 ==> SwapIndex(i, n, endian) == i + 2 && SwapIndex(i + 1, n, endian) == i + 3
                                     && SwapIndex(i + 2, n, endian) == i && SwapIndex(i + 3, n, endian) == i + 1
  {
    Group(i, 0);
    Group(i, 1);
    Group(i, 2);
    Group(i, 3);
  }

  /** Past the last whole group nothing moves. */
  lemma Rest(i: nat, n: nat, endian: nat)
    requires i <= n
    requires endian == END_8IN16 ==> i % 2 == 0 && i + 1 >= n
    requires endian == END_8IN32 || endian == END_16IN32 ==> i % 4 == 0 && i + 3 >= n
    ensures forall j :: i <= j < n ==> SwapIndex(j, n, endian) == j
  {
    forall j | i <= j < n
      ensures SwapIndex(j, n, endian) == j
    {
      if endian == END_8IN16 {
        assert j / 2 >= i / 2;
      } else if endian == END_8IN32 || endian == END_16IN32 {
        assert j / 4 >= i / 4;
      }
    }
  }

  // ---- BC1, BC2, BC3 -----------------------------------------------------------------------------

  datatype Rgba = Rgba(r: byte, g: byte, b: byte, a: byte) {
    function Channel(k: nat): byte {
      if k == 0 then r else if k == 1 then g else if k == 2 then b else a
    }
  }

  /** The bytes of s as one little-endian number. */
  function LittleEndian(s: seq<byte>): nat {
    if |s| == 0 then 0 else s[0] as int + 256 * LittleEndian(s[1..])
  }

  /** Two bytes as a little-endian number. */
  function Word(lo: int, hi: int): int {
    lo + 256 * hi
  }

  function Rgb565(c: nat): Rgba {
    Rgba(c / 2048 % 32 * 255 / 31, c / 32 % 64 * 255 / 63, c % 32 * 255 / 31, 255)
  }

  function TwoToOne(a: int, b: int): int {
    (2 * a + b) / 3
  }

  function Halfway(a: int, b: int): int {
    (a + b) / 2
  }

  /** Two thirds of p and one third of q. */
  function Third(p: Rgba, q: Rgba): Rgba {
    Rgba(TwoToOne(p.r, q.r), TwoToOne(p.g, q.g), TwoToOne(p.b, q.b), 255)
  }

  function BC1Palette(c0: nat, c1: nat, punchAlpha: bool): (pal: seq<Rgba>)
    ensures |pal| == 4
  {
    var p, q := Rgb565(c0), Rgb565(c1);
    if c0 > c1 || !punchAlpha then [p, q, Third(p, q), Third(q, p)]
    else [p, q, Rgba(Halfway(p.r, q.r), Halfway(p.g, q.g), Halfway(p.b, q.b), 255), Rgba(0, 0, 0, 0)]
  }

  /** Texel i of a BC1 block. */
  function BC1Texel(b: seq<byte>, i: nat, punchAlpha: bool): Rgba
    requires |b| == 8
  {
    BC1Palette(Word(b[0], b[1]), Word(b[2], b[3]), punchAlpha)[Shr(LittleEndian(b[4..8]), i * 2) % 4]
  }

  function BC2Texel(b: seq<byte>, i: nat): Rgba
    requires |b| == 16
  {
    BC1Texel(b[8..16], i, false).(a := Shr(LittleEndian(b[..8]), i * 4) % 16 * 255 / 15)
  }

  /** The sum of n samples, the first w of them a and the others b. */
  function Samples(a: byte, b: byte, w: nat, n: nat): (t: nat)
    ensures t <= 255 * n
  {
    if n == 0 then 0 else (if w > 0 then a else b) + Samples(a, b, if w > 0 then w - 1 else 0, n - 1)
  }

  /** Their mean. */
  function Blend(a: byte, b: byte, w: nat, n: nat): byte
    requires 0 < n && w <= n
  {
    MeanBound(Samples(a, b, w, n), n);
    Samples(a, b, w, n) / n
  }

  lemma MeanBound(t: nat, n: nat)
    requires 0 < n && t <= 255 * n
    ensures 0 <= t / n <= 255
  {
    DivBound(t, n, 256);
  }

  /** The source's form of the sum. */
  lemma {:induction false} SamplesAre(a: byte, b: byte, w: nat, m: nat)
    ensures Samples(a, b, w, w + m) == w * a + m * b
  {
    if w > 0 {
      SamplesAre(a, b, w - 1, m);
      OneMoreTime(w, a);
    } else if m > 0 {
      SamplesAre(a, b, 0, m - 1);
      OneMoreTime(m, b);
    }
  }

  lemma OneMoreTime(k: nat, v: nat)
    requires k > 0
    ensures k * v == (k - 1) * v + v
  {
  }

  /** Entry k of the alpha palette of a BC3 block. */
  function BC3Alpha(a0: byte, a1: byte, k: nat): byte
    requires k < 8
  {
    if k == 0 then a0
    else if k == 1 then a1
    else if a0 > a1 then Blend(a0, a1, 8 - k, 7)
    else if k < 6 then Blend(a0, a1, 6 - k, 5)
    else if k == 6 then 0
    else 255
  }

  function BC3Texel(b: seq<byte>, i: nat): Rgba
    requires |b| == 16
  {
    BC1Texel(b[8..16], i, false).(a := BC3Alpha(b[0], b[1], Shr(LittleEndian(b[2..8]), i * 3) % 8))
  }

  /** Texel i of a decoded 4x4 block of 64 bytes. */
  function TexelIn(out: seq<byte>, i: nat): Rgba
    requires i * 4 + 3 < |out|
  {
    Rgba(out[i * 4], out[i * 4 + 1], out[i * 4 + 2], out[i * 4 + 3])
  }

  method DecodeBC1Color(b: seq<byte>, out: array<byte>, punchAlpha: bool)
    requires |b| == 8 && out.Length == 64
    modifies out
    ensures forall i :: 0 <= i < 16 ==> TexelIn(out[..], i) == BC1Texel(b, i, punchAlpha)
  {
    var pal := BC1Palette(Word(b[0], b[1]), Word(b[2], b[3]), punchAlpha);
    var bits := LittleEndian(b[4..8]);
    for i := 0 to 16
      invariant forall j :: 0 <= j < i ==> TexelIn(out[..], j) == BC1Texel(b, j, punchAlpha)
    {
      var t := pal[Shr(bits, i * 2) % 4];
      out[i * 4 + 0], out[i * 4 + 1], out[i * 4 + 2], out[i * 4 + 3] := t.r, t.g, t.b, t.a;
    }
  }

  method DecodeBC2(b: seq<byte>, out: array<byte>)
    requires |b| == 16 && out.Length == 64
    modifies out
    ensures forall i :: 0 <= i < 16 ==> TexelIn(out[..], i) == BC2Texel(b, i)
  {
    DecodeBC1Color(b[8..16], out, false);
    var a := LittleEndian(b[..8]);
    for i := 0 to 16
      invariant forall j :: 0 <= j < 16 ==>
        TexelIn(out[..], j) == if j < i then BC2Texel(b, j) else BC1Texel(b[8..16], j, false)
    {
      var v := Shr(a, i * 4) % 16;
      ghost var was := TexelIn(out[..], i);
      out[i * 4 + 3] := v * 255 / 15;
      assert TexelIn(out[..], i) == was.(a := v * 255 / 15);
    }
  }

  /** The entry of the loops: n - i parts of a0 and i of a1. */
  method BlendedAlpha(a0: byte, a1: byte, i: nat, n: nat) returns (v: byte)
    requires n == if a0 > a1 then 7 else 5
    requires 1 <= i < n
    ensures v == BC3Alpha(a0, a1, i + 1)
  {
    SamplesAre(a0, a1, n - i, i);
    MeanBound(Samples(a0, a1, n - i, n), n);
    v := ((n - i) * a0 + i * a1) / n;
  }

  method AlphaPalette(a0: byte, a1: byte) returns (al: array<byte>)
    ensures fresh(al) && al.Length == 8
    ensures forall j :: 0 <= j < 8 ==> al[j] == BC3Alpha(a0, a1, j)
  {
    al := new byte[8](_ => 0);
    al[0], al[1] := a0, a1;
    if a0 > a1 {
      for i := 1 to 7
        invariant forall j :: 0 <= j <= i ==> al[j] == BC3Alpha(a0, a1, j)
      {
        al[i + 1] := BlendedAlpha(a0, a1, i, 7);
      }
    } else {
      for i := 1 to 5
        invariant forall j :: 0 <= j <= i ==> al[j] == BC3Alpha(a0, a1, j)
      {
        al[i + 1] := BlendedAlpha(a0, a1, i, 5);
      }
      al[6], al[7] := 0, 255;
    }
  }

  method DecodeBC3(b: seq<byte>, out: array<byte>)
    requires |b| == 16 && out.Length == 64
    modifies out
    ensures forall i :: 0 <= i < 16 ==> TexelIn(out[..], i) == BC3Texel(b, i)
  {
    DecodeBC1Color(b[8..16], out, false);
    var al := AlphaPalette(b[0], b[1]);
    var bits := LittleEndian(b[2..8]);
    for i := 0 to 16
      invariant forall j :: 0 <= j < 8 ==> al[j] == BC3Alpha(b[0], b[1], j)
      invariant forall j :: 0 <= j < 16 ==>
        TexelIn(out[..], j) == if j < i then BC3Texel(b, j) else BC1Texel(b[8..16], j, false)
    {
      var idx := Shr(bits, i * 3) % 8;
      ghost var was := TexelIn(out[..], i);
      out[i * 4 + 3] := al[idx];
      assert TexelIn(out[..], i) == was.(a := BC3Alpha(b[0], b[1], idx));
    }
  }

  // ---- uncompressed texels -----------------------------------------------------------------------

  const FMT_8: nat := 2
  const FMT_1_5_5_5: nat := 3
  const FMT_5_6_5: nat := 4
  const FMT_6_5_5: nat := 5
  const FMT_8_8_8_8: nat := 6
  const FMT_2_10_10_10: nat := 7
  const FMT_8_8: nat := 10
  const FMT_4_4_4_4: nat := 15
  const FMT_DXT1: nat := 18
  const FMT_DXT2_3: nat := 19
  const FMT_DXT4_5: nat := 20
  const FMT_DXN: nat := 36
  const FMT_CTX1: nat := 59
  const FMT_DXT3A: nat := 60
  const FMT_DXT5A: nat := 61

  predicate IsCompressed(fmt: nat) {
    fmt == FMT_DXT1 || fmt == FMT_DXT2_3 || fmt == FMT_DXT4_5 || fmt == FMT_DXN || fmt == FMT_CTX1
    || fmt == FMT_DXT3A || fmt == FMT_DXT5A
  }

  function BytesPerBlock(fmt: nat): (p: nat)
    ensures p == 0 || p == 1 || p == 2 || p == 4 || p == 8 || p == 16
    ensures IsCompressed(fmt) ==> p >= 8
  {
    if fmt == FMT_DXT1 || fmt == FMT_DXT5A || fmt == FMT_DXT3A || fmt == FMT_CTX1 then 8
    else if fmt == FMT_DXT2_3 || fmt == FMT_DXT4_5 || fmt == FMT_DXN then 16
    else if fmt == FMT_8 then 1
    else if fmt == FMT_1_5_5_5 || fmt == FMT_5_6_5 || fmt == FMT_6_5_5 || fmt == FMT_4_4_4_4 || fmt == FMT_8_8 then 2
    else if fmt == FMT_8_8_8_8 || fmt == FMT_2_10_10_10 then 4
    else 0
  }

  function ConvUncompressed(s: seq<byte>, fmt: nat): Rgba
    requires |s| == BytesPerBlock(fmt) && |s| > 0
  {
    if fmt == FMT_8_8_8_8 then Rgba(s[2], s[1], s[0], s[3])
    else if fmt == FMT_5_6_5 then Rgb565(Word(s[0], s[1]))
    else if fmt == FMT_1_5_5_5 then
      var c := Word(s[0], s[1]);
      Rgba(c / 1024 % 32 * 255 / 31, c / 32 % 32 * 255 / 31, c % 32 * 255 / 31, if c >= 0x8000 then 255 else 0)
    else if fmt == FMT_4_4_4_4 then
      var c := Word(s[0], s[1]);
      Rgba(c / 256 % 16 * 17, c / 16 % 16 * 17, c % 16 * 17, c / 4096 % 16 * 17)
    else if fmt == FMT_8 then Rgba(s[0], s[0], s[0], 255)
    else if fmt == FMT_8_8 then Rgba(s[0], s[1], 0, 255)
    else Rgba(128, 128, 128, 255)
  }
}
