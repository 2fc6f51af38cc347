/** Texture bytes to linear RGBA8 (varianta/runtime/rex_texture.h:216-257). */
module Decoder {
  import opened Words
  import opened Tiling
  import opened Surfaces
  import opened Codec

  datatype Desc = Desc(format: nat, width: u32, height: u32, tiled: bool, endian: nat, pitchTexels: u32)

  /** Width and height in the units that are tiled: blocks or texels. */
  function Across(d: Desc): nat {
    if IsCompressed(d.format) then (d.width + 3) / 4 else d.width
  }

  function Down(d: Desc): nat {
    if IsCompressed(d.format) then (d.height + 3) / 4 else d.height
  }

  function Pitch(d: Desc): u32 {
    if d.pitchTexels != 0 then d.pitchTexels else d.width
  }

  /** Textures for which the 32-bit counts of blocks, of texels and of tiled bytes do not wrap. */
  predicate Decodable(d: Desc) {
    && d.width > 0 && d.height > 0 && BytesPerBlock(d.format) > 0
    && (if IsCompressed(d.format) then d.width + 3 < TWO32 && d.height + 3 < TWO32 else d.width * d.height < TWO32)
    && (d.tiled ==> Fits(Across(d), Down(d), BytesPerBlock(d.format)))
  }

  /** The row-major bytes of a texture, before the byte swap. */
  ghost predicate IsLinear(data: seq<byte>, d: Desc, lin: seq<byte>)
    requires Decodable(d)
  {
    var w, h, p := Across(d), Down(d), BytesPerBlock(d.format);
    && |lin| == LinSize(w, h, p)
    && if d.tiled then IsTiling(lin, data, Xenos(w, p), w, h, p)
       else SameRows(lin, data, w, h, p, if IsCompressed(d.format) then w else Pitch(d))
  }

  /** The rows of lin are the starts of the rows of data, which are `pitch` blocks long. */
  ghost predicate SameRows(lin: seq<byte>, data: seq<byte>, w: nat, h: nat, p: nat, pitch: nat) {
    forall x: nat, y: nat, k: nat :: x < w && y < h && k < p ==>
      LinAt(x, y, k, w, p) < |lin| && LinAt(x, y, k, pitch, p) < |data|
      && lin[LinAt(x, y, k, w, p)] == data[LinAt(x, y, k, pitch, p)]
  }

  /** Texel t of a 4x4 block. */
  function BlockTexel(blk: seq<byte>, t: nat, fmt: nat): Rgba
    requires IsCompressed(fmt) && |blk| == BytesPerBlock(fmt)
  {
    if fmt == FMT_DXT1 then BC1Texel(blk, t, true)
    else if fmt == FMT_DXT2_3 then BC2Texel(blk, t)
    else if fmt == FMT_DXT4_5 then BC3Texel(blk, t)
    else Rgba(128, 128, 128, 255)
  }

  /** The colour of pixel (px, py): from its own block and texel. */
  function PixelOf(lin: seq<byte>, d: Desc, px: nat, py: nat): Rgba
    requires Decodable(d) && |lin| == LinSize(Across(d), Down(d), BytesPerBlock(d.format))
    requires px < d.width && py < d.height
  {
    PixelIn(lin, d.format, Across(d), Down(d), px, py)
  }

  /** The same for a row-major surface of w x h blocks. */
  function PixelIn(lin: seq<byte>, fmt: nat, w: nat, h: nat, px: nat, py: nat): Rgba
    requires |lin| == LinSize(w, h, BytesPerBlock(fmt)) && BytesPerBlock(fmt) > 0
    requires if IsCompressed(fmt) then px / 4 < w && py / 4 < h else px < w && py < h
  {
    var p := BytesPerBlock(fmt);
    if IsCompressed(fmt) then
      LinInside(px / 4, py / 4, w, h, p);
      TexelAt(lin, fmt, LinAt(px / 4, py / 4, 0, w, p), py % 4 * 4 + px % 4)
    else
      LinInside(px, py, w, h, p);
      var o := LinAt(px, py, 0, w, p);
      ConvUncompressed(lin[o..o + p], fmt)
  }

  /** Texel t of the block at o. */
  function TexelAt(lin: seq<byte>, fmt: nat, o: nat, t: nat): Rgba
    requires IsCompressed(fmt) && o + BytesPerBlock(fmt) <= |lin|
  {
    BlockTexel(lin[o..o + BytesPerBlock(fmt)], t, fmt)
  }

  /** Every pixel of the picture has the colour of its texel. */
  ghost predicate IsPicture(lin: seq<byte>, d: Desc, rgba: seq<byte>)
    requires Decodable(d) && |lin| == LinSize(Across(d), Down(d), BytesPerBlock(d.format))
  {
    && |rgba| == LinSize(d.width, d.height, 4)
    && forall px: nat, py: nat, k: nat :: px < d.width && py < d.height && k < 4 ==>
         LinAt(px, py, k, d.width, 4) < |rgba|
         && rgba[LinAt(px, py, k, d.width, 4)] == PixelOf(lin, d, px, py).Channel(k)
  }

  /** rgba is the picture of the texture stored in data. */
  ghost predicate IsDecoding(data: seq<byte>, d: Desc, rgba: seq<byte>)
    requires Decodable(d)
  {
    exists lin :: IsLinear(data, d, lin) && IsPicture(Swapped(lin, d.endian), d, rgba)
  }

  /** A picture is determined by its pixels. */
  lemma OnePicture(lin: seq<byte>, d: Desc, a: seq<byte>, b: seq<byte>)
    requires Decodable(d) && |lin| == LinSize(Across(d), Down(d), BytesPerBlock(d.format))
    requires IsPicture(lin, d, a) && IsPicture(lin, d, b)
    ensures a == b
  {
    forall i | 0 <= i < |a|
      ensures a[i] == b[i]
    {
      var x, y, k := BlockOfByte(i, d.width, d.height, 4);
      assert a[LinAt(x, y, k, d.width, 4)] == PixelOf(lin, d, x, y).Channel(k);
    }
  }

  /** At the default pitch the row-major bytes are the data itself. */
  lemma DefaultPitch(lin: seq<byte>, data: seq<byte>, w: nat, h: nat, p: nat)
    requires SameRows(lin, data, w, h, p, w) && |lin| == LinSize(w, h, p) == |data|
    ensures lin == data
  {
    forall i | 0 <= i < |lin|
      ensures lin[i] == data[i]
    {
      assert w > 0 && p > 0;
      var x, y, k := BlockOfByte(i, w, h, p);
      assert lin[LinAt(x, y, k, w, p)] == data[LinAt(x, y, k, w, p)];
    }
  }

  /** Decoding the tiled form of a texture gives the same picture as decoding it row by row, for every
      format, size and byte order. */
  lemma TiledDecodesLikeLinear(src: seq<byte>, tiled: seq<byte>, d: Desc, a: seq<byte>, b: seq<byte>)
    requires Decodable(d) && d.tiled && |src| == LinSize(Across(d), Down(d), BytesPerBlock(d.format))
    requires IsTiling(src, tiled, Xenos(Across(d), BytesPerBlock(d.format)), Across(d), Down(d), BytesPerBlock(d.format))
    requires IsDecoding(tiled, d, a) && IsDecoding(src, d.(tiled := false, pitchTexels := 0), b)
    ensures a == b
  {
    PictureOfTiled(src, tiled, d, a);
    PictureOfLinear(src, d.(tiled := false, pitchTexels := 0), b);
    SamePicture(Swapped(src, d.endian), d, d.(tiled := false, pitchTexels := 0), b);
    OnePicture(Swapped(src, d.endian), d, a, b);
  }

  lemma PictureOfTiled(src: seq<byte>, tiled: seq<byte>, d: Desc, rgba: seq<byte>)
    requires Decodable(d) && d.tiled && |src| == LinSize(Across(d), Down(d), BytesPerBlock(d.format))
    requires IsTiling(src, tiled, Xenos(Across(d), BytesPerBlock(d.format)), Across(d), Down(d), BytesPerBlock(d.format))
    requires IsDecoding(tiled, d, rgba)
    ensures IsPicture(Swapped(src, d.endian), d, rgba)
  {
    var lin :| IsLinear(tiled, d, lin) && IsPicture(Swapped(lin, d.endian), d, rgba);
    LinearOfTiled(src, tiled, d, lin);
  }

  lemma PictureOfLinear(src: seq<byte>, d: Desc, rgba: seq<byte>)
    requires Decodable(d) && !d.tiled && d.pitchTexels == 0
    requires |src| == LinSize(Across(d), Down(d), BytesPerBlock(d.format)) && IsDecoding(src, d, rgba)
    ensures IsPicture(Swapped(src, d.endian), d, rgba)
  {
    var lin :| IsLinear(src, d, lin) && IsPicture(Swapped(lin, d.endian), d, rgba);
    LinearOfLinear(src, d, lin);
  }

  lemma LinearOfTiled(src: seq<byte>, tiled: seq<byte>, d: Desc, lin: seq<byte>)
    requires Decodable(d) && d.tiled && |src| == LinSize(Across(d), Down(d), BytesPerBlock(d.format))
    requires IsTiling(src, tiled, Xenos(Across(d), BytesPerBlock(d.format)), Across(d), Down(d), BytesPerBlock(d.format))
    requires IsLinear(tiled, d, lin)
    ensures lin == src
  {
    var w, h, p := Across(d), Down(d), BytesPerBlock(d.format);
    UntileAfterTile(lin, src, tiled, Xenos(w, p), w, h, p);
  }

  lemma LinearOfLinear(src: seq<byte>, d: Desc, lin: seq<byte>)
    requires Decodable(d) && !d.tiled && d.pitchTexels == 0
    requires |src| == LinSize(Across(d), Down(d), BytesPerBlock(d.format)) && IsLinear(src, d, lin)
    ensures lin == src
  {
    DefaultPitch(lin, src, Across(d), Down(d), BytesPerBlock(d.format));
  }

  lemma SamePicture(lin: seq<byte>, d1: Desc, d0: Desc, rgba: seq<byte>)
    requires Decodable(d0) && Decodable(d1) && d1 == d0.(tiled := d1.tiled, pitchTexels := d1.pitchTexels)
    requires |lin| == LinSize(Across(d0), Down(d0), BytesPerBlock(d0.format)) && IsPicture(lin, d0, rgba)
    ensures IsPicture(lin, d1, rgba)
  {
    forall px: nat, py: nat, k: nat | px < d1.width && py < d1.height && k < 4
      ensures LinAt(px, py, k, d1.width, 4) < |rgba|
      ensures rgba[LinAt(px, py, k, d1.width, 4)] == PixelOf(lin, d1, px, py).Channel(k)
    {
      SamePixel(lin, d1, d0, px, py);
      assert LinAt(px, py, k, d0.width, 4) < |rgba|;
    }
  }

  lemma SamePixel(lin: seq<byte>, d1: Desc, d0: Desc, px: nat, py: nat)
    requires Decodable(d0) && Decodable(d1) && d1 == d0.(tiled := d1.tiled, pitchTexels := d1.pitchTexels)
    requires |lin| == LinSize(Across(d0), Down(d0), BytesPerBlock(d0.format)) && px < d0.width && py < d0.height
    ensures |lin| == LinSize(Across(d1), Down(d1), BytesPerBlock(d1.format))
    ensures PixelOf(lin, d1, px, py) == PixelOf(lin, d0, px, py)
  {
  }

  // ---- the method --------------------------------------------------------------------------------

  /** The pixels of the blocks before (cx, cy) are in place. */
  ghost predicate PicturedUpTo(lin: seq<byte>, d: Desc, rgba: seq<byte>, cx: nat, cy: nat)
    requires Decodable(d) && IsCompressed(d.format) && |lin| == LinSize(Across(d), Down(d), BytesPerBlock(d.format))
  {
    && |rgba| == LinSize(d.width, d.height, 4)
    && forall px: nat, py: nat, k: nat ::
         px < d.width && py < d.height && k < 4 && Before(px / 4, py / 4, cx, cy) ==>
         LinAt(px, py, k, d.width, 4) < |rgba|
         && rgba[LinAt(px, py, k, d.width, 4)] == PixelOf(lin, d, px, py).Channel(k)
  }

  /** rgba after block (cx, cy) is copied from texels up to row ty, column tx, cropped to w x h. */
  ghost predicate BlockCopied(was: seq<byte>, rgba: seq<byte>, texels: seq<byte>, cx: nat, cy: nat, tx: nat, ty: nat, w: nat, h: nat)
    requires |texels| == 64
  {
    && |rgba| == |was| == LinSize(w, h, 4)
    && forall px: nat, py: nat, k: nat :: px < w && py < h && k < 4 ==>
         LinAt(px, py, k, w, 4) < |rgba|
         && rgba[LinAt(px, py, k, w, 4)] == NewByte(texels, was[LinAt(px, py, k, w, 4)], px, py, k, cx, cy, tx, ty)
  }

  /** Byte k of pixel (px, py): the block's texel once it is copied, else what was there. */
  function NewByte(texels: seq<byte>, was: byte, px: nat, py: nat, k: nat, cx: nat, cy: nat, tx: nat, ty: nat): byte
    requires |texels| == 64 && k < 4
  {
    if px / 4 == cx && py / 4 == cy && Before(px % 4, py % 4, tx, ty) then texels[(py % 4 * 4 + px % 4) * 4 + k] else was
  }

  lemma BlockCopiedStep(was: seq<byte>, rgba: seq<byte>, texels: seq<byte>, cx: nat, cy: nat, tx: nat, ty: nat, w: nat, h: nat)
    requires |texels| == 64 && tx < 4 && ty < 4 && BlockCopied(was, rgba, texels, cx, cy, tx, ty, w, h)
    ensures var px, py := cx * 4 + tx, cy * 4 + ty;
            if px >= w || py >= h then BlockCopied(was, rgba, texels, cx, cy, tx + 1, ty, w, h)
            else LinAt(px, py, 0, w, 4) + 4 <= |rgba|
                 && BlockCopied(was, Copied(rgba, LinAt(px, py, 0, w, 4), texels, (ty * 4 + tx) * 4, 4),
                                texels, cx, cy, tx + 1, ty, w, h)
  {
    var px, py := cx * 4 + tx, cy * 4 + ty;
    if px < w && py < h {
      LinInside(px, py, w, h, 4);
      var o, s := LinAt(px, py, 0, w, 4), (ty * 4 + tx) * 4;
      var r := Copied(rgba, o, texels, s, 4);
      forall px': nat, py': nat, k: nat | px' < w && py' < h && k < 4
        ensures LinAt(px', py', k, w, 4) < |r|
        ensures r[LinAt(px', py', k, w, 4)] == NewByte(texels, was[LinAt(px', py', k, w, 4)], px', py', k, cx, cy, tx + 1, ty)
      {
        var i, b := LinAt(px', py', k, w, 4), was[LinAt(px', py', k, w, 4)];
        assert rgba[i] == NewByte(texels, b, px', py', k, cx, cy, tx, ty);
        CopiedAt(rgba, o, texels, s, 4, i);
        if px' == px && py' == py {
          ThisByte(texels, b, k, cx, cy, tx, ty);
        } else {
          LinApart(px', py', px, py, w, 4);
          OtherByte(texels, b, px', py', k, cx, cy, tx, ty);
        }
      }
    } else {
      forall px': nat, py': nat, k: nat | px' < w && py' < h && k < 4
        ensures rgba[LinAt(px', py', k, w, 4)] == NewByte(texels, was[LinAt(px', py', k, w, 4)], px', py', k, cx, cy, tx + 1, ty)
      {
        OtherByte(texels, was[LinAt(px', py', k, w, 4)], px', py', k, cx, cy, tx, ty);
      }
    }
  }

  lemma ThisByte(texels: seq<byte>, was: byte, k: nat, cx: nat, cy: nat, tx: nat, ty: nat)
    requires |texels| == 64 && tx < 4 && ty < 4 && k < 4
    ensures NewByte(texels, was, cx * 4 + tx, cy * 4 + ty, k, cx, cy, tx + 1, ty) == texels[(ty * 4 + tx) * 4 + k]
  {
    DivMod(cx, 4, tx);
    DivMod(cy, 4, ty);
  }

  lemma OtherByte(texels: seq<byte>, was: byte, px: nat, py: nat, k: nat, cx: nat, cy: nat, tx: nat, ty: nat)
    requires |texels| == 64 && tx < 4 && ty < 4 && k < 4 && (px != cx * 4 + tx || py != cy * 4 + ty)
    ensures NewByte(texels, was, px, py, k, cx, cy, tx + 1, ty) == NewByte(texels, was, px, py, k, cx, cy, tx, ty)
  {
    InBlock(px, cx, tx);
    InBlock(py, cy, ty);
  }

  lemma InBlock(px: nat, cx: nat, tx: nat)
    requires tx < 4
    ensures px == cx * 4 + tx <==> px / 4 == cx && px % 4 == tx
  {
    Euclid(px, 4);
    DivMod(cx, 4, tx);
  }

  /** Copies the texels of one block into the picture; texels outside it are cropped. */
  method WriteBlock(texels: array<byte>, rgba: array<byte>, cx: nat, cy: nat, w: u32, h: u32)
    requires texels.Length == 64 && rgba.Length == LinSize(w, h, 4) && texels != rgba
    modifies rgba
    ensures BlockCopied(old(rgba[..]), rgba[..], texels[..], cx, cy, 0, 4, w, h)
  {
    ghost var was := rgba[..];
    BlockCopiedStart(was, texels[..], cx, cy, w, h);
    for ty := 0 to 4
      invariant BlockCopied(was, rgba[..], texels[..], cx, cy, 0, ty, w, h)
    {
      for tx := 0 to 4
        invariant BlockCopied(was, rgba[..], texels[..], cx, cy, tx, ty, w, h)
      {
        BlockCopiedStep(was, rgba[..], texels[..], cx, cy, tx, ty, w, h);
        var px, py := cx * 4 + tx, cy * 4 + ty;
        if px < w && py < h {
          CopyBytes(texels, (ty * 4 + tx) * 4, rgba, (py * w + px) * 4, 4);
        }
      }
      BlockCopiedRow(was, rgba[..], texels[..], cx, cy, ty, w, h);
    }
  }

  lemma BlockCopiedStart(was: seq<byte>, texels: seq<byte>, cx: nat, cy: nat, w: nat, h: nat)
    requires |texels| == 64 && |was| == LinSize(w, h, 4)
    ensures BlockCopied(was, was, texels, cx, cy, 0, 0, w, h)
  {
    forall px: nat, py: nat, k: nat | px < w && py < h && k < 4
      ensures LinAt(px, py, k, w, 4) < |was|
    {
      LinInside(px, py, w, h, 4);
    }
  }

  lemma BlockCopiedRow(was: seq<byte>, rgba: seq<byte>, texels: seq<byte>, cx: nat, cy: nat, ty: nat, w: nat, h: nat)
    requires |texels| == 64 && BlockCopied(was, rgba, texels, cx, cy, 4, ty, w, h)
    ensures BlockCopied(was, rgba, texels, cx, cy, 0, ty + 1, w, h)
  {
    forall px: nat, py: nat, k: nat | px < w && py < h && k < 4
      ensures rgba[LinAt(px, py, k, w, 4)] == NewByte(texels, was[LinAt(px, py, k, w, 4)], px, py, k, cx, cy, 0, ty + 1)
    {
      assert Before(px % 4, py % 4, 4, ty) == Before(px % 4, py % 4, 0, ty + 1);
    }
  }

  /** The decoded texels of one block, and where they go. */
  method DecodeBlock(blk: seq<byte>, fmt: nat, texels: array<byte>)
    requires IsCompressed(fmt) && |blk| == BytesPerBlock(fmt) && texels.Length == 64
    modifies texels
    ensures forall i :: 0 <= i < 16 ==> TexelIn(texels[..], i) == BlockTexel(blk, i, fmt)
  {
    if fmt == FMT_DXT1 {
      DecodeBC1Color(blk, texels, true);
    } else if fmt == FMT_DXT2_3 {
      DecodeBC2(blk, texels);
    } else if fmt == FMT_DXT4_5 {
      DecodeBC3(blk, texels);
    } else {
      for i := 0 to 16
        invariant forall j :: 0 <= j < i ==> TexelIn(texels[..], j) == BlockTexel(blk, j, fmt)
      {
        texels[i * 4], texels[i * 4 + 1], texels[i * 4 + 2], texels[i * 4 + 3] := 128, 128, 128, 255;
      }
    }
  }

  /** Once a block's texels are copied, its pixels are in place and the earlier ones still are. */
  lemma BlockPictured(lin: seq<byte>, d: Desc, was: seq<byte>, rgba: seq<byte>, texels: seq<byte>, cx: nat, cy: nat)
    requires Decodable(d) && IsCompressed(d.format) && |lin| == LinSize(Across(d), Down(d), BytesPerBlock(d.format))
    requires PicturedUpTo(lin, d, was, cx, cy) && cx < Across(d) && cy < Down(d) && IsBlock(lin, d, texels, cx, cy)
    requires BlockCopied(was, rgba, texels, cx, cy, 0, 4, d.width, d.height)
    ensures PicturedUpTo(lin, d, rgba, cx + 1, cy)
  {
    forall px: nat, py: nat, k: nat | px < d.width && py < d.height && k < 4 && Before(px / 4, py / 4, cx + 1, cy)
      ensures LinAt(px, py, k, d.width, 4) < |rgba|
      ensures rgba[LinAt(px, py, k, d.width, 4)] == PixelOf(lin, d, px, py).Channel(k)
    {
      var i := LinAt(px, py, k, d.width, 4);
      assert i < |rgba| && rgba[i] == NewByte(texels, was[i], px, py, k, cx, cy, 0, 4);
      if px / 4 == cx && py / 4 == cy {
        OwnPixel(lin, d, texels, cx, cy, px, py, k, was[i]);
      } else {
        assert was[i] == PixelOf(lin, d, px, py).Channel(k);
      }
    }
  }

  /** The 16 texels are those of block (cx, cy). */
  ghost predicate IsBlock(lin: seq<byte>, d: Desc, texels: seq<byte>, cx: nat, cy: nat)
    requires Decodable(d) && IsCompressed(d.format)
  {
    var o := LinAt(cx, cy, 0, Across(d), BytesPerBlock(d.format));
    && |texels| == 64 && o + BytesPerBlock(d.format) <= |lin|
    && forall i :: 0 <= i < 16 ==> TexelIn(texels, i) == TexelAt(lin, d.format, o, i)
  }

  lemma OwnPixel(lin: seq<byte>, d: Desc, texels: seq<byte>, cx: nat, cy: nat, px: nat, py: nat, k: nat, was: byte)
    requires Decodable(d) && IsCompressed(d.format) && |lin| == LinSize(Across(d), Down(d), BytesPerBlock(d.format))
    requires IsBlock(lin, d, texels, cx, cy) && px < d.width && py < d.height && k < 4 && px / 4 == cx && py / 4 == cy
    ensures NewByte(texels, was, px, py, k, cx, cy, 0, 4) == PixelOf(lin, d, px, py).Channel(k)
  {
    OwnByte(texels, was, px, py, k);
    OwnTexel(lin, d, texels, px, py, py % 4 * 4 + px % 4);
  }

  lemma OwnByte(texels: seq<byte>, was: byte, px: nat, py: nat, k: nat)
    requires |texels| == 64 && k < 4
    ensures NewByte(texels, was, px, py, k, px / 4, py / 4, 0, 4) == TexelIn(texels, py % 4 * 4 + px % 4).Channel(k)
  {
    var i := py % 4 * 4 + px % 4;
    TexelChannel(texels, i, k);
    assert Before(px % 4, py % 4, 0, 4);
  }

  lemma OwnTexel(lin: seq<byte>, d: Desc, texels: seq<byte>, px: nat, py: nat, i: nat)
    requires Decodable(d) && IsCompressed(d.format) && |lin| == LinSize(Across(d), Down(d), BytesPerBlock(d.format))
    requires px < d.width && py < d.height && i == py % 4 * 4 + px % 4 && IsBlock(lin, d, texels, px / 4, py / 4)
    ensures TexelIn(texels, i) == PixelOf(lin, d, px, py)
  {
    var o := LinAt(px / 4, py / 4, 0, Across(d), BytesPerBlock(d.format));
    assert TexelIn(texels, i) == TexelAt(lin, d.format, o, i);
  }

  lemma BlockRow(lin: seq<byte>, d: Desc, rgba: seq<byte>, cy: nat)
    requires Decodable(d) && IsCompressed(d.format) && |lin| == LinSize(Across(d), Down(d), BytesPerBlock(d.format))
    requires PicturedUpTo(lin, d, rgba, Across(d), cy)
    ensures PicturedUpTo(lin, d, rgba, 0, cy + 1)
  {
    forall px: nat, py: nat, k: nat | px < d.width && py < d.height && k < 4 && Before(px / 4, py / 4, 0, cy + 1)
      ensures LinAt(px, py, k, d.width, 4) < |rgba|
      ensures rgba[LinAt(px, py, k, d.width, 4)] == PixelOf(lin, d, px, py).Channel(k)
    {
      assert px / 4 < Across(d);
      assert Before(px / 4, py / 4, Across(d), cy);
    }
  }

  /** Block (cx, cy), after those before it. */
  method DecodeOneBlock(lin: array<byte>, d: Desc, rgba: array<byte>, cx: nat, cy: nat)
    requires Decodable(d) && IsCompressed(d.format) && lin != rgba && cx < Across(d) && cy < Down(d)
    requires lin.Length == LinSize(Across(d), Down(d), BytesPerBlock(d.format)) && rgba.Length == LinSize(d.width, d.height, 4)
    requires PicturedUpTo(lin[..], d, rgba[..], cx, cy)
    modifies rgba
    ensures PicturedUpTo(lin[..], d, rgba[..], cx + 1, cy)
  {
    var bw, bh, bpb := Across(d), Down(d), BytesPerBlock(d.format);
    var o := (cy * bw + cx) * bpb;
    LinInside(cx, cy, bw, bh, bpb);
    var texels := new byte[64](_ => 0);
    DecodeBlock(lin[o..o + bpb], d.format, texels);
    ghost var was := rgba[..];
    assert lin[o..o + bpb] == lin[..][o..o + bpb];
    WriteBlock(texels, rgba, cx, cy, d.width, d.height);
    BlockPictured(lin[..], d, was, rgba[..], texels[..], cx, cy);
  }

  method DecodeBlocks(lin: array<byte>, d: Desc, rgba: array<byte>)
    requires Decodable(d) && IsCompressed(d.format) && lin != rgba
    requires lin.Length == LinSize(Across(d), Down(d), BytesPerBlock(d.format)) && rgba.Length == LinSize(d.width, d.height, 4)
    modifies rgba
    ensures IsPicture(lin[..], d, rgba[..])
  {
    var bw, bh := Across(d), Down(d);
    var cy := 0;
    while cy < bh
      invariant cy <= bh && PicturedUpTo(lin[..], d, rgba[..], 0, cy)
    {
      var cx := 0;
      while cx < bw
        invariant cx <= bw && PicturedUpTo(lin[..], d, rgba[..], cx, cy)
      {
        DecodeOneBlock(lin, d, rgba, cx, cy);
        cx := cx + 1;
      }
      BlockRow(lin[..], d, rgba[..], cy);
      cy := cy + 1;
    }
    PictureDone(lin[..], d, rgba[..]);
  }

  lemma PictureDone(lin: seq<byte>, d: Desc, rgba: seq<byte>)
    requires Decodable(d) && IsCompressed(d.format) && |lin| == LinSize(Across(d), Down(d), BytesPerBlock(d.format))
    requires PicturedUpTo(lin, d, rgba, 0, Down(d))
    ensures IsPicture(lin, d, rgba)
  {
    forall px: nat, py: nat, k: nat | px < d.width && py < d.height && k < 4
      ensures LinAt(px, py, k, d.width, 4) < |rgba|
      ensures rgba[LinAt(px, py, k, d.width, 4)] == PixelOf(lin, d, px, py).Channel(k)
    {
      assert Before(px / 4, py / 4, 0, Down(d));
    }
  }

  // ---- uncompressed formats and the top level ----------------------------------------------------

  /** rgba with texel i replaced by c. */
  function WithTexel(rgba: seq<byte>, i: nat, c: Rgba): seq<byte>
    requires i * 4 + 4 <= |rgba|
  {
    rgba[..i * 4] + [c.r, c.g, c.b, c.a] + rgba[i * 4 + 4..]
  }

  method SetTexel(rgba: array<byte>, i: nat, c: Rgba)
    requires i * 4 + 4 <= rgba.Length
    modifies rgba
    ensures rgba[..] == WithTexel(old(rgba[..]), i, c)
  {
    rgba[i * 4], rgba[i * 4 + 1], rgba[i * 4 + 2], rgba[i * 4 + 3] := c.r, c.g, c.b, c.a;
  }

  method ConvertTexels(lin: array<byte>, d: Desc, rgba: array<byte>)
    requires Decodable(d) && !IsCompressed(d.format) && lin != rgba
    requires lin.Length == LinSize(Across(d), Down(d), BytesPerBlock(d.format)) && rgba.Length == LinSize(d.width, d.height, 4)
    modifies rgba
    ensures IsPicture(lin[..], d, rgba[..])
  {
    var n, bpb := d.height * d.width, BytesPerBlock(d.format);
    var i := 0;
    while i < n
      invariant i <= n && Converted(lin[..], bpb, d.format, rgba[..], i)
    {
      Steps(i, n, bpb);
      var s := lin[i * bpb..i * bpb + bpb];
      var c := ConvUncompressed(s, d.format);
      ConvertedStep(lin[..], bpb, d.format, rgba[..], i);
      SetTexel(rgba, i, c);
      i := i + 1;
    }
    ConvertedAll(lin[..], d, rgba[..]);
  }

  /** The first n texels are converted. */
  ghost predicate Converted(lin: seq<byte>, p: nat, fmt: nat, rgba: seq<byte>, n: nat)
    requires p == BytesPerBlock(fmt) && p > 0
  {
    forall j: nat :: j < n ==> j * p + p <= |lin| && j * 4 + 4 <= |rgba|
                               && TexelIn(rgba, j) == ConvUncompressed(lin[j * p..j * p + p], fmt)
  }

  lemma ConvertedStep(lin: seq<byte>, p: nat, fmt: nat, rgba: seq<byte>, i: nat)
    requires p == BytesPerBlock(fmt) && p > 0 && Converted(lin, p, fmt, rgba, i)
    requires i * p + p <= |lin| && i * 4 + 4 <= |rgba|
    ensures Converted(lin, p, fmt, WithTexel(rgba, i, ConvUncompressed(lin[i * p..i * p + p], fmt)), i + 1)
  {
    var c := ConvUncompressed(lin[i * p..i * p + p], fmt);
    var r := WithTexel(rgba, i, c);
    TexelSet(rgba, i, c, i);
    forall j: nat | j < i
      ensures j * 4 + 4 <= |r| && TexelIn(r, j) == TexelIn(rgba, j)
    {
      TexelSet(rgba, i, c, j);
    }
  }

  lemma TexelSet(rgba: seq<byte>, i: nat, c: Rgba, j: nat)
    requires i * 4 + 4 <= |rgba| && j <= i
    ensures var r := WithTexel(rgba, i, c);
            |r| == |rgba| && j * 4 + 4 <= |r| && TexelIn(r, j) == if j == i then c else TexelIn(rgba, j)
  {
  }

  lemma FlatIndex(x: nat, y: nat, w: nat, h: nat)
    requires x < w && y < h
    ensures y * w + x < h * w
  {
    MulLe(y + 1, h, w);
    assert (y + 1) * w == y * w + w;
  }

  lemma ConvertedAll(lin: seq<byte>, d: Desc, rgba: seq<byte>)
    requires Decodable(d) && !IsCompressed(d.format)
    requires |lin| == LinSize(Across(d), Down(d), BytesPerBlock(d.format)) && |rgba| == LinSize(d.width, d.height, 4)
    requires Converted(lin, BytesPerBlock(d.format), d.format, rgba, d.height * d.width)
    ensures IsPicture(lin, d, rgba)
  {
    forall px: nat, py: nat, k: nat | px < d.width && py < d.height && k < 4
      ensures LinAt(px, py, k, d.width, 4) < |rgba|
      ensures rgba[LinAt(px, py, k, d.width, 4)] == PixelOf(lin, d, px, py).Channel(k)
    {
      FlatIndex(px, py, d.width, d.height);
      ConvertedAt(lin, d.format, rgba, d.width, d.height, px, py, k);
    }
  }

  /** Channel k of one texel. */
  lemma ConvertedAt(lin: seq<byte>, fmt: nat, rgba: seq<byte>, w: nat, h: nat, px: nat, py: nat, k: nat)
    requires !IsCompressed(fmt) && BytesPerBlock(fmt) > 0 && |lin| == LinSize(w, h, BytesPerBlock(fmt))
    requires px < w && py < h && k < 4 && py * w + px < h * w
    requires Converted(lin, BytesPerBlock(fmt), fmt, rgba, h * w)
    ensures LinAt(px, py, k, w, 4) < |rgba| && rgba[LinAt(px, py, k, w, 4)] == PixelIn(lin, fmt, w, h, px, py).Channel(k)
  {
    var j := py * w + px;
    ConvertedTexel(lin, fmt, rgba, w, h, px, py, j);
    TexelChannel(rgba, j, k);
  }

  lemma ConvertedTexel(lin: seq<byte>, fmt: nat, rgba: seq<byte>, w: nat, h: nat, px: nat, py: nat, j: nat)
    requires !IsCompressed(fmt) && BytesPerBlock(fmt) > 0 && |lin| == LinSize(w, h, BytesPerBlock(fmt))
    requires px < w && py < h && j == py * w + px < h * w
    requires Converted(lin, BytesPerBlock(fmt), fmt, rgba, h * w)
    ensures j * 4 + 4 <= |rgba| && TexelIn(rgba, j) == PixelIn(lin, fmt, w, h, px, py)
  {
    assert LinAt(px, py, 0, w, BytesPerBlock(fmt)) == j * BytesPerBlock(fmt);
  }

  lemma TexelChannel(rgba: seq<byte>, j: nat, k: nat)
    requires j * 4 + 4 <= |rgba| && k < 4
    ensures rgba[j * 4 + k] == TexelIn(rgba, j).Channel(k)
  {
  }

  method CopyRows(data: array<byte>, lin: array<byte>, w: u32, h: u32, p: u32, pitch: u32)
    requires data != lin && lin.Length == LinSize(w, h, p)
    requires forall y: nat :: y < h ==> LinAt(0, y, 0, pitch, p) + w * p <= data.Length
    modifies lin
    ensures SameRows(lin[..], data[..], w, h, p, pitch)
  {
    var y := 0;
    while y < h
      invariant y <= h && SameRows(lin[..], data[..], w, y, p, pitch)
    {
      RowInside(y, w, h, p);
      SameRowsStep(lin[..], data[..], w, y, p, pitch);
      CopyBytes(data, LinAt(0, y, 0, pitch, p), lin, LinAt(0, y, 0, w, p), w * p);
      y := y + 1;
    }
  }

  lemma RowInside(y: nat, w: nat, h: nat, p: nat)
    requires y < h
    ensures LinAt(0, y, 0, w, p) + w * p <= LinSize(w, h, p)
  {
    MulLe(y + 1, h, w);
    assert (y + 1) * w == y * w + w;
    MulLe(y * w + w, h * w, p);
    assert (y * w + w) * p == y * w * p + w * p;
  }

  /** Where a block lies in its row. */
  lemma InRow(x: nat, y: nat, k: nat, w: nat, p: nat, rowBlocks: nat)
    requires x < rowBlocks && k < p
    ensures LinAt(x, y, k, w, p) == LinAt(0, y, 0, w, p) + x * p + k && x * p + k < rowBlocks * p
  {
    Steps(x, rowBlocks, p);
    assert (y * w + x) * p == y * w * p + x * p;
  }

  lemma SameRowsStep(was: seq<byte>, data: seq<byte>, w: nat, y: nat, p: nat, pitch: nat)
    requires SameRows(was, data, w, y, p, pitch)
    requires LinAt(0, y, 0, w, p) + w * p <= |was| && LinAt(0, y, 0, pitch, p) + w * p <= |data|
    ensures SameRows(Copied(was, LinAt(0, y, 0, w, p), data, LinAt(0, y, 0, pitch, p), w * p), data, w, y + 1, p, pitch)
  {
    var o, s, n := LinAt(0, y, 0, w, p), LinAt(0, y, 0, pitch, p), w * p;
    var lin := Copied(was, o, data, s, n);
    forall x': nat, y': nat, k: nat | x' < w && y' < y + 1 && k < p
      ensures LinAt(x', y', k, w, p) < |lin| && LinAt(x', y', k, pitch, p) < |data|
      ensures lin[LinAt(x', y', k, w, p)] == data[LinAt(x', y', k, pitch, p)]
    {
      if y' < y {
        EarlierRow(x', y', k, w, y, p);
      } else {
        InRow(x', y, k, w, p, w);
        InRow(x', y, k, pitch, p, w);
      }
      CopiedAt(was, o, data, s, n, LinAt(x', y', k, w, p));
    }
  }

  lemma EarlierRow(x: nat, y: nat, k: nat, w: nat, h: nat, p: nat)
    requires x < w && y < h && k < p
    ensures LinAt(x, y, k, w, p) < LinAt(0, h, 0, w, p)
  {
    LinInside(x, y, w, h, p);
    assert LinAt(0, h, 0, w, p) == h * w * p;
  }

  /** What a decode reads lies inside the data. */
  ghost predicate Readable(len: nat, d: Desc)
    requires Decodable(d)
  {
    var w, h, p := Across(d), Down(d), BytesPerBlock(d.format);
    if d.tiled then Covers(len, Xenos(w, p), w, h, p)
    else if IsCompressed(d.format) then LinSize(w, h, p) <= len
    else forall y: nat :: y < h ==> LinAt(0, y, 0, Pitch(d), p) + w * p <= len
  }

  /** DecodeBytesToRGBA: false for an empty or unknown texture, else the picture. */
  method DecodeBytesToRGBA(data: array<byte>, d: Desc) returns (ok: bool, rgba: array<byte>)
    requires d.width > 0 && d.height > 0 && BytesPerBlock(d.format) > 0 ==> Decodable(d) && Readable(data.Length, d)
    ensures fresh(rgba) && ok == (d.width > 0 && d.height > 0 && BytesPerBlock(d.format) > 0)
    ensures ok ==> IsDecoding(data[..], d, rgba[..])
  {
    if d.width == 0 || d.height == 0 || BytesPerBlock(d.format) == 0 {
      rgba := new byte[0];
      return false, rgba;
    }
    ok := true;
    rgba := new byte[LinSize(d.width, d.height, 4)](_ => 0);
    var lin := LinearBytes(data, d);
    ghost var bytes := lin[..];
    EndianSwap(lin, d.endian);
    if IsCompressed(d.format) {
      DecodeBlocks(lin, d, rgba);
    } else {
      ConvertTexels(lin, d, rgba);
    }
    assert IsLinear(data[..], d, bytes) && IsPicture(Swapped(bytes, d.endian), d, rgba[..]);
  }

  method LinearBytes(data: array<byte>, d: Desc) returns (lin: array<byte>)
    requires Decodable(d) && Readable(data.Length, d)
    ensures fresh(lin) && IsLinear(data[..], d, lin[..])
  {
    var w, h, p := Across(d), Down(d), BytesPerBlock(d.format);
    lin := new byte[LinSize(w, h, p)](_ => 0);
    if d.tiled {
      Untile(data, lin, w, h, p);
    } else if IsCompressed(d.format) {
      CopyBytes(data, 0, lin, 0, lin.Length);
      WholeCopy(lin[..], data[..], w, h, p);
    } else {
      CopyRows(data, lin, w, h, p, Pitch(d));
    }
  }

  lemma WholeCopy(lin: seq<byte>, data: seq<byte>, w: nat, h: nat, p: nat)
    requires |lin| == LinSize(w, h, p) <= |data| && lin == data[..|lin|]
    ensures SameRows(lin, data, w, h, p, w)
  {
    forall x: nat, y: nat, k: nat | x < w && y < h && k < p
      ensures LinAt(x, y, k, w, p) < |lin| && lin[LinAt(x, y, k, w, p)] == data[LinAt(x, y, k, w, p)]
    {
      LinInside(x, y, w, h, p);
    }
  }
}
