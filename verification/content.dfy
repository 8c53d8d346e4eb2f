/**
 * The sprite post-processing of Content.LoadSpriteTexture, once the image
 * is decoded to 4 bytes per pixel (RGBA, rows top to bottom): if any
 * border pixel is fully transparent, the image is copied into the middle
 * of a buffer one pixel larger on every side whose border is all zero
 * bytes; otherwise the decoded bytes are used as they are.
 */
module Content {
  import opened IntWidth

  /** Byte `c` of pixel (`x`, `y`) in a 4-channel image `w` pixels wide. */
  function ByteAt(w: int, x: int, y: int, c: int): int {
    4 * (x + y * w) + c
  }

  /**
   * `IsImageBorder`: whether the pixel holding byte `i` is in the first or
   * last column or row. The source's `/` and `%` truncate, which agrees
   * with Dafny's on the non-negative operands it is called with.
   */
  predicate IsImageBorder(w: int, h: int, i: int)
    requires w > 0 && i >= 0
  {
    var x := i / 4 % w;
    var y := i / 4 / w;
    x == 0 || y == 0 || x == w - 1 || y == h - 1
  }

  /** What the decoder hands over: positive dimensions and 4 bytes per pixel. */
  predicate Decoded(w: int, h: int, data: seq<Byte>) {
    w > 0 && h > 0 && |data| == 4 * (w * h)
  }

  // ------------------------------------------------------------ pixel arithmetic

  lemma MulMono(a: int, b: int, c: int)
    requires a >= 0 && b <= c
    ensures a * b <= a * c
  {
    assert a * c - a * b == a * (c - b);
  }

  /** Byte `c` of pixel (`x`, `y`) decodes back to that pixel and channel. */
  lemma PixelOf(w: int, x: int, y: int, c: int)
    requires w > 0 && 0 <= x < w && 0 <= y && 0 <= c < 4
    ensures ByteAt(w, x, y, c) / 4 == x + y * w && ByteAt(w, x, y, c) % 4 == c
    ensures (x + y * w) % w == x && (x + y * w) / w == y
  {
    DivModUnique(ByteAt(w, x, y, c), 4, x + y * w, c);
    DivModUnique(x + y * w, w, y, x);
  }

  /** Every byte of a `w` by `h` image is byte `k % 4` of some pixel inside it. */
  lemma Decompose(w: int, h: int, k: int)
    requires w > 0 && 0 <= k < 4 * (w * h)
    ensures 0 <= k / 4 % w < w && 0 <= k / 4 / w < h && 0 <= k % 4 < 4
    ensures k == ByteAt(w, k / 4 % w, k / 4 / w, k % 4)
  {
    var p := k / 4;
    assert k == 4 * p + k % 4;
    assert p < w * h;
    var y, x := p / w, p % w;
    assert p == w * y + x;
    if y >= h {
      MulMono(w, h, y);
      assert false;
    }
    if y < 0 {
      MulMono(w, y, -1);
      assert false;
    }
  }

  /** The border test at pixel (`x`, `y`) is the test on its coordinates. */
  lemma BorderAt(w: int, h: int, x: int, y: int, c: int)
    requires w > 0 && 0 <= x < w && 0 <= y && 0 <= c < 4
    ensures IsImageBorder(w, h, ByteAt(w, x, y, c)) <==> x == 0 || y == 0 || x == w - 1 || y == h - 1
  {
    PixelOf(w, x, y, c);
  }

  /** A pixel strictly inside a `w` by `h` image has its bytes inside the buffer. */
  lemma InsideBuffer(w: int, h: int, x: int, y: int, c: int)
    requires 0 <= x < w && 0 <= y < h && 0 <= c < 4
    ensures 0 <= ByteAt(w, x, y, c) < 4 * (w * h)
  {
    MulMono(w, y, h - 1);
    assert y * w == w * y;
    assert w * (h - 1) == w * h - w;
  }

  // ------------------------------------------------------------ the decision

  /** Pixel (`x`, `y`) is on the border and its alpha byte is zero. */
  predicate TransparentBorderAt(w: int, h: int, data: seq<Byte>, x: int, y: int)
    requires Decoded(w, h, data)
  {
    0 <= x < w && 0 <= y < h
    && (x == 0 || y == 0 || x == w - 1 || y == h - 1)
    && (InsideBuffer(w, h, x, y, 3); data[ByteAt(w, x, y, 3)] == 0)
  }

  /** Some border pixel of the image is fully transparent. */
  ghost predicate HasTransparentBorder(w: int, h: int, data: seq<Byte>)
    requires Decoded(w, h, data)
  {
    exists x, y :: TransparentBorderAt(w, h, data, x, y)
  }

  /** The loop's view of the same test: the `p`-th 4-byte group is a transparent border pixel. */
  predicate TransparentBorderGroup(w: int, h: int, data: seq<Byte>, p: int)
    requires w > 0
  {
    0 <= p && 4 * p + 3 < |data| && IsImageBorder(w, h, 4 * p) && data[4 * p + 3] == 0
  }

  /** The group test and the coordinate test agree. */
  lemma GroupIsPixel(w: int, h: int, data: seq<Byte>, p: int)
    requires Decoded(w, h, data) && 0 <= p < w * h
    ensures TransparentBorderGroup(w, h, data, p) <==> TransparentBorderAt(w, h, data, p % w, p / w)
  {
    Decompose(w, h, 4 * p);
    DivModUnique(4 * p, 4, p, 0);
    var x, y := p % w, p / w;
    PixelOf(w, x, y, 3);
    assert 4 * p + 3 == ByteAt(w, x, y, 3);
  }

  /**
   * The scan at Content.cs:28-38: every 4-byte group in order, stopping at
   * the first border pixel whose alpha byte is zero.
   */
  method ShouldCreatePaddedAlphaBorder(w: int, h: int, data: seq<Byte>) returns (pad: bool)
    requires Decoded(w, h, data)
    ensures pad <==> exists p :: 0 <= p < w * h && TransparentBorderGroup(w, h, data, p)
  {
    pad := false;
    var i := 0;
    ghost var p := 0;
    while i < |data|
      invariant 0 <= p <= w * h && i == 4 * p
      invariant forall q :: 0 <= q < p ==> !TransparentBorderGroup(w, h, data, q)
    {
      var a := data[i + 3];
      if IsImageBorder(w, h, i) && a == 0 {
        pad := true;
        assert TransparentBorderGroup(w, h, data, p);
        break;
      }
      i := i + 4;
      p := p + 1;
    }
  }

  /** The scan answers exactly whether some border pixel is fully transparent. */
  lemma ScanFindsTransparentBorder(w: int, h: int, data: seq<Byte>)
    requires Decoded(w, h, data)
    ensures (exists p :: 0 <= p < w * h && TransparentBorderGroup(w, h, data, p)) <==> HasTransparentBorder(w, h, data)
  {
    if p :| 0 <= p < w * h && TransparentBorderGroup(w, h, data, p) {
      GroupIsPixel(w, h, data, p);
    }
    if x, y :| TransparentBorderAt(w, h, data, x, y) {
      var p := x + y * w;
      InsideBuffer(w, h, x, y, 0);
      PixelOf(w, x, y, 0);
      GroupIsPixel(w, h, data, p);
    }
  }

  // ------------------------------------------------------------ the padded copy

  /** The padded buffer's size, `(w + 2) * (h + 2) * 4`, fits in a C# `int`. */
  predicate PaddedFits(w: int, h: int) {
    IsInt((w + 2) * (h + 2) * 4)
  }

  /**
   * A non-border pixel of the padded image takes the bytes of the source
   * pixel one column left and one row up, which lies inside the source.
   */
  lemma InteriorSource(w: int, h: int, i: int, c: int)
    requires w > 0 && h > 0 && 0 <= i < 4 * ((w + 2) * (h + 2)) && 0 <= c < 4
    requires !IsImageBorder(w + 2, h + 2, i)
    ensures var x := i / 4 % (w + 2) - 1; var y := i / 4 / (w + 2) - 1;
      0 <= x < w && 0 <= y < h && 0 <= (x + y * w) * 4 + c < 4 * (w * h)
  {
    Decompose(w + 2, h + 2, i);
    var x := i / 4 % (w + 2) - 1;
    var y := i / 4 / (w + 2) - 1;
    InsideBuffer(w, h, x, y, c);
  }

  /** The pixel of the source that the padded group starting at byte `i` copies (Content.cs:51-53). */
  function SourcePixel(w: int, i: int): int
    requires w > 0 && i >= 0
  {
    var x := i / 4 % (w + 2) - 1;
    var y := i / 4 / (w + 2) - 1;
    x + y * w
  }

  /** Byte `k` of the padded buffer: zero on its border, else the matching byte of the source pixel. */
  function PaddedByte(w: int, h: int, data: seq<Byte>, k: int): Byte
    requires Decoded(w, h, data) && 0 <= k < 4 * ((w + 2) * (h + 2))
  {
    var i := k - k % 4;
    if IsImageBorder(w + 2, h + 2, i) then 0
    else
      InteriorSource(w, h, i, k % 4);
      data[SourcePixel(w, i) * 4 + k % 4]
  }

  /** The first `to` bytes of `padded` are the intended ones. */
  predicate PaddedBytes(w: int, h: int, data: seq<Byte>, padded: seq<Byte>, to: int)
    requires Decoded(w, h, data) && 0 <= to <= |padded| == 4 * ((w + 2) * (h + 2))
  {
    forall k :: 0 <= k < to ==> padded[k] == PaddedByte(w, h, data, k)
  }

  /** Byte `c` of the group at `i` is decided by that group's border test. */
  lemma GroupByte(w: int, h: int, data: seq<Byte>, i: int, c: int)
    requires Decoded(w, h, data) && 0 <= i < 4 * ((w + 2) * (h + 2)) && i % 4 == 0 && 0 <= c < 4
    ensures i + c < 4 * ((w + 2) * (h + 2)) && i + 4 <= 4 * ((w + 2) * (h + 2)) && (i + 4) % 4 == 0
    ensures IsImageBorder(w + 2, h + 2, i) ==> PaddedByte(w, h, data, i + c) == 0
    ensures !IsImageBorder(w + 2, h + 2, i) ==>
      0 <= SourcePixel(w, i) * 4 + c < |data| && PaddedByte(w, h, data, i + c) == data[SourcePixel(w, i) * 4 + c]
  {
    DivModUnique(4 * ((w + 2) * (h + 2)), 4, (w + 2) * (h + 2), 0);
    DivModUnique(i + c, 4, i / 4, c);
    DivModUnique(i + 4, 4, i / 4 + 1, 0);
    if !IsImageBorder(w + 2, h + 2, i) {
      InteriorSource(w, h, i, c);
    }
  }

  /** Writing the intended four bytes of the group at `i` extends the prefix by one group. */
  lemma ExtendGroup(w: int, h: int, data: seq<Byte>, padded: seq<Byte>, next: seq<Byte>, i: int)
    requires Decoded(w, h, data) && |padded| == |next| == 4 * ((w + 2) * (h + 2))
    requires 0 <= i && i + 3 < |padded|
    requires PaddedBytes(w, h, data, padded, i) && next[..i] == padded[..i]
    requires next[i] == PaddedByte(w, h, data, i) && next[i + 1] == PaddedByte(w, h, data, i + 1)
    requires next[i + 2] == PaddedByte(w, h, data, i + 2) && next[i + 3] == PaddedByte(w, h, data, i + 3)
    ensures PaddedBytes(w, h, data, next, i + 4)
  {
    forall k | 0 <= k < i + 4
      ensures next[k] == PaddedByte(w, h, data, k)
    {
      if k < i {
        assert next[k] == next[..i][k];
      }
    }
  }

  /** The copy loop at Content.cs:44-63, into a zero-initialised buffer. */
  method PadAlphaBorder(w: int, h: int, data: seq<Byte>) returns (padded: seq<Byte>)
    requires Decoded(w, h, data) && PaddedFits(w, h)
    ensures |padded| == 4 * ((w + 2) * (h + 2))
    ensures PaddedBytes(w, h, data, padded, |padded|)
  {
    var width := w + 2;
    var height := h + 2;
    var paddedSize := width * height * 4;
    assert paddedSize == 4 * (width * height);
    padded := seq(paddedSize, _ => 0);
    var i := 0;
    while i < paddedSize
      invariant 0 <= i <= paddedSize && i % 4 == 0 && |padded| == paddedSize
      invariant PaddedBytes(w, h, data, padded, i)
      invariant forall k :: i <= k < paddedSize ==> padded[k] == 0
    {
      GroupByte(w, h, data, i, 0);
      GroupByte(w, h, data, i, 1);
      GroupByte(w, h, data, i, 2);
      GroupByte(w, h, data, i, 3);
      var next := padded;
      if IsImageBorder(width, height, i) == false {
        var x := i / 4 % width - 1;
        var y := i / 4 / width - 1;
        var index := x + y * w;
        assert index == SourcePixel(w, i);
        var r := data[index * 4];
        var g := data[index * 4 + 1];
        var b := data[index * 4 + 2];
        var a := data[index * 4 + 3];
        next := padded[i := r][i + 1 := g][i + 2 := b][i + 3 := a];
      }
      ExtendGroup(w, h, data, padded, next, i);
      padded := next;
      i := i + 4;
    }
  }

  // ------------------------------------------------------------ in coordinates

  /** Padded pixel (`x`, `y`) and the padded byte the group test looks at agree. */
  lemma PaddedPixel(w: int, h: int, x: int, y: int, c: int)
    requires w > 0 && h > 0 && 0 <= x < w + 2 && 0 <= y < h + 2 && 0 <= c < 4
    ensures 0 <= ByteAt(w + 2, x, y, c) < 4 * ((w + 2) * (h + 2))
    ensures var k := ByteAt(w + 2, x, y, c);
      k - k % 4 == ByteAt(w + 2, x, y, 0) && k % 4 == c
      && ByteAt(w + 2, x, y, 0) / 4 % (w + 2) == x && ByteAt(w + 2, x, y, 0) / 4 / (w + 2) == y
  {
    InsideBuffer(w + 2, h + 2, x, y, c);
    PixelOf(w + 2, x, y, c);
    PixelOf(w + 2, x, y, 0);
  }

  /** Every border pixel of the padded image is four zero bytes. */
  lemma PaddedBorderIsZero(w: int, h: int, data: seq<Byte>, padded: seq<Byte>, x: int, y: int, c: int)
    requires Decoded(w, h, data) && |padded| == 4 * ((w + 2) * (h + 2))
    requires PaddedBytes(w, h, data, padded, |padded|)
    requires 0 <= x < w + 2 && 0 <= y < h + 2 && 0 <= c < 4
    requires x == 0 || y == 0 || x == w + 1 || y == h + 1
    ensures 0 <= ByteAt(w + 2, x, y, c) < |padded| && padded[ByteAt(w + 2, x, y, c)] == 0
  {
    PaddedPixel(w, h, x, y, c);
    var k := ByteAt(w + 2, x, y, c);
    assert padded[k] == PaddedByte(w, h, data, k);
  }

  /** Padded pixel (`x` + 1, `y` + 1) is source pixel (`x`, `y`), channel for channel. */
  lemma PaddedInteriorIsSource(w: int, h: int, data: seq<Byte>, padded: seq<Byte>, x: int, y: int, c: int)
    requires Decoded(w, h, data) && |padded| == 4 * ((w + 2) * (h + 2))
    requires PaddedBytes(w, h, data, padded, |padded|)
    requires 0 <= x < w && 0 <= y < h && 0 <= c < 4
    ensures 0 <= ByteAt(w + 2, x + 1, y + 1, c) < |padded| && 0 <= ByteAt(w, x, y, c) < |data|
    ensures padded[ByteAt(w + 2, x + 1, y + 1, c)] == data[ByteAt(w, x, y, c)]
  {
    PaddedPixel(w, h, x + 1, y + 1, c);
    InsideBuffer(w, h, x, y, c);
    var k := ByteAt(w + 2, x + 1, y + 1, c);
    assert padded[k] == PaddedByte(w, h, data, k);
    assert SourcePixel(w, k - k % 4) == x + y * w;
  }

  /** Byte `c` of pixel (`x`, `y`) of the padded image of a `w`-wide source. */
  function PaddedAt(w: int, x: int, y: int, c: int): int {
    ByteAt(w + 2, x, y, c)
  }

  /**
   * `padded` is `data` framed by one transparent pixel on every side: the
   * frame is zero bytes and pixel (`x`, `y`) inside it is source pixel (`x` - 1, `y` - 1).
   * Every padded pixel is either on the frame or such a copy, so this fixes
   * the buffer completely.
   */
  ghost predicate FramedBy(w: int, h: int, data: seq<Byte>, padded: seq<Byte>)
    requires Decoded(w, h, data)
  {
    |padded| == 4 * ((w + 2) * (h + 2))
    && (forall x, y, c {:trigger PaddedAt(w, x, y, c)} ::
          0 <= x < w + 2 && 0 <= y < h + 2 && 0 <= c < 4 && (x == 0 || y == 0 || x == w + 1 || y == h + 1)
          ==> 0 <= PaddedAt(w, x, y, c) < |padded| && padded[PaddedAt(w, x, y, c)] == 0)
    && (forall x, y, c {:trigger PaddedAt(w, x, y, c)} :: 1 <= x <= w && 1 <= y <= h && 0 <= c < 4
          ==> 0 <= PaddedAt(w, x, y, c) < |padded| && 0 <= ByteAt(w, x - 1, y - 1, c) < |data|
              && padded[PaddedAt(w, x, y, c)] == data[ByteAt(w, x - 1, y - 1, c)])
  }

  /** The byte-level result of the copy loop is the framed image. */
  lemma PaddedBytesFrame(w: int, h: int, data: seq<Byte>, padded: seq<Byte>)
    requires Decoded(w, h, data) && |padded| == 4 * ((w + 2) * (h + 2))
    requires PaddedBytes(w, h, data, padded, |padded|)
    ensures FramedBy(w, h, data, padded)
  {
    forall x, y, c {:trigger PaddedAt(w, x, y, c)}
      | 0 <= x < w + 2 && 0 <= y < h + 2 && 0 <= c < 4 && (x == 0 || y == 0 || x == w + 1 || y == h + 1)
      ensures 0 <= PaddedAt(w, x, y, c) < |padded| && padded[PaddedAt(w, x, y, c)] == 0
    {
      PaddedBorderIsZero(w, h, data, padded, x, y, c);
    }
    forall x, y, c {:trigger PaddedAt(w, x, y, c)} | 1 <= x <= w && 1 <= y <= h && 0 <= c < 4
      ensures 0 <= PaddedAt(w, x, y, c) < |padded| && 0 <= ByteAt(w, x - 1, y - 1, c) < |data|
      ensures padded[PaddedAt(w, x, y, c)] == data[ByteAt(w, x - 1, y - 1, c)]
    {
      PaddedInteriorIsSource(w, h, data, padded, x - 1, y - 1, c);
    }
  }

  // ------------------------------------------------------------ the texture

  /** What `LoadSpriteTexture` returns: the dimensions, the channel count and the pixel bytes. */
  datatype SpriteTexture = SpriteTexture(width: int, height: int, numChannels: int, data: seq<Byte>)

  /**
   * `LoadSpriteTexture` after the decode: a frame-padded copy when some
   * border pixel is fully transparent, the decoded bytes unchanged otherwise.
   */
  method MakeSpriteTexture(w: int, h: int, numChannels: int, data: seq<Byte>) returns (tex: SpriteTexture)
    requires Decoded(w, h, data) && PaddedFits(w, h)
    ensures HasTransparentBorder(w, h, data) ==>
      tex.width == w + 2 && tex.height == h + 2 && tex.numChannels == numChannels && FramedBy(w, h, data, tex.data)
    ensures !HasTransparentBorder(w, h, data) ==> tex == SpriteTexture(w, h, numChannels, data)
  {
    var shouldCreatePaddedAlphaBorder := ShouldCreatePaddedAlphaBorder(w, h, data);
    ScanFindsTransparentBorder(w, h, data);
    if shouldCreatePaddedAlphaBorder {
      var paddedData := PadAlphaBorder(w, h, data);
      PaddedBytesFrame(w, h, data, paddedData);
      tex := SpriteTexture(w + 2, h + 2, numChannels, paddedData);
    } else {
      tex := SpriteTexture(w, h, numChannels, data);
    }
  }
}
