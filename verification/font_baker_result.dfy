/**
 * The validating constructor of FontBakerResult: the baked glyph table, the
 * one-byte-per-pixel bitmap and its dimensions, accepted only after four
 * argument checks, in order. C# exceptions become `Failure` values and null
 * references become `None`.
 */
module FontBakerResults {
  import opened IntWidth
  import opened Wrappers

  /** The exception the constructor throws, with its parameter name or message. */
  datatype ArgumentError =
    | ArgumentNull(paramName: string)
    | ArgumentOutOfRange(paramName: string)
    | Argument(message: string)

  /** A constructed result; `G` stands for `FontGlyphInfo`, which the constructor never looks into. */
  datatype FontBakerResult<G> = FontBakerResult(glyphs: map<int, G>, bitmap: seq<Byte>, width: Int32, height: Int32)

  const TOO_SMALL: string := "pixels.Length should be higher than width * height"

  /** The bitmap holds at least one byte per pixel. */
  predicate Covers<G>(r: FontBakerResult<G>) {
    |r.bitmap| >= r.width * r.height
  }

  /**
   * The constructor as written: `width * height` is evaluated in 32-bit
   * `int`, so a large enough area wraps before it is compared.
   */
  function NewAsWritten<G>(glyphs: Option<map<int, G>>, bitmap: Option<seq<Byte>>, width: Int32, height: Int32)
    : (r: Result<FontBakerResult<G>, ArgumentError>)
    ensures r.Success? ==> glyphs.Some? && bitmap.Some?
                           && r.value == FontBakerResult(glyphs.value, bitmap.value, width, height)
    ensures r.Success? <==> glyphs.Some? && bitmap.Some? && width > 0 && height > 0
                            && |bitmap.value| >= Wrap32(width * height)
  {
    if glyphs.None? then Failure(ArgumentNull("glyphs"))
    else if bitmap.None? then Failure(ArgumentNull("bitmap"))
    else if width <= 0 then Failure(ArgumentOutOfRange("width"))
    else if height <= 0 then Failure(ArgumentOutOfRange("height"))
    else if |bitmap.value| < Wrap32(width * height) then Failure(Argument(TOO_SMALL))
    else Success(FontBakerResult(glyphs.value, bitmap.value, width, height))
  }

  /**
   * A 65536 by 65536 bitmap has an area of 2^32, which wraps to 0, so the
   * as-written constructor accepts an empty bitmap for it.
   */
  lemma AsWrittenAcceptsShortBitmap()
    ensures NewAsWritten<int>(Some(map[]), Some([]), 65536, 65536).Success?
    ensures !Covers(NewAsWritten<int>(Some(map[]), Some([]), 65536, 65536).value)
  {
    assert 65536 * 65536 == TWO_32;
    assert Wrap32(65536 * 65536) == 0;
  }

  /** The constructor with the area compared as a mathematical product. */
  function New<G>(glyphs: Option<map<int, G>>, bitmap: Option<seq<Byte>>, width: Int32, height: Int32)
    : (r: Result<FontBakerResult<G>, ArgumentError>)
    ensures r.Success? ==> glyphs.Some? && bitmap.Some?
                           && r.value == FontBakerResult(glyphs.value, bitmap.value, width, height) && Covers(r.value)
    ensures glyphs.None? ==> r == Failure(ArgumentNull("glyphs"))
    ensures glyphs.Some? && bitmap.None? ==> r == Failure(ArgumentNull("bitmap"))
    ensures glyphs.Some? && bitmap.Some? && width <= 0 ==> r == Failure(ArgumentOutOfRange("width"))
    ensures glyphs.Some? && bitmap.Some? && width > 0 && height <= 0 ==> r == Failure(ArgumentOutOfRange("height"))
    ensures glyphs.Some? && bitmap.Some? && width > 0 && height > 0 && |bitmap.value| < width * height
            ==> r == Failure(Argument(TOO_SMALL))
  {
    if glyphs.None? then Failure(ArgumentNull("glyphs"))
    else if bitmap.None? then Failure(ArgumentNull("bitmap"))
    else if width <= 0 then Failure(ArgumentOutOfRange("width"))
    else if height <= 0 then Failure(ArgumentOutOfRange("height"))
    else if |bitmap.value| < width * height then Failure(Argument(TOO_SMALL))
    else Success(FontBakerResult(glyphs.value, bitmap.value, width, height))
  }

  /** Exactly the well-formed arguments are accepted. */
  lemma NewAcceptsExactlyValid<G>(glyphs: Option<map<int, G>>, bitmap: Option<seq<Byte>>, width: Int32, height: Int32)
    ensures New(glyphs, bitmap, width, height).Success?
        <==> glyphs.Some? && bitmap.Some? && width > 0 && height > 0 && |bitmap.value| >= width * height
  {
  }

  /** Whenever the area fits in an `int`, the two constructors agree on every argument list. */
  lemma AgreeWhenAreaFits<G>(glyphs: Option<map<int, G>>, bitmap: Option<seq<Byte>>, width: Int32, height: Int32)
    requires IsInt(width * height)
    ensures NewAsWritten(glyphs, bitmap, width, height) == New(glyphs, bitmap, width, height)
  {
    Wrap32Spec(width * height);
  }
}
