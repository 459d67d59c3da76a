/** Average colour of a captured screen area: a strided sum over an RGBA buffer in 32-bit arithmetic. */
module AreaCapture {
  import opened Basics

  const WORD := 0x1_0000_0000

  datatype Colour = Colour(r: real, g: real, b: real)

  /** A captured buffer: `stride` pixels of four bytes to a row, of which `width` are visible. */
  datatype Frame = Frame(out: seq<byte>, width: nat, height: nat, stride: nat)

  /** Dimensions are 32-bit, the visible part fits a row, and the buffer holds all rows. */
  predicate WellFormed(f: Frame) {
    && f.width < WORD && f.height < 0x8000_0000 && f.stride < WORD
    && f.width <= f.stride
    && |f.out| == f.height * f.stride * 4
  }

  /** y * (stride * 4) + x * 4 + c as written, in 32-bit unsigned arithmetic. */
  function WrappedIndex(f: Frame, x: nat, y: nat, c: nat): nat {
    Wrap(y * Wrap(f.stride * 4) + x * 4 + c)
  }

  /** Where colour c of pixel (x, y) is. */
  function Index(f: Frame, x: nat, y: nat, c: nat): nat { y * (f.stride * 4) + x * 4 + c }

  lemma IndexInBounds(f: Frame, x: nat, y: nat, c: nat)
    requires WellFormed(f) && x < f.width && y < f.height && c < 4
    ensures Index(f, x, y, c) < |f.out|
  {
    var row := f.stride * 4;
    MultiplyMonotone(y + 1, f.height, row);
    assert (y + 1) * row == y * row + row;
    assert f.height * row == f.height * f.stride * 4;
  }

  lemma MultiplyMonotone(a: nat, b: nat, m: nat)
    requires a <= b
    ensures a * m <= b * m && m * a <= m * b
  {
  }

  function Wrap(n: nat): nat { n % WORD }

  lemma WrapFacts(n: nat)
    ensures Wrap(n) <= n
    ensures Wrap(n) == n <==> n < WORD
  {
  }

  lemma WrappedProduct(row: nat, y: nat, rest: nat)
    ensures Wrap(y * Wrap(row) + rest) <= y * row + rest
    ensures Wrap(y * Wrap(row) + rest) == y * row + rest <==> y * row + rest < WORD
  {
    hide Wrap;
    WrapFacts(row);
    MultiplyMonotone(Wrap(row), row, y);
    WrapFacts(y * Wrap(row) + rest);
    WrapFacts(y * row + rest);
    if y > 0 && y * row + rest < WORD {
      MultiplyMonotone(1, y, row);
    }
  }

  /** Wrapping never makes an index larger, so every read is in bounds whatever the dimensions; and the
      index as written is the intended one exactly when that fits 32 bits. */
  lemma WrappedIndexFacts(f: Frame, x: nat, y: nat, c: nat)
    requires WellFormed(f) && x < f.width && y < f.height && c < 4
    ensures WrappedIndex(f, x, y, c) <= Index(f, x, y, c) < |f.out|
    ensures WrappedIndex(f, x, y, c) == Index(f, x, y, c) <==> Index(f, x, y, c) < 0x1_0000_0000
  {
    hide Wrap;
    IndexInBounds(f, x, y, c);
    WrappedProduct(f.stride * 4, y, x * 4 + c);
    assert y * Wrap(f.stride * 4) + (x * 4 + c) == y * Wrap(f.stride * 4) + x * 4 + c;
  }

  // ---------- Sums ----------

  function Channel(f: Frame, x: nat, y: nat, c: nat): (v: nat)
    requires WellFormed(f) && x < f.width && y < f.height && c < 4
    ensures v <= 255
  {
    IndexInBounds(f, x, y, c);
    f.out[Index(f, x, y, c)] as int
  }

  /** Colour c over the first x pixels of row y. */
  function RowSum(f: Frame, y: nat, x: nat, c: nat): nat
    requires WellFormed(f) && y < f.height && x <= f.width && c < 4
  {
    if x == 0 then 0 else RowSum(f, y, x - 1, c) + Channel(f, x - 1, y, c)
  }

  /** Colour c over the first y rows. */
  function Sum(f: Frame, y: nat, c: nat): nat
    requires WellFormed(f) && y <= f.height && c < 4
  {
    if y == 0 then 0 else Sum(f, y - 1, c) + RowSum(f, y - 1, f.width, c)
  }

  lemma {:induction false} RowSumBound(f: Frame, y: nat, x: nat, c: nat)
    requires WellFormed(f) && y < f.height && x <= f.width && c < 4
    ensures RowSum(f, y, x, c) <= 255 * x
  {
    if x > 0 { RowSumBound(f, y, x - 1, c); }
  }

  /** A channel sum is at most 255 for each visible pixel. */
  lemma {:induction false} SumBound(f: Frame, y: nat, c: nat)
    requires WellFormed(f) && y <= f.height && c < 4
    ensures Sum(f, y, c) <= 255 * (f.width * y)
  {
    if y > 0 {
      SumBound(f, y - 1, c);
      RowSumBound(f, y - 1, f.width, c);
      assert f.width * y == f.width * (y - 1) + f.width;
    }
  }

  /** The sum the loop means to compute. */
  function ChannelSum(f: Frame, c: nat): nat
    requires WellFormed(f) && c < 4
  {
    Sum(f, f.height, c)
  }

  /** Colour c of a pixel is byte c of its four, rows being `stride` pixels long. */
  lemma ChannelIsByte(f: Frame, x: nat, y: nat, c: nat)
    requires WellFormed(f) && x < f.width && y < f.height && c < 4
    ensures 0 <= 4 * (y * f.stride + x) + c < |f.out|
    ensures Channel(f, x, y, c) == f.out[4 * (y * f.stride + x) + c] as int
  {
    IndexInBounds(f, x, y, c);
    assert y * (f.stride * 4) == 4 * (y * f.stride);
  }

  /** The frames agree in colour c of all visible pixels but (x0, y0). */
  ghost predicate DifferAt(f: Frame, g: Frame, x0: nat, y0: nat, c: nat)
    requires WellFormed(f) && WellFormed(g) && c < 4
  {
    && f.width == g.width && f.height == g.height && x0 < f.width && y0 < f.height
    && forall x, y :: 0 <= x < f.width && 0 <= y < f.height && (x, y) != (x0, y0) ==>
         Channel(f, x, y, c) == Channel(g, x, y, c)
  }

  lemma {:induction false} RowCountsPixel(f: Frame, g: Frame, x0: nat, y0: nat, c: nat, y: nat, x: nat)
    requires WellFormed(f) && WellFormed(g) && c < 4 && DifferAt(f, g, x0, y0, c)
    requires y < f.height && x <= f.width
    ensures var seen := y == y0 && x0 < x;
            RowSum(f, y, x, c) + (if seen then Channel(g, x0, y0, c) else 0) ==
            RowSum(g, y, x, c) + (if seen then Channel(f, x0, y0, c) else 0)
  {
    hide WellFormed, Channel;
    if x > 0 {
      RowCountsPixel(f, g, x0, y0, c, y, x - 1);
      assert (x - 1, y) != (x0, y0) ==> Channel(f, x - 1, y, c) == Channel(g, x - 1, y, c);
    }
  }

  lemma {:induction false} RowsCountPixel(f: Frame, g: Frame, x0: nat, y0: nat, c: nat, y: nat)
    requires WellFormed(f) && WellFormed(g) && c < 4 && DifferAt(f, g, x0, y0, c) && y <= f.height
    ensures Sum(f, y, c) + (if y0 < y then Channel(g, x0, y0, c) else 0) ==
            Sum(g, y, c) + (if y0 < y then Channel(f, x0, y0, c) else 0)
  {
    hide WellFormed, Channel, RowSum;
    if y > 0 {
      RowsCountPixel(f, g, x0, y0, c, y - 1);
      RowCountsPixel(f, g, x0, y0, c, y - 1, f.width);
    }
  }

  /** Main result: every visible pixel counts exactly once.  If two frames differ in one of them, their sums
      differ by as much. */
  lemma EveryPixelCountsOnce(f: Frame, g: Frame, x0: nat, y0: nat, c: nat)
    requires WellFormed(f) && WellFormed(g) && c < 4 && DifferAt(f, g, x0, y0, c)
    ensures ChannelSum(f, c) - ChannelSum(g, c) == Channel(f, x0, y0, c) - Channel(g, x0, y0, c)
  {
    hide WellFormed, Channel, Sum;
    RowsCountPixel(f, g, x0, y0, c, f.height);
  }

  lemma {:induction false} BlackRow(f: Frame, y: nat, x: nat, c: nat)
    requires WellFormed(f) && y < f.height && x <= f.width && c < 4
    requires forall x, y :: 0 <= x < f.width && 0 <= y < f.height ==> Channel(f, x, y, c) == 0
    ensures RowSum(f, y, x, c) == 0
  {
    hide WellFormed, Channel;
    if x > 0 { BlackRow(f, y, x - 1, c); }
  }

  /** And a frame without colour c sums to nothing, so that the sums are determined. */
  lemma {:induction false} BlackSum(f: Frame, y: nat, c: nat)
    requires WellFormed(f) && y <= f.height && c < 4
    requires forall x, y :: 0 <= x < f.width && 0 <= y < f.height ==> Channel(f, x, y, c) == 0
    ensures Sum(f, y, c) == 0
  {
    hide WellFormed, Channel;
    if y > 0 {
      BlackSum(f, y - 1, c);
      BlackRow(f, y - 1, f.width, c);
    }
  }

  /** The visible colours of two frames agree; padding, stride and alpha are free. */
  ghost predicate SameColours(f: Frame, g: Frame)
    requires WellFormed(f) && WellFormed(g)
  {
    && f.width == g.width && f.height == g.height
    && forall x, y, c :: 0 <= x < f.width && 0 <= y < f.height && 0 <= c < 3 ==>
         Channel(f, x, y, c) == Channel(g, x, y, c)
  }

  lemma {:induction false} RowSumsAgree(f: Frame, g: Frame, y: nat, x: nat, c: nat)
    requires WellFormed(f) && WellFormed(g) && SameColours(f, g)
    requires y < f.height && x <= f.width && c < 3
    ensures RowSum(f, y, x, c) == RowSum(g, y, x, c)
  {
    hide WellFormed;
    if x > 0 { RowSumsAgree(f, g, y, x - 1, c); }
  }

  lemma {:induction false} SumsAgree(f: Frame, g: Frame, y: nat, c: nat)
    requires WellFormed(f) && WellFormed(g) && SameColours(f, g)
    requires y <= f.height && c < 3
    ensures Sum(f, y, c) == Sum(g, y, c)
  {
    hide WellFormed;
    if y > 0 {
      SumsAgree(f, g, y - 1, c);
      RowSumsAgree(f, g, y - 1, f.width, c);
    }
  }

  // ---------- The averages ----------

  /** The quotients; dividing by an empty area gives no number. */
  function Quotients(r: nat, g: nat, b: nat, n: nat): Option<Colour> {
    if n == 0 then None else Some(Colour(r as real / n as real, g as real / n as real, b as real / n as real))
  }

  /** The three averages over the visible pixels. */
  function Averages(f: Frame): Option<Colour>
    requires WellFormed(f)
  {
    Quotients(ChannelSum(f, 0), ChannelSum(f, 1), ChannelSum(f, 2), f.width * f.height)
  }

  lemma QuotientInRange(sum: nat, n: nat)
    requires n > 0 && sum <= 255 * n
    ensures 0.0 <= sum as real / n as real <= 255.0
  {
    assert sum as real <= 255.0 * n as real;
  }

  // ---------- What 32-bit arithmetic computes ----------

  /** The byte the index as written selects. */
  function Selected(f: Frame, x: nat, y: nat, c: nat): (v: nat)
    requires WellFormed(f) && x < f.width && y < f.height && c < 4
    ensures v <= 255
  {
    WrappedIndexFacts(f, x, y, c);
    f.out[WrappedIndex(f, x, y, c)] as int
  }

  /** The accumulator after x pixels of row y. */
  function Accumulated(f: Frame, start: nat, y: nat, x: nat, c: nat): nat
    requires WellFormed(f) && y < f.height && x <= f.width && c < 4
  {
    if x == 0 then start else Wrap(Accumulated(f, start, y, x - 1, c) + Selected(f, x - 1, y, c))
  }

  /** The accumulator after y rows. */
  function AccumulatedRows(f: Frame, y: nat, c: nat): nat
    requires WellFormed(f) && y <= f.height && c < 4
  {
    if y == 0 then 0 else Accumulated(f, AccumulatedRows(f, y - 1, c), y - 1, f.width, c)
  }

  function ComputedAverages(f: Frame): Option<Colour>
    requires WellFormed(f)
  {
    Quotients(AccumulatedRows(f, f.height, 0), AccumulatedRows(f, f.height, 1), AccumulatedRows(f, f.height, 2),
              Wrap(f.width * f.height))
  }

  lemma WrapAdd(a: nat, b: nat)
    ensures Wrap(Wrap(a) + b) == Wrap(a + b)
  {
    var q := a / WORD;
    assert a + b == q * WORD + (Wrap(a) + b);
  }

  lemma SelectedIsChannel(f: Frame, x: nat, y: nat, c: nat)
    requires WellFormed(f) && |f.out| <= WORD && x < f.width && y < f.height && c < 4
    ensures Selected(f, x, y, c) == Channel(f, x, y, c)
  {
    hide Wrap, WrappedIndex, Index;
    WrappedIndexFacts(f, x, y, c);
  }

  lemma {:induction false} AccumulatedIsRowSum(f: Frame, before: nat, y: nat, x: nat, c: nat)
    requires WellFormed(f) && |f.out| <= WORD && y < f.height && x <= f.width && c < 4
    ensures Accumulated(f, Wrap(before), y, x, c) == Wrap(before + RowSum(f, y, x, c))
  {
    hide WellFormed, Wrap, Channel, Selected;
    if x > 0 {
      AccumulatedIsRowSum(f, before, y, x - 1, c);
      SelectedIsChannel(f, x - 1, y, c);
      WrapAdd(before + RowSum(f, y, x - 1, c), Channel(f, x - 1, y, c));
    }
  }

  lemma {:induction false} AccumulatedIsSum(f: Frame, y: nat, c: nat)
    requires WellFormed(f) && |f.out| <= WORD && y <= f.height && c < 4
    ensures AccumulatedRows(f, y, c) == Wrap(Sum(f, y, c))
  {
    hide WellFormed;
    if y > 0 {
      hide Wrap;
      AccumulatedIsSum(f, y - 1, c);
      AccumulatedIsRowSum(f, Sum(f, y - 1, c), y - 1, f.width, c);
    }
  }

  /** Main result: in a buffer that 32 bits can address, a computed sum is the channel sum exactly when that
      fits 32 bits. */
  lemma SumIsExactIffItFits(f: Frame, c: nat)
    requires WellFormed(f) && |f.out| <= WORD && c < 4
    ensures AccumulatedRows(f, f.height, c) == ChannelSum(f, c) <==> ChannelSum(f, c) < 0x1_0000_0000
  {
    hide WellFormed, Wrap;
    AccumulatedIsSum(f, f.height, c);
    WrapFacts(ChannelSum(f, c));
  }

  /** If the buffer is addressable and 255 for every visible pixel fits 32 bits, the averages are exact. */
  lemma AveragesAreExact(f: Frame)
    requires WellFormed(f) && |f.out| <= WORD && 255 * (f.width * f.height) < WORD
    ensures ComputedAverages(f) == Averages(f)
  {
    hide WellFormed, Wrap;
    SumBound(f, f.height, 0);
    SumBound(f, f.height, 1);
    SumBound(f, f.height, 2);
    SumIsExactIffItFits(f, 0);
    SumIsExactIffItFits(f, 1);
    SumIsExactIffItFits(f, 2);
    WrapFacts(f.width * f.height);
  }

  lemma QuotientTimes(sum: nat, n: nat)
    requires n > 0
    ensures sum as real / n as real * n as real == sum as real
  {
  }

  /** Each of the three is the sum of its colour over all pixels: red of the first bytes, green of the second,
      blue of the third; an area without pixels has no colour. */
  ghost predicate IsAverageOf(colour: Option<Colour>, f: Frame)
    requires WellFormed(f)
  {
    var n := f.width * f.height;
    if n == 0 then colour == None
    else
      && colour.Some?
      && colour.value.r * n as real == ChannelSum(f, 0) as real
      && colour.value.g * n as real == ChannelSum(f, 1) as real
      && colour.value.b * n as real == ChannelSum(f, 2) as real
  }

  /** Computed averages times the number of pixels are the channel sums. */
  lemma AveragesTimesPixels(f: Frame)
    requires WellFormed(f) && |f.out| <= WORD && 255 * (f.width * f.height) < WORD
    ensures IsAverageOf(ComputedAverages(f), f)
  {
    hide WellFormed, Wrap, ChannelSum, ComputedAverages;
    AveragesAreExact(f);
    var n := f.width * f.height;
    if n > 0 {
      QuotientTimes(ChannelSum(f, 0), n);
      QuotientTimes(ChannelSum(f, 1), n);
      QuotientTimes(ChannelSum(f, 2), n);
    }
  }

  /** A white screen. */
  function White(width: nat, height: nat, stride: nat): Frame {
    Frame(seq(height * stride * 4, _ => 255), width, height, stride)
  }

  predicate FitsDimensions(f: Frame, width: nat, height: nat, stride: nat) {
    WellFormed(f) && f.width == width && f.height == height && f.stride == stride
  }

  lemma WhiteFits(width: nat, height: nat, stride: nat)
    requires width < WORD && height < 0x8000_0000 && stride < WORD && width <= stride
    ensures FitsDimensions(White(width, height, stride), width, height, stride)
  {
  }

  lemma {:induction false} WhiteRowSum(f: Frame, y: nat, x: nat)
    requires WellFormed(f) && (forall k :: 0 <= k < |f.out| ==> f.out[k] == 255) && y < f.height && x <= f.width
    ensures RowSum(f, y, x, 0) == 255 * x
  {
    hide WellFormed, Index;
    if x > 0 {
      WhiteRowSum(f, y, x - 1);
      IndexInBounds(f, x - 1, y, 0);
    }
  }

  lemma {:induction false} WhiteSum(f: Frame, y: nat)
    requires WellFormed(f) && (forall k :: 0 <= k < |f.out| ==> f.out[k] == 255) && y <= f.height
    ensures Sum(f, y, 0) == 255 * (f.width * y)
  {
    hide WellFormed;
    if y > 0 {
      WhiteSum(f, y - 1);
      WhiteRowSum(f, y - 1, f.width);
      assert f.width * y == f.width * (y - 1) + f.width;
    }
  }

  lemma QuotientsDiffer(r: nat, s: nat, n: nat, g: nat, b: nat, g': nat, b': nat)
    requires n > 0 && r != s
    ensures Quotients(r, g, b, n) != Quotients(s, g', b', n)
  {
    assert r as real / n as real * n as real == r as real;
    assert s as real / n as real * n as real == s as real;
  }

  lemma AddressableAreaFits(width: nat, height: nat, stride: nat)
    requires width <= stride && height * stride * 4 <= WORD
    ensures width * height * 4 <= WORD
  {
    MultiplyMonotone(width, stride, height);
    assert height * stride * 4 == (stride * height) * 4;
  }

  lemma WhiteIsNotExact(width: nat, height: nat, stride: nat)
    requires width < WORD && height < 0x8000_0000 && stride < WORD && width <= stride
    requires height * stride * 4 <= WORD && 255 * (width * height) >= WORD
    ensures var f := White(width, height, stride);
            WellFormed(f) && ComputedAverages(f) != Averages(f)
  {
    var f := White(width, height, stride);
    WhiteFits(width, height, stride);
    assert |f.out| <= WORD && forall k :: 0 <= k < |f.out| ==> f.out[k] == 255;
    hide White, WellFormed, Wrap;
    WhiteSum(f, height);
    SumIsExactIffItFits(f, 0);
    AddressableAreaFits(width, height, stride);
    WrapFacts(width * height);
    QuotientsDiffer(AccumulatedRows(f, height, 0), ChannelSum(f, 0), width * height,
                    AccumulatedRows(f, height, 1), AccumulatedRows(f, height, 2),
                    ChannelSum(f, 1), ChannelSum(f, 2));
  }

  /** Main result: the averages are exact for every addressable buffer of some dimensions exactly when 255 for
      every visible pixel fits 32 bits. */
  lemma AveragesAreExactIffTheyFit(width: nat, height: nat, stride: nat)
    requires width < WORD && height < 0x8000_0000 && stride < WORD && width <= stride
    requires height * stride * 4 <= WORD
    ensures (forall f :: FitsDimensions(f, width, height, stride) ==> ComputedAverages(f) == Averages(f))
            <==> 255 * (width * height) < 0x1_0000_0000
  {
    if 255 * (width * height) < WORD {
      forall f | FitsDimensions(f, width, height, stride)
        ensures ComputedAverages(f) == Averages(f)
      {
        hide ComputedAverages, Averages;
        AveragesAreExact(f);
      }
    } else {
      hide ComputedAverages, Averages;
      WhiteFits(width, height, stride);
      WhiteIsNotExact(width, height, stride);
    }
  }

  /** Main result: in addressable buffers the computed averages depend on the visible colours alone, even if
      the sums wrap. */
  lemma AveragesIgnorePaddingAndAlpha(f: Frame, g: Frame)
    requires WellFormed(f) && WellFormed(g) && |f.out| <= WORD && |g.out| <= WORD && SameColours(f, g)
    ensures ComputedAverages(f) == ComputedAverages(g)
  {
    hide WellFormed, Wrap, SameColours;
    assert f.width == g.width && f.height == g.height by { SameSize(f, g); }
    ComputedSumsAgree(f, g, 0);
    ComputedSumsAgree(f, g, 1);
    ComputedSumsAgree(f, g, 2);
  }

  lemma SameSize(f: Frame, g: Frame)
    requires WellFormed(f) && WellFormed(g) && SameColours(f, g)
    ensures f.width == g.width && f.height == g.height
  {
  }

  lemma ComputedSumsAgree(f: Frame, g: Frame, c: nat)
    requires WellFormed(f) && WellFormed(g) && |f.out| <= WORD && |g.out| <= WORD && SameColours(f, g) && c < 3
    ensures AccumulatedRows(f, f.height, c) == AccumulatedRows(g, g.height, c)
  {
    hide WellFormed, Wrap;
    SumsAgree(f, g, f.height, c);
    AccumulatedIsSum(f, f.height, c);
    AccumulatedIsSum(g, g.height, c);
  }

  lemma {:induction false} AccumulatedBound(f: Frame, start: nat, y: nat, x: nat, c: nat)
    requires WellFormed(f) && y < f.height && x <= f.width && c < 4
    ensures Accumulated(f, start, y, x, c) <= start + 255 * x
  {
    hide WellFormed, Wrap;
    if x > 0 {
      AccumulatedBound(f, start, y, x - 1, c);
      WrapFacts(Accumulated(f, start, y, x - 1, c) + Selected(f, x - 1, y, c));
    }
  }

  lemma {:induction false} AccumulatedRowsBound(f: Frame, y: nat, c: nat)
    requires WellFormed(f) && y <= f.height && c < 4
    ensures AccumulatedRows(f, y, c) <= 255 * (f.width * y)
  {
    hide WellFormed;
    if y > 0 {
      AccumulatedRowsBound(f, y - 1, c);
      AccumulatedBound(f, AccumulatedRows(f, y - 1, c), y - 1, f.width, c);
      assert f.width * y == f.width * (y - 1) + f.width;
    }
  }

  predicate InRange(a: Colour) {
    0.0 <= a.r <= 255.0 && 0.0 <= a.g <= 255.0 && 0.0 <= a.b <= 255.0
  }

  /** The computed averages are colours whenever the number of visible pixels fits 32 bits, even if the sums
      or the indexes wrap. */
  lemma AveragesInRange(f: Frame)
    requires WellFormed(f) && f.width * f.height < WORD && ComputedAverages(f).Some?
    ensures InRange(ComputedAverages(f).value)
  {
    hide WellFormed, Wrap;
    var n := f.width * f.height;
    WrapFacts(n);
    AccumulatedRowsBound(f, f.height, 0);
    AccumulatedRowsBound(f, f.height, 1);
    AccumulatedRowsBound(f, f.height, 2);
    QuotientInRange(AccumulatedRows(f, f.height, 0), n);
    QuotientInRange(AccumulatedRows(f, f.height, 1), n);
    QuotientInRange(AccumulatedRows(f, f.height, 2), n);
  }

  // ---------- The loops ----------

  /** One 32-bit addition. */
  method AddByte(f: Frame, sum: nat, x: nat, y: nat, c: nat) returns (r: nat)
    requires WellFormed(f) && x < f.width && y < f.height && c < 4
    ensures r == Wrap(sum + Selected(f, x, y, c))
  {
    WrappedIndexFacts(f, x, y, c);
    r := Wrap(sum + f.out[WrappedIndex(f, x, y, c)] as int);
  }

  lemma AccumulatedStart(f: Frame, r0: nat, g0: nat, b0: nat, y: nat)
    requires WellFormed(f) && y < f.height
    ensures Accumulated(f, r0, y, 0, 0) == r0 && Accumulated(f, g0, y, 0, 1) == g0 && Accumulated(f, b0, y, 0, 2) == b0
  {
  }

  lemma AccumulatedNext(f: Frame, start: nat, y: nat, x: nat, c: nat)
    requires WellFormed(f) && y < f.height && x < f.width && c < 4
    ensures Accumulated(f, start, y, x + 1, c) == Wrap(Accumulated(f, start, y, x, c) + Selected(f, x, y, c))
  {
  }

  /** The inner loop: one row is added to the three sums. */
  method AddRow(f: Frame, y: nat, r0: nat, g0: nat, b0: nat) returns (rsum: nat, gsum: nat, bsum: nat)
    requires WellFormed(f) && y < f.height
    ensures rsum == Accumulated(f, r0, y, f.width, 0)
    ensures gsum == Accumulated(f, g0, y, f.width, 1)
    ensures bsum == Accumulated(f, b0, y, f.width, 2)
  {
    hide *;
    AccumulatedStart(f, r0, g0, b0, y);
    rsum, gsum, bsum := r0, g0, b0;
    var x := 0;
    while x < f.width
      invariant x <= f.width
      invariant rsum == Accumulated(f, r0, y, x, 0)
      invariant gsum == Accumulated(f, g0, y, x, 1)
      invariant bsum == Accumulated(f, b0, y, x, 2)
    {
      AccumulatedNext(f, r0, y, x, 0);
      AccumulatedNext(f, g0, y, x, 1);
      AccumulatedNext(f, b0, y, x, 2);
      rsum := AddByte(f, rsum, x, y, 0);
      gsum := AddByte(f, gsum, x, y, 1);
      bsum := AddByte(f, bsum, x, y, 2);
      x := x + 1;
    }
  }

  /** The loops of getAreaBrightness.  No read leaves the buffer, whatever the dimensions. */
  method GetAreaBrightness(f: Frame) returns (colour: Option<Colour>)
    requires WellFormed(f)
    ensures colour == ComputedAverages(f)
    ensures |f.out| <= WORD && 255 * (f.width * f.height) < WORD ==> IsAverageOf(colour, f)
  {
    hide WellFormed, Wrap, IsAverageOf;
    if |f.out| <= WORD && 255 * (f.width * f.height) < WORD { AveragesTimesPixels(f); }
    var rsum, gsum, bsum := 0, 0, 0;
    var y := 0;
    while y < f.height
      invariant y <= f.height
      invariant rsum == AccumulatedRows(f, y, 0)
      invariant gsum == AccumulatedRows(f, y, 1)
      invariant bsum == AccumulatedRows(f, y, 2)
    {
      rsum, gsum, bsum := AddRow(f, y, rsum, gsum, bsum);
      y := y + 1;
    }
    var n := Wrap(f.width * f.height);
    if n == 0 {
      return None;
    }
    var max := n as real;
    colour := Some(Colour(rsum as real / max, gsum as real / max, bsum as real / max));
  }
}
