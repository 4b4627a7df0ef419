/**
 * Hull sections and the cross-section interpolator: for a longitudinal
 * slice, find the two sections that bracket it, blend their width and keel
 * with the current section's tween algorithm, and denormalise the result
 * to voxel units.
 *
 * Floating-point values are exact reals. `math.Sqrt` is a parameter `sqrt`
 * about which nothing is assumed unless a lemma states it.
 */
module Hulls {
  import opened Tween

  type Byte = x: int | 0 <= x < 256

  /** One section of a hull's profile; all values are fractions. */
  datatype Section = Section(start: real, width: real, keel: real, tweening: TweenAlgorithm)

  /** The resolved width and keel of one slice, in voxel units. */
  datatype Dimensions = Dimensions(width: int, keel: int)

  /** A hull: the palette index its voxels get and its ordered sections. */
  datatype Hull = Hull(index: Byte, sections: seq<Section>)

  /** The volume a set of hulls is rasterised into, and the hulls. */
  datatype HullFile = HullFile(fileName: string, length: nat, width: nat, height: nat, hulls: seq<Hull>)

  /** Go's `int(r)` conversion: truncation toward zero. */
  function Truncate(r: real): (n: int)
    ensures 0.0 <= r ==> 0 <= n && n as real <= r < n as real + 1.0
    ensures r < 0.0 ==> n <= 0 && n as real - 1.0 < r <= n as real
  {
    if r >= 0.0 then r.Floor else -((-r).Floor)
  }

  /** The longitudinal fraction of slice `x` out of `length`. */
  function Fraction(x: int, length: int): real
    requires length > 0
  {
    x as real / length as real
  }

  /**
   * The index of the first section, in list order, whose start lies
   * strictly beyond `fraction`; |sections| when there is none.
   */
  function NextIndex(sections: seq<Section>, fraction: real): (k: nat)
    ensures k <= |sections|
    ensures forall j :: 0 <= j < k ==> sections[j].start <= fraction
    ensures k < |sections| ==> sections[k].start > fraction
  {
    if |sections| == 0 || sections[0].start > fraction then 0
    else 1 + NextIndex(sections[1..], fraction)
  }

  /**
   * The bracket scan divides by the spacing of section i and its
   * predecessor for every i it reaches; those spacings must be non-zero.
   */
  predicate WellSpaced(sections: seq<Section>, fraction: real) {
    forall i :: 0 < i < |sections| && i <= NextIndex(sections, fraction) ==>
      sections[i].start != sections[i - 1].start
  }

  predicate StrictlyAscending(sections: seq<Section>) {
    forall i :: 0 < i < |sections| ==> sections[i - 1].start < sections[i].start
  }

  /** The slope of the width between section i - 1 and section i. */
  function Slope(sections: seq<Section>, i: int): real
    requires 0 < i < |sections| && sections[i].start != sections[i - 1].start
  {
    (sections[i].width - sections[i - 1].width) / (sections[i].start - sections[i - 1].start)
  }

  /** The bracketing pair of sections found by the scan, with their tangents. */
  datatype Bracket = Bracket(
    curStart: real, curWidth: real, curKeel: real, curTangent: real,
    nextStart: real, nextWidth: real, nextKeel: real, nextTangent: real,
    algorithm: TweenAlgorithm)

  /**
   * The bracket of `fraction`: "next" is the first section with a start
   * beyond it and "current" the section just before that one. Missing ends
   * take the defaults start 0, width 0, keel 0, Linear (current) and
   * start 1, width 0, keel 1 (next); a tangent is 0 where no slope is taken.
   */
  function BracketAt(sections: seq<Section>, fraction: real): Bracket
    requires WellSpaced(sections, fraction)
  {
    var k := NextIndex(sections, fraction);
    Bracket(
      if k == 0 then 0.0 else sections[k - 1].start,
      if k == 0 then 0.0 else sections[k - 1].width,
      if k == 0 then 0.0 else sections[k - 1].keel,
      if k >= 2 then Slope(sections, k - 1) else 0.0,
      if k == |sections| then 1.0 else sections[k].start,
      if k == |sections| then 0.0 else sections[k].width,
      if k == |sections| then 1.0 else sections[k].keel,
      if 0 < k < |sections| then Slope(sections, k) else 0.0,
      if k == 0 then Linear else sections[k - 1].tweening)
  }

  /** The length of the bracket's interval, with 1.0 in place of zero. */
  function TweenLength(b: Bracket): (r: real)
    ensures r != 0.0
    ensures b.nextStart == b.curStart ==> r == 1.0
    ensures b.nextStart != b.curStart ==> r == b.nextStart - b.curStart
  {
    if b.nextStart - b.curStart == 0.0 then 1.0 else b.nextStart - b.curStart
  }

  /** How far `fraction` lies through the bracket's interval. */
  function TweenOf(b: Bracket, fraction: real): real {
    (fraction - b.curStart) / TweenLength(b)
  }

  /**
   * The blend weights (current, next) of an algorithm at progress `tween`.
   * An algorithm that matches no case keeps the weights (1, 0).
   */
  function Weights(algorithm: TweenAlgorithm, tween: real, sqrt: real -> real): (w: (real, real))
    ensures IsDefined(algorithm) || algorithm == Spline ==> w.0 + w.1 == 1.0
    ensures !IsDefined(algorithm) && algorithm != Spline ==> w == (1.0, 0.0)
    ensures tween == 0.0 && sqrt(0.0) == 0.0 && sqrt(1.0) == 1.0 ==> w == (1.0, 0.0)
    ensures tween == 1.0 && sqrt(0.0) == 0.0 && sqrt(1.0) == 1.0 && (IsDefined(algorithm) || algorithm == Spline)
      ==> w == (0.0, 1.0)
  {
    if algorithm == Linear then (1.0 - tween, tween)
    else if algorithm == SquareRoot then (1.0 - sqrt(tween), sqrt(tween))
    else if algorithm == ReverseSquareRoot then (sqrt(1.0 - tween), 1.0 - sqrt(1.0 - tween))
    else if algorithm == Square then (1.0 - tween * tween, tween * tween)
    else if algorithm == Spline then (1.0 - tween, tween)
    else (1.0, 0.0)
  }

  /**
   * The normalised (width, keel) at progress `tween` through the bracket.
   * Spline adds to the current width the tangent blended at the current
   * progress times the distance covered (tween times the interval length);
   * every other algorithm blends the two section widths.
   */
  function Blend(b: Bracket, tween: real, sqrt: real -> real): (real, real) {
    var w := Weights(b.algorithm, tween, sqrt);
    Mix(b, w.0, w.1, tween)
  }

  /** The normalised (width, keel) of the bracket under the weights (t1, t2). */
  function Mix(b: Bracket, t1: real, t2: real, tween: real): (real, real) {
    var keel := b.curKeel * t1 + b.nextKeel * t2;
    if b.algorithm == Spline then
      var thisTangent := (b.curTangent * t1 + b.nextTangent * t2) * TweenLength(b);
      (b.curWidth + thisTangent * tween, keel)
    else
      (b.curWidth * t1 + b.nextWidth * t2, keel)
  }

  /**
   * The dimensions in voxel units of a normalised width and keel fraction,
   * truncated as Go's int() does; a keel fraction of 1 is the top.
   */
  function Denormalise(widthFraction: real, keelFraction: real, width: int, height: int): Dimensions {
    Dimensions(Truncate(widthFraction * width as real), Truncate((1.0 - keelFraction) * height as real))
  }

  /** The dimensions of slice `x` of a hull `length` slices long. */
  function DimensionsAt(sections: seq<Section>, x: int, length: int, width: int, height: int,
                        sqrt: real -> real): Dimensions
    requires length > 0 && WellSpaced(sections, Fraction(x, length))
  {
    var fraction := Fraction(x, length);
    var b := BracketAt(sections, fraction);
    var p := Blend(b, TweenOf(b, fraction), sqrt);
    Denormalise(p.0, p.1, width, height)
  }

  /** The interpolator as the source runs it: a scan with break, then a switch. */
  method GetDimensions(sections: seq<Section>, x: int, length: int, width: int, height: int,
                       sqrt: real -> real) returns (d: Dimensions)
    requires length > 0 && WellSpaced(sections, Fraction(x, length))
    ensures d == DimensionsAt(sections, x, length, width, height, sqrt)
  {
    var fraction := x as real / length as real;
    ghost var k := NextIndex(sections, fraction);

    var curTangent, nextTangent := 0.0, 0.0;
    var curWidth, nextWidth := 0.0, 0.0;
    var curStart, nextStart := 0.0, 1.0;
    var curKeel, nextKeel := 0.0, 1.0;
    var algorithm := Linear;

    var i := 0;
    while i < |sections|
      invariant i <= k
      invariant curStart == (if i == 0 then 0.0 else sections[i - 1].start)
      invariant curWidth == (if i == 0 then 0.0 else sections[i - 1].width)
      invariant curKeel == (if i == 0 then 0.0 else sections[i - 1].keel)
      invariant curTangent == (if i >= 2 then Slope(sections, i - 1) else 0.0)
      invariant algorithm == (if i == 0 then Linear else sections[i - 1].tweening)
      invariant nextStart == 1.0 && nextWidth == 0.0 && nextKeel == 1.0 && nextTangent == 0.0
    {
      if sections[i].start > fraction {
        nextWidth := sections[i].width;
        nextStart := sections[i].start;
        nextKeel := sections[i].keel;
        if i > 0 {
          nextTangent := (sections[i].width - sections[i - 1].width) / (sections[i].start - sections[i - 1].start);
        }
        break;
      }
      curWidth := sections[i].width;
      curStart := sections[i].start;
      curKeel := sections[i].keel;
      algorithm := sections[i].tweening;
      if i > 0 {
        curTangent := (sections[i].width - sections[i - 1].width) / (sections[i].start - sections[i - 1].start);
      }
      i := i + 1;
    }
    var b := Bracket(curStart, curWidth, curKeel, curTangent, nextStart, nextWidth, nextKeel, nextTangent, algorithm);
    assert b == BracketAt(sections, fraction);

    var tweenLength := nextStart - curStart;
    // A zero-length interval counts as length 1.
    if tweenLength == 0.0 {
      tweenLength := 1.0;
    }
    var tween := (fraction - curStart) / tweenLength;
    assert tween == TweenOf(b, fraction);

    var widthFraction, keelFraction := BlendSections(b, tween, tweenLength, sqrt);
    return Denormalise(widthFraction, keelFraction, width, height);
  }

  /**
   * The switch on the current section's algorithm: the weights of the two
   * sections, and for Spline the current width plus the blended tangent
   * times the distance covered.
   */
  method BlendSections(b: Bracket, tween: real, tweenLength: real, sqrt: real -> real)
    returns (widthFraction: real, keelFraction: real)
    requires tweenLength == TweenLength(b)
    ensures widthFraction == Blend(b, tween, sqrt).0 && keelFraction == Blend(b, tween, sqrt).1
  {
    var t1 := 1.0;
    var t2 := 0.0;
    if b.algorithm == Linear {
      t1 := 1.0 - tween;
      t2 := tween;
    } else if b.algorithm == SquareRoot {
      t1 := 1.0 - sqrt(tween);
      t2 := sqrt(tween);
    } else if b.algorithm == ReverseSquareRoot {
      t1 := sqrt(1.0 - tween);
      t2 := 1.0 - sqrt(1.0 - tween);
    } else if b.algorithm == Square {
      t1 := 1.0 - (tween * tween);
      t2 := tween * tween;
    } else if b.algorithm == Spline {
      t1 := 1.0 - tween;
      t2 := tween;
      var thisTangent := ((b.curTangent * t1) + (b.nextTangent * t2)) * tweenLength;
      widthFraction := b.curWidth + (thisTangent * tween);
      keelFraction := (b.curKeel * t1) + (b.nextKeel * t2);
      return;
    }
    widthFraction := (b.curWidth * t1) + (b.nextWidth * t2);
    keelFraction := (b.curKeel * t1) + (b.nextKeel * t2);
  }

  // Properties of the bracket scan

  /** With no section beyond `fraction`, the upper bracket is the default and the lower one the last section. */
  lemma UpperBracketDefault(sections: seq<Section>, fraction: real)
    requires WellSpaced(sections, fraction)
    requires forall j :: 0 <= j < |sections| ==> sections[j].start <= fraction
    ensures var b := BracketAt(sections, fraction);
      b.nextStart == 1.0 && b.nextWidth == 0.0 && b.nextKeel == 1.0 && b.nextTangent == 0.0
      && (|sections| > 0 ==> var last := sections[|sections| - 1];
            b.curStart == last.start && b.curWidth == last.width && b.curKeel == last.keel
            && b.algorithm == last.tweening)
  {
  }

  /**
   * "Next" is the first section in list order with a start beyond
   * `fraction`, and "current" the section immediately before it, or the
   * defaults 0, 0, 0, Linear when there is none.
   */
  lemma BracketOfFirstBeyond(sections: seq<Section>, fraction: real, i: nat)
    requires WellSpaced(sections, fraction)
    requires i < |sections| && sections[i].start > fraction
    requires forall j :: 0 <= j < i ==> sections[j].start <= fraction
    ensures var b := BracketAt(sections, fraction);
      b.nextStart == sections[i].start && b.nextWidth == sections[i].width && b.nextKeel == sections[i].keel
      && (i == 0 ==> b.curStart == 0.0 && b.curWidth == 0.0 && b.curKeel == 0.0 && b.curTangent == 0.0
                     && b.nextTangent == 0.0 && b.algorithm == Linear)
      && (i > 0 ==> b.curStart == sections[i - 1].start && b.curWidth == sections[i - 1].width
                    && b.curKeel == sections[i - 1].keel && b.algorithm == sections[i - 1].tweening)
  {
  }

  /** An empty profile brackets every fraction by the two defaults. */
  lemma EmptyProfileBracket(fraction: real)
    ensures WellSpaced([], fraction)
    ensures BracketAt([], fraction) == Bracket(0.0, 0.0, 0.0, 0.0, 1.0, 0.0, 1.0, 0.0, Linear)
  {
  }

  lemma {:induction false} AscendingTransitive(sections: seq<Section>, i: nat, j: nat)
    requires StrictlyAscending(sections) && i < j < |sections|
    ensures sections[i].start < sections[j].start
  {
    if i + 1 < j {
      AscendingTransitive(sections, i, j - 1);
    }
  }

  /** Strictly ascending starts keep every division of the scan defined. */
  lemma AscendingIsWellSpaced(sections: seq<Section>, fraction: real)
    requires StrictlyAscending(sections)
    ensures WellSpaced(sections, fraction)
  {
  }

  /** With strictly ascending starts, a fraction equal to section i's start is bracketed by i and i + 1. */
  lemma NextIndexAtSectionStart(sections: seq<Section>, i: nat)
    requires StrictlyAscending(sections) && i < |sections|
    ensures NextIndex(sections, sections[i].start) == i + 1
  {
    var f := sections[i].start;
    var k := NextIndex(sections, f);
    if k <= i {
      if k < i {
        AscendingTransitive(sections, k, i);
      }
      assert false;
    }
  }

  // Properties of the blend

  /** At the start of the interval every algorithm yields the current section's values. */
  lemma BlendAtIntervalStart(b: Bracket, sqrt: real -> real)
    requires sqrt(0.0) == 0.0 && sqrt(1.0) == 1.0
    ensures Blend(b, 0.0, sqrt) == (b.curWidth, b.curKeel)
  {
    var w := Weights(b.algorithm, 0.0, sqrt);
    assert w.0 == 1.0 && w.1 == 0.0;
    var m := Mix(b, 1.0, 0.0, 0.0);
    assert m.0 == b.curWidth && m.1 == b.curKeel;
  }

  /**
   * At the end of the interval every enumerated algorithm, and Spline when
   * the next tangent is the slope of the interval itself, yields the next
   * section's values: the piecewise profile has no jump at a section start.
   */
  lemma BlendAtIntervalEnd(b: Bracket, sqrt: real -> real)
    requires sqrt(0.0) == 0.0 && sqrt(1.0) == 1.0
    requires IsDefined(b.algorithm) || b.algorithm == Spline
    requires b.algorithm == Spline ==> b.nextTangent * TweenLength(b) == b.nextWidth - b.curWidth
    ensures Blend(b, 1.0, sqrt) == (b.nextWidth, b.nextKeel)
  {
    var w := Weights(b.algorithm, 1.0, sqrt);
    assert w.0 == 0.0 && w.1 == 1.0;
    var m := Mix(b, 0.0, 1.0, 1.0);
    if b.algorithm == Spline {
      var thisTangent := (b.curTangent * 0.0 + b.nextTangent * 1.0) * TweenLength(b);
      assert thisTangent == b.nextWidth - b.curWidth;
      assert m.0 == b.curWidth + thisTangent * 1.0;
    }
    assert m.0 == b.nextWidth && m.1 == b.nextKeel;
  }

  /** Inside the profile, the bracket's next tangent is the slope of its own interval. */
  lemma NextTangentIsIntervalSlope(sections: seq<Section>, fraction: real)
    requires WellSpaced(sections, fraction)
    requires 0 < NextIndex(sections, fraction) < |sections|
    ensures var b := BracketAt(sections, fraction);
      b.nextTangent * TweenLength(b) == b.nextWidth - b.curWidth
  {
    var k := NextIndex(sections, fraction);
    var b := BracketAt(sections, fraction);
    var dw := sections[k].width - sections[k - 1].width;
    var ds := sections[k].start - sections[k - 1].start;
    assert b.nextTangent == dw / ds;
    assert TweenLength(b) == ds;
  }

  /** An algorithm matching no case keeps the current section's values unblended. */
  lemma UnmatchedAlgorithmKeepsCurrent(b: Bracket, tween: real, sqrt: real -> real)
    requires !IsDefined(b.algorithm) && b.algorithm != Spline
    ensures Blend(b, tween, sqrt) == (b.curWidth, b.curKeel)
  {
  }

  /** Spline blends the keel exactly as Linear does. */
  lemma SplineKeelIsLinear(b: Bracket, tween: real, sqrt: real -> real)
    requires b.algorithm == Spline
    ensures Blend(b, tween, sqrt).1 == Blend(b.(algorithm := Linear), tween, sqrt).1
  {
    var w, l := Weights(Spline, tween, sqrt), Weights(Linear, tween, sqrt);
    assert w.0 == l.0 && w.1 == l.1;
  }

  /** Square halfway through its interval has covered a quarter of the way. */
  lemma SquareAtHalfway(b: Bracket, sqrt: real -> real)
    requires b.algorithm == Square
    ensures Blend(b, 0.5, sqrt).0 == b.curWidth + (b.nextWidth - b.curWidth) * 0.25
  {
  }

  // Properties of the interpolator

  /** At the current section's own start, the dimensions are that section's values denormalised. */
  lemma DimensionsAtCurrentStart(sections: seq<Section>, x: int, length: int, width: int, height: int,
                                 sqrt: real -> real)
    requires length > 0 && WellSpaced(sections, Fraction(x, length))
    requires sqrt(0.0) == 0.0 && sqrt(1.0) == 1.0
    requires Fraction(x, length) == BracketAt(sections, Fraction(x, length)).curStart
    ensures var b := BracketAt(sections, Fraction(x, length));
      DimensionsAt(sections, x, length, width, height, sqrt)
        == Denormalise(b.curWidth, b.curKeel, width, height)
  {
    var f := Fraction(x, length);
    var b := BracketAt(sections, f);
    assert TweenOf(b, f) == 0.0;
    BlendAtIntervalStart(b, sqrt);
    DimensionsOfBlend(sections, x, length, width, height, sqrt, b.curWidth, b.curKeel);
  }

  /** The dimensions of a slice whose blend is (wf, kf) are those fractions denormalised. */
  lemma DimensionsOfBlend(sections: seq<Section>, x: int, length: int, width: int, height: int,
                          sqrt: real -> real, wf: real, kf: real)
    requires length > 0 && WellSpaced(sections, Fraction(x, length))
    requires var b := BracketAt(sections, Fraction(x, length));
      Blend(b, TweenOf(b, Fraction(x, length)), sqrt) == (wf, kf)
    ensures DimensionsAt(sections, x, length, width, height, sqrt) == Denormalise(wf, kf, width, height)
  {
  }

  /**
   * A slice exactly at a section's start gets that section's width and
   * keel, whatever algorithm governs the interval before it.
   */
  lemma DimensionsAtSectionStart(sections: seq<Section>, i: nat, x: int, length: int, width: int, height: int,
                                 sqrt: real -> real)
    requires StrictlyAscending(sections) && i < |sections|
    requires length > 0 && Fraction(x, length) == sections[i].start
    requires sqrt(0.0) == 0.0 && sqrt(1.0) == 1.0
    ensures WellSpaced(sections, Fraction(x, length))
    ensures DimensionsAt(sections, x, length, width, height, sqrt)
      == Denormalise(sections[i].width, sections[i].keel, width, height)
  {
    var f := Fraction(x, length);
    AscendingIsWellSpaced(sections, f);
    NextIndexAtSectionStart(sections, i);
    var b := BracketAt(sections, f);
    assert b.curStart == sections[i].start && b.curWidth == sections[i].width && b.curKeel == sections[i].keel;
    DimensionsAtCurrentStart(sections, x, length, width, height, sqrt);
  }

  /** A slice whose current algorithm matches no case gets the current section's values. */
  lemma UnmatchedAlgorithmDimensions(sections: seq<Section>, x: int, length: int, width: int, height: int,
                                     sqrt: real -> real)
    requires length > 0 && WellSpaced(sections, Fraction(x, length))
    requires var a := BracketAt(sections, Fraction(x, length)).algorithm; !IsDefined(a) && a != Spline
    ensures var b := BracketAt(sections, Fraction(x, length));
      DimensionsAt(sections, x, length, width, height, sqrt)
        == Denormalise(b.curWidth, b.curKeel, width, height)
  {
    var f := Fraction(x, length);
    var b := BracketAt(sections, f);
    UnmatchedAlgorithmKeepsCurrent(b, TweenOf(b, f), sqrt);
    DimensionsOfBlend(sections, x, length, width, height, sqrt, b.curWidth, b.curKeel);
  }

  /** Starts within [0, 1] and a fraction within [0, 1] put the progress through the interval within [0, 1]. */
  lemma TweenWithinInterval(sections: seq<Section>, fraction: real)
    requires WellSpaced(sections, fraction) && 0.0 <= fraction <= 1.0
    requires forall i :: 0 <= i < |sections| ==> 0.0 <= sections[i].start <= 1.0
    ensures var b := BracketAt(sections, fraction); 0.0 <= TweenOf(b, fraction) <= 1.0
  {
    var b := BracketAt(sections, fraction);
    assert b.curStart <= fraction <= b.nextStart;
    if b.nextStart != b.curStart {
      QuotientWithin(fraction - b.curStart, b.nextStart - b.curStart);
    }
  }

  lemma QuotientWithin(a: real, d: real)
    requires 0.0 <= a <= d && 0.0 < d
    ensures 0.0 <= a / d <= 1.0
  {
  }

  lemma ScaledWithin(a: real, t: real)
    requires 0.0 <= a <= 1.0 && 0.0 <= t
    ensures 0.0 <= a * t <= t
  {
  }

  /** Weights the source uses for Linear, Square and, with a sqrt into [0, 1], the two root algorithms are convex. */
  lemma WeightsConvex(algorithm: TweenAlgorithm, tween: real, sqrt: real -> real)
    requires 0.0 <= tween <= 1.0
    requires algorithm == Linear || algorithm == Square
      || ((algorithm == SquareRoot || algorithm == ReverseSquareRoot)
          && forall t :: 0.0 <= t <= 1.0 ==> 0.0 <= sqrt(t) <= 1.0)
    ensures var w := Weights(algorithm, tween, sqrt); 0.0 <= w.0 && 0.0 <= w.1 && w.0 + w.1 == 1.0
  {
    if algorithm == Square {
      ScaledWithin(tween, tween);
    } else if algorithm == SquareRoot {
      assert 0.0 <= sqrt(tween) <= 1.0;
    } else if algorithm == ReverseSquareRoot {
      assert 0.0 <= sqrt(1.0 - tween) <= 1.0;
    }
  }

  /**
   * With starts and widths in [0, 1], a slice within the hull and a convex
   * blend (Linear, Square, or a root algorithm with a sqrt into [0, 1]),
   * the resulting width lies within [0, width].
   */
  lemma BlendedWidthWithinVolume(sections: seq<Section>, x: int, length: int, width: int, height: int,
                                 sqrt: real -> real)
    requires length > 0 && 0 <= x <= length && 0 <= width
    requires WellSpaced(sections, Fraction(x, length))
    requires forall i :: 0 <= i < |sections| ==>
      0.0 <= sections[i].start <= 1.0 && 0.0 <= sections[i].width <= 1.0
    requires var a := BracketAt(sections, Fraction(x, length)).algorithm;
      a == Linear || a == Square
      || ((a == SquareRoot || a == ReverseSquareRoot) && forall t :: 0.0 <= t <= 1.0 ==> 0.0 <= sqrt(t) <= 1.0)
    ensures 0 <= DimensionsAt(sections, x, length, width, height, sqrt).width <= width
  {
    var f := Fraction(x, length);
    QuotientWithin(x as real, length as real);
    var b := BracketAt(sections, f);
    TweenWithinInterval(sections, f);
    var p := Blend(b, TweenOf(b, f), sqrt);
    ConvexBlendWithin(b, TweenOf(b, f), sqrt);
    DimensionsOfBlend(sections, x, length, width, height, sqrt, p.0, p.1);
    DenormalisedWithin(p.0, width);
  }

  lemma ConvexBlendWithin(b: Bracket, tween: real, sqrt: real -> real)
    requires 0.0 <= tween <= 1.0
    requires 0.0 <= b.curWidth <= 1.0 && 0.0 <= b.nextWidth <= 1.0
    requires b.algorithm == Linear || b.algorithm == Square
      || ((b.algorithm == SquareRoot || b.algorithm == ReverseSquareRoot)
          && forall t :: 0.0 <= t <= 1.0 ==> 0.0 <= sqrt(t) <= 1.0)
    ensures 0.0 <= Blend(b, tween, sqrt).0 <= 1.0
  {
    WeightsConvex(b.algorithm, tween, sqrt);
    var w := Weights(b.algorithm, tween, sqrt);
    ConvexCombinationWithin(b.curWidth, b.nextWidth, w.0, w.1);
    assert Blend(b, tween, sqrt).0 == b.curWidth * w.0 + b.nextWidth * w.1;
  }

  lemma ConvexCombinationWithin(c: real, n: real, t1: real, t2: real)
    requires 0.0 <= c <= 1.0 && 0.0 <= n <= 1.0
    requires 0.0 <= t1 && 0.0 <= t2 && t1 + t2 == 1.0
    ensures 0.0 <= c * t1 + n * t2 <= 1.0
  {
    ScaledWithin(c, t1);
    ScaledWithin(n, t2);
    var x, y := c * t1, n * t2;
    assert x <= t1 && y <= t2;
  }

  lemma DenormalisedWithin(wf: real, width: int)
    requires 0.0 <= wf <= 1.0 && 0 <= width
    ensures 0 <= Truncate(wf * width as real) <= width
  {
    ScaledWithin(wf, width as real);
  }

  /**
   * Approaching a section's start from below, the blend of the interval
   * that ends there reaches that section's width and keel, for every
   * enumerated algorithm and for Spline.
   */
  lemma BlendReachesNextSection(sections: seq<Section>, fraction: real, sqrt: real -> real)
    requires WellSpaced(sections, fraction)
    requires 0 < NextIndex(sections, fraction) < |sections|
    requires sqrt(0.0) == 0.0 && sqrt(1.0) == 1.0
    requires var a := BracketAt(sections, fraction).algorithm; IsDefined(a) || a == Spline
    ensures var next := sections[NextIndex(sections, fraction)];
      Blend(BracketAt(sections, fraction), 1.0, sqrt) == (next.width, next.keel)
  {
    NextTangentIsIntervalSlope(sections, fraction);
    BlendAtIntervalEnd(BracketAt(sections, fraction), sqrt);
  }

  // Worked examples

  /** A linear ramp from width 0 at start 0 to width 1 at start 0.5 has half the width at 0.25. */
  lemma ExampleLinearRamp(width: int, height: int, sqrt: real -> real)
    ensures var sections := [Section(0.0, 0.0, 0.0, Linear), Section(0.5, 1.0, 0.0, Linear)];
      WellSpaced(sections, Fraction(1, 4))
      && DimensionsAt(sections, 1, 4, width, height, sqrt).width == Truncate(0.5 * width as real)
  {
    var sections := [Section(0.0, 0.0, 0.0, Linear), Section(0.5, 1.0, 0.0, Linear)];
    assert NextIndex(sections[1..], 0.25) == 0;
    assert NextIndex(sections, 0.25) == 1;
  }

  /** The tapered five-section hull is at full width at slice 44 of 88. */
  lemma ExampleWidestSlice(sqrt: real -> real)
    requires sqrt(0.0) == 0.0 && sqrt(1.0) == 1.0
    ensures var sections := TaperedProfile();
      WellSpaced(sections, Fraction(44, 88)) && DimensionsAt(sections, 44, 88, 26, 8, sqrt) == Dimensions(26, 8)
  {
    DimensionsAtSectionStart(TaperedProfile(), 2, 44, 88, 26, 8, sqrt);
  }

  function TaperedProfile(): seq<Section> {
    [Section(0.0, 0.0, 0.0, Linear), Section(0.25, 0.8, 0.0, Linear), Section(0.5, 1.0, 0.0, Linear),
     Section(0.75, 1.0, 0.0, Linear), Section(1.0, 0.75, 0.0, Linear)]
  }
}
