/**
 * The tween (blending) algorithm attached to a hull section, and its
 * mapping to and from the textual tokens used in hull description files.
 */
module Tween {
  import opened Wrappers

  /** An `int`-valued enumeration, as in the Go source (`type TweenAlgorithm int`). */
  newtype TweenAlgorithm = int

  const Linear: TweenAlgorithm := 0
  const SquareRoot: TweenAlgorithm := 1
  const ReverseSquareRoot: TweenAlgorithm := 2
  const Square: TweenAlgorithm := 3

  /**
   * The spline algorithm handled by the cross-section interpolator. It is
   * not among the four enumerated constants, so it is given a value outside
   * 0..3: no token maps to it and its name is "unknown".
   */
  const Spline: TweenAlgorithm := 4

  /** The four constants of the enumeration. */
  predicate IsDefined(ta: TweenAlgorithm) {
    Linear <= ta <= Square
  }

  /** The tokens that name the four constants. */
  const KnownNames: set<string> := {"linear", "square_root", "reverse_square_root", "square"}

  /** The textual token of an algorithm; "unknown" for anything but the four constants. */
  function String(ta: TweenAlgorithm): (s: string)
    ensures IsDefined(ta) ==> s in KnownNames && GetTweenAlgorithmFromName(s) == ta
    ensures !IsDefined(ta) <==> s == "unknown"
  {
    if ta == Linear then "linear"
    else if ta == SquareRoot then "square_root"
    else if ta == Square then "square"
    else if ta == ReverseSquareRoot then "reverse_square_root"
    else "unknown"
  }

  /** The algorithm a token names; unrecognised tokens fall back to Linear. */
  function GetTweenAlgorithmFromName(input: string): (ta: TweenAlgorithm)
    ensures IsDefined(ta) && ta != Spline
    ensures input !in KnownNames ==> ta == Linear
  {
    if input == "linear" then Linear
    else if input == "square_root" then SquareRoot
    else if input == "reverse_square_root" then ReverseSquareRoot
    else if input == "square" then Square
    else Linear
  }

  /** Every known token is the name of the algorithm it maps to. */
  lemma NameOfParsedToken(input: string)
    requires input in KnownNames
    ensures String(GetTweenAlgorithmFromName(input)) == input
  {
  }

  /** The four constants have pairwise distinct names. */
  lemma NamesDistinct(a: TweenAlgorithm, b: TweenAlgorithm)
    requires IsDefined(a) && IsDefined(b) && a != b
    ensures String(a) != String(b)
  {
    assert GetTweenAlgorithmFromName(String(a)) == a;
    assert GetTweenAlgorithmFromName(String(b)) == b;
  }

  /** The result of MarshalJSON: the encoded bytes and an error that may be absent. */
  datatype Marshalled = Marshalled(bytes: string, err: Option<string>)

  /** The quoted text of a JSON string literal without escapes, if `b` is one. */
  function StripQuotes(b: string): Option<string> {
    if |b| >= 2 && b[0] == '"' && b[|b| - 1] == '"' then Some(b[1..|b| - 1]) else None
  }

  /** The JSON encoding of an algorithm: its name as a JSON string; it never fails. */
  function MarshalJSON(ta: TweenAlgorithm): (r: Marshalled)
    ensures r.err == None
    ensures StripQuotes(r.bytes) == Some(String(ta))
  {
    var bytes := "\"" + String(ta) + "\"";
    assert bytes[1..|bytes| - 1] == String(ta);
    Marshalled(bytes, None)
  }

  /** Decoding the marshalled text of one of the four constants gives it back. */
  lemma MarshalRoundTrip(ta: TweenAlgorithm)
    requires IsDefined(ta)
    ensures var q := StripQuotes(MarshalJSON(ta).bytes);
      q.Some? && GetTweenAlgorithmFromName(q.value) == ta
  {
  }
}
