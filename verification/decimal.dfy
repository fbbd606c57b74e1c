/**
 * The numeric fields of the protocol (`float` in both programs) as decimal
 * literals: the text `operator<<` writes and Spirit's `float_` reads, kept
 * as digits rather than as a binary floating-point value.
 *
 * `float_` reads an optional sign, a run of whole digits, an optional `.`
 * with a run of fraction digits, and an optional exponent: `e` or `E`
 * followed by a signed `int`. At least one digit must appear before the
 * exponent; a lone `.` is no number. An `e` that is not followed by a valid
 * exponent is not part of the number, and the input resumes at the `e`.
 */
module DecimalLiteral {
  import opened Wrappers
  import opened Lexical

  /** `e` or `E`, an optional sign, and the exponent's digits. */
  datatype Exponent = Exponent(upper: bool, sign: Sign, digits: seq<char>)

  /**
   * A literal: sign, whole digits, the fraction digits when a `.` was
   * written (possibly none, as in `1.`), and the exponent when one was written.
   */
  datatype Number = Number(sign: Sign, whole: seq<char>, fraction: Option<seq<char>>, exponent: Option<Exponent>)

  /** An exponent `float_` accepts: digits that fit in an `int` once signed. */
  predicate ValidExponent(e: Exponent)
  {
    |e.digits| > 0 && AllDigits(e.digits) && IsInt32(Signed(e.sign, DigitsValue(e.digits)))
  }

  /** A literal `float_` accepts: only digits, and at least one of them before the exponent. */
  predicate Valid(n: Number)
  {
    && AllDigits(n.whole)
    && (n.fraction.Some? ==> AllDigits(n.fraction.value))
    && (|n.whole| > 0 || (n.fraction.Some? && |n.fraction.value| > 0))
    && (n.exponent.Some? ==> ValidExponent(n.exponent.value))
  }

  function ExponentText(e: Exponent): seq<char>
  {
    [if e.upper then 'E' else 'e'] + SignText(e.sign) + e.digits
  }

  /** The mantissa as written: whole digits, then `.` and the fraction when there is one. */
  function MantissaText(whole: seq<char>, fraction: Option<seq<char>>): seq<char>
  {
    match fraction
    case None => whole
    case Some(f) => whole + ['.'] + f
  }

  /** The literal as written. */
  function Text(n: Number): seq<char>
  {
    SignText(n.sign) + MantissaText(n.whole, n.fraction) + (if n.exponent.Some? then ExponentText(n.exponent.value) else [])
  }

  /** Input that cannot extend the literal in front of it: no digit, `.`, `e` or `E` next. */
  predicate Stop(rest: seq<char>)
  {
    rest == [] || !(IsDigit(rest[0]) || rest[0] == '.' || IsExponentMarker(rest[0]))
  }

  predicate IsExponentMarker(c: char)
  {
    c == 'e' || c == 'E'
  }

  /**
   * The exponent at the front of `t`, if a valid one is there, and what
   * follows it; otherwise nothing is taken and `t` is returned whole.
   */
  function ExponentAt(t: seq<char>): (r: (Option<Exponent>, seq<char>))
    ensures r.0.Some? ==> ValidExponent(r.0.value) && t == ExponentText(r.0.value) + r.1
    ensures r.0.Some? ==> r.1 == [] || !IsDigit(r.1[0])
    ensures r.0.None? ==> r.1 == t
  {
    if |t| > 0 && IsExponentMarker(t[0]) then
      var (sign, ds, rest) := SignedDigits(t[1..]);
      if |ds| > 0 && IsInt32(Signed(sign, DigitsValue(ds))) then
        var e := Exponent(t[0] == 'E', sign, ds);
        assert t == ExponentText(e) + rest by {
          SignedDigitsSplit(t[1..]);
        }
        (Some(e), rest)
      else (None, t)
    else (None, t)
  }

  /** `float_` at the very front of `t`, without skipping. */
  function RealAt(t: seq<char>): (r: Option<(Number, seq<char>)>)
  {
    var (sign, a) := SignOf(t);
    var (whole, b) := DigitRun(a);
    if |b| > 0 && b[0] == '.' then
      var (fraction, c) := DigitRun(b[1..]);
      if |whole| == 0 && |fraction| == 0 then None
      else
        var (exponent, rest) := ExponentAt(c);
        Some((Number(sign, whole, Some(fraction), exponent), rest))
    else if |whole| == 0 then None
    else
      var (exponent, rest) := ExponentAt(b);
      Some((Number(sign, whole, None, exponent), rest))
  }

  /** `qi::float_` under the skipper. */
  function Float(s: seq<char>): Option<(Number, seq<char>)>
  {
    RealAt(Skip(s))
  }

  // ----- splitting lemmas -------------------------------------------------

  /** What `SignedDigits` takes apart puts back together. */
  lemma SignedDigitsSplit(s: seq<char>)
    ensures var (sign, ds, rest) := SignedDigits(s);
            s == SignText(sign) + ds + rest && AllDigits(ds) && (rest == [] || !IsDigit(rest[0]))
  {
    var (sign, body) := SignOf(s);
    if sign != Unsigned {
      assert s == SignText(sign) + body;
    }
  }

  /** `SignOf` takes apart what `SignText` puts in front. */
  lemma SignOfSplit(s: seq<char>)
    ensures s == SignText(SignOf(s).0) + SignOf(s).1
  {
  }

  // ----- reading back what was written ------------------------------------

  /** The text that follows the mantissa: the exponent if any, then the rest. */
  function Tail(n: Number, rest: seq<char>): seq<char>
  {
    (if n.exponent.Some? then ExponentText(n.exponent.value) else []) + rest
  }

  lemma TextSplit(n: Number, rest: seq<char>)
    ensures Text(n) + rest == SignText(n.sign) + (MantissaText(n.whole, n.fraction) + Tail(n, rest))
  {
  }

  lemma MantissaSplit(whole: seq<char>, f: seq<char>, tail: seq<char>)
    ensures MantissaText(whole, Some(f)) + tail == whole + (['.'] + (f + tail))
  {
  }

  /** A valid exponent written out is read back, up to the first non-digit. */
  lemma ExponentAtText(e: Exponent, rest: seq<char>)
    requires ValidExponent(e) && (rest == [] || !IsDigit(rest[0]))
    ensures ExponentAt(ExponentText(e) + rest) == (Some(e), rest)
  {
    var t := ExponentText(e) + rest;
    assert t[1..] == SignText(e.sign) + (e.digits + rest);
    SignedDigitsOf(e.sign, e.digits, rest);
  }

  /** The exponent, or its absence, is read back from the tail. */
  lemma TailRead(n: Number, rest: seq<char>)
    requires Valid(n) && Stop(rest)
    ensures ExponentAt(Tail(n, rest)) == (n.exponent, rest)
    ensures var tail := Tail(n, rest); tail == [] || !(IsDigit(tail[0]) || tail[0] == '.')
  {
    if n.exponent.Some? {
      ExponentAtText(n.exponent.value, rest);
    } else {
      assert Tail(n, rest) == rest;
    }
  }

  /** A literal without a `.`: its digits, then the tail. */
  lemma RealAtWhole(sign: Sign, whole: seq<char>, tail: seq<char>)
    requires |whole| > 0 && AllDigits(whole)
    requires tail == [] || !(IsDigit(tail[0]) || tail[0] == '.')
    ensures RealAt(SignText(sign) + (whole + tail))
         == Some((Number(sign, whole, None, ExponentAt(tail).0), ExponentAt(tail).1))
  {
    assert IsDigit((whole + tail)[0]);
    SignOfText(sign, whole + tail);
    DigitRunOf(whole, tail);
  }

  /** A literal with a `.`: whole digits, the dot, fraction digits, then the tail. */
  lemma RealAtFraction(sign: Sign, whole: seq<char>, f: seq<char>, tail: seq<char>)
    requires AllDigits(whole) && AllDigits(f) && |whole| + |f| > 0
    requires tail == [] || !IsDigit(tail[0])
    ensures RealAt(SignText(sign) + (whole + (['.'] + (f + tail))))
         == Some((Number(sign, whole, Some(f), ExponentAt(tail).0), ExponentAt(tail).1))
  {
    var body := whole + (['.'] + (f + tail));
    assert body[0] == '.' || IsDigit(body[0]);
    SignOfText(sign, body);
    assert (['.'] + (f + tail))[0] == '.';
    DigitRunOf(whole, ['.'] + (f + tail));
    assert (['.'] + (f + tail))[1..] == f + tail;
    DigitRunOf(f, tail);
  }

  /**
   * Round trip: `float_` reads a valid literal back from its text, and
   * stops right after it when nothing that could extend it follows.
   */
  lemma RealRoundTrip(n: Number, rest: seq<char>)
    requires Valid(n) && Stop(rest)
    ensures RealAt(Text(n) + rest) == Some((n, rest))
  {
    TextSplit(n, rest);
    TailRead(n, rest);
    var tail := Tail(n, rest);
    if n.fraction.Some? {
      MantissaSplit(n.whole, n.fraction.value, tail);
      RealAtFraction(n.sign, n.whole, n.fraction.value, tail);
    } else {
      RealAtWhole(n.sign, n.whole, tail);
    }
  }

  /** `float_` under the skipper reads back a literal written with nothing in front. */
  lemma FloatRoundTrip(n: Number, rest: seq<char>)
    requires Valid(n) && Stop(rest)
    ensures Float(Text(n) + rest) == Some((n, rest))
  {
    var t := Text(n) + rest;
    TextSplit(n, rest);
    assert t[0] == '+' || t[0] == '-' || t[0] == '.' || IsDigit(t[0]) by {
      if n.sign == Unsigned {
        assert |n.whole| > 0 ==> t[0] == n.whole[0];
      }
    }
    SkipNone(t);
    RealRoundTrip(n, rest);
  }

  /**
   * Everything `float_` accepts is a valid literal, and the input is exactly
   * its text followed by what is left.
   */
  lemma RealAtSound(t: seq<char>)
    ensures RealAt(t).Some? ==> Valid(RealAt(t).value.0) && t == Text(RealAt(t).value.0) + RealAt(t).value.1
  {
    var (sign, a) := SignOf(t);
    SignOfSplit(t);
    var (whole, b) := DigitRun(a);
    if RealAt(t).Some? {
      var (n, rest) := RealAt(t).value;
      TextSplit(n, rest);
      if |b| > 0 && b[0] == '.' {
        var (fraction, c) := DigitRun(b[1..]);
        TailOf(n, c, rest);
        MantissaSplit(whole, fraction, c);
        assert b == ['.'] + (fraction + c);
      } else {
        TailOf(n, b, rest);
      }
    }
  }

  /** What the exponent reader leaves is the tail of the literal it completes. */
  lemma TailOf(n: Number, c: seq<char>, rest: seq<char>)
    requires ExponentAt(c) == (n.exponent, rest)
    ensures c == Tail(n, rest)
  {
    if n.exponent.None? {
      assert Tail(n, rest) == rest;
    }
  }
}
