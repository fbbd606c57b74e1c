/**
 * The Boost.Spirit building blocks both grammars share, over `seq<char>`:
 * the `ascii::space` skipper, keyword literals, `bool_`, the 32-bit `int_`,
 * and the decimal printing of integers by `operator<<`.
 *
 * A parser returns the value it matched and the input left after it, or
 * `None` when it does not match. Every parser that sits under the skipper
 * skips leading white space first, as Spirit's pre-skip does.
 */
module Lexical {
  import opened Wrappers

  // ----- characters -------------------------------------------------------

  /** `ascii::space`: the six characters `isspace` accepts in the C locale. */
  predicate IsSpace(c: char)
  {
    c == ' ' || c == '\t' || c == '\n' || c == '\U{B}' || c == '\U{C}' || c == '\r'
  }

  predicate IsDigit(c: char)
  {
    '0' <= c <= '9'
  }

  predicate AllDigits(s: seq<char>)
  {
    forall i :: 0 <= i < |s| ==> IsDigit(s[i])
  }

  predicate IsLetter(c: char)
  {
    'a' <= c <= 'z' || 'A' <= c <= 'Z'
  }

  function DigitChar(d: nat): (c: char)
    requires d < 10
    ensures IsDigit(c) && DigitOf(c) == d
  {
    ('0' as int + d) as char
  }

  function DigitOf(c: char): (d: nat)
    requires IsDigit(c)
    ensures d < 10
  {
    c as int - '0' as int
  }

  // ----- the skipper ------------------------------------------------------

  /** What is left of `s` once the skipper has stepped over its leading white space. */
  function Skip(s: seq<char>): (t: seq<char>)
    ensures |t| <= |s|
    ensures t == [] || !IsSpace(t[0])
  {
    if |s| > 0 && IsSpace(s[0]) then Skip(s[1..]) else s
  }

  predicate AllSpace(s: seq<char>)
  {
    forall i :: 0 <= i < |s| ==> IsSpace(s[i])
  }

  /** The skipper drops exactly a prefix of white space. */
  lemma {:induction false} SkipDrops(s: seq<char>)
    ensures var k := |s| - |Skip(s)|;
            s[k..] == Skip(s) && AllSpace(s[..k])
    decreases |s|
  {
    if |s| > 0 && IsSpace(s[0]) {
      SkipDrops(s[1..]);
      var k := |s| - |Skip(s)|;
      assert s[k..] == s[1..][k - 1..];
      assert s[..k] == [s[0]] + s[1..][..k - 1];
    }
  }

  /** Skipping is blind to any white space put in front. */
  lemma {:induction false} SkipSpaces(spaces: seq<char>, s: seq<char>)
    requires AllSpace(spaces)
    ensures Skip(spaces + s) == Skip(s)
    decreases |spaces|
  {
    if |spaces| > 0 {
      assert (spaces + s)[1..] == spaces[1..] + s;
      SkipSpaces(spaces[1..], s);
    } else {
      assert spaces + s == s;
    }
  }

  /** Skipping twice is skipping once. */
  lemma SkipIdempotent(s: seq<char>)
    ensures Skip(Skip(s)) == Skip(s)
  {
  }

  // ----- literals ---------------------------------------------------------

  /**
   * `qi::lit(word)` under the skipper: white space may precede the word, but
   * the word's own characters must appear contiguously.
   */
  function Lit(word: seq<char>, s: seq<char>): (r: Option<seq<char>>)
    ensures r.Some? <==> word <= Skip(s)
    ensures r.Some? ==> Skip(s) == word + r.value
  {
    var t := Skip(s);
    if word <= t then Some(t[|word|..]) else None
  }

  /** A word at the very front of the input is matched, leaving what follows it. */
  lemma LitFront(word: seq<char>, t: seq<char>)
    requires |word| > 0 && !IsSpace(word[0])
    ensures Lit(word, word + t) == Some(t)
  {
    SkipNone(word + t);
    assert (word + t)[|word|..] == t;
  }

  /** A word whose first letter differs from the input's is not matched. */
  lemma LitMismatch(word: seq<char>, line: seq<char>)
    requires |word| > 0 && |line| > 0 && !IsSpace(line[0]) && word[0] != line[0]
    ensures Lit(word, line).None?
  {
    SkipNone(line);
  }

  /** A word written after one space, as fields after the first are written. */
  function Spaced(word: seq<char>): seq<char>
  {
    [' '] + word
  }

  /** A word after one space is matched, leaving what follows it. */
  lemma LitAfterSpace(word: seq<char>, t: seq<char>)
    requires |word| > 0 && !IsSpace(word[0])
    ensures Lit(word, Spaced(word) + t) == Some(t)
  {
    assert Spaced(word) + t == [' '] + (word + t);
    SkipSpaces([' '], word + t);
    LitFront(word, t);
  }

  /** The words `true` and `false` at the very front of `t`. */
  function BoolAt(t: seq<char>): (r: Option<(bool, seq<char>)>)
    ensures r.Some? ==> t == BoolText(r.value.0) + r.value.1
    ensures r.None? ==> !("true" <= t) && !("false" <= t)
  {
    if "true" <= t then
      assert t == t[..4] + t[4..];
      Some((true, t[4..]))
    else if "false" <= t then
      assert t == t[..5] + t[5..];
      Some((false, t[5..]))
    else None
  }

  /** `qi::bool_` under the skipper: `true` or `false`, in lower case. */
  function Bool(s: seq<char>): (r: Option<(bool, seq<char>)>)
    ensures r.Some? ==> Skip(s) == BoolText(r.value.0) + r.value.1
    ensures r.None? ==> !("true" <= Skip(s)) && !("false" <= Skip(s))
  {
    BoolAt(Skip(s))
  }

  /** `os << (b ? "true" : "false")`. */
  function BoolText(b: bool): (t: seq<char>)
  {
    if b then "true" else "false"
  }

  lemma BoolRoundTrip(b: bool, rest: seq<char>)
    ensures Bool(BoolText(b) + rest) == Some((b, rest))
  {
    var t := BoolText(b) + rest;
    assert Skip(t) == t;
    assert t[|BoolText(b)|..] == rest;
    if !b {
      assert t[0] == 'f';
    }
  }

  // ----- digit runs and their values --------------------------------------

  /** The longest run of decimal digits at the front of `s`, and what follows it. */
  function DigitRun(s: seq<char>): (r: (seq<char>, seq<char>))
    ensures s == r.0 + r.1 && AllDigits(r.0)
    ensures r.1 == [] || !IsDigit(r.1[0])
  {
    if |s| > 0 && IsDigit(s[0]) then
      var (ds, rest) := DigitRun(s[1..]);
      ([s[0]] + ds, rest)
    else ([], s)
  }

  lemma {:induction false} DigitRunOf(ds: seq<char>, rest: seq<char>)
    requires AllDigits(ds) && (rest == [] || !IsDigit(rest[0]))
    ensures DigitRun(ds + rest) == (ds, rest)
    decreases |ds|
  {
    if |ds| > 0 {
      assert (ds + rest)[1..] == ds[1..] + rest;
      DigitRunOf(ds[1..], rest);
      assert [ds[0]] + ds[1..] == ds;
    } else {
      assert ds + rest == rest;
    }
  }

  /** The value of a digit string, most significant digit first. */
  function DigitsValue(ds: seq<char>): (v: nat)
    requires AllDigits(ds)
  {
    if |ds| == 0 then 0 else 10 * DigitsValue(ds[..|ds| - 1]) + DigitOf(ds[|ds| - 1])
  }

  /** `operator<<` of an unsigned integer: decimal digits, no leading zeros. */
  function NatText(n: nat): (t: seq<char>)
    ensures |t| > 0 && AllDigits(t)
    ensures t[0] == '0' ==> n == 0
    decreases n
  {
    if n < 10 then [DigitChar(n)] else NatText(n / 10) + [DigitChar(n % 10)]
  }

  lemma {:induction false} NatTextValue(n: nat)
    ensures DigitsValue(NatText(n)) == n
    decreases n
  {
    if n >= 10 {
      var t := NatText(n);
      assert t[..|t| - 1] == NatText(n / 10);
      NatTextValue(n / 10);
    }
  }

  /** `operator<<` of a signed integer: a minus sign for negative values. */
  function IntText(i: int): (t: seq<char>)
    ensures |t| > 0
    ensures i < 0 <==> t[0] == '-'
  {
    if i < 0 then ['-'] + NatText(-i) else NatText(i)
  }

  // ----- qi::int_ ---------------------------------------------------------

  const MinInt32: int := -0x8000_0000
  const MaxInt32: int := 0x7FFF_FFFF

  predicate IsInt32(i: int)
  {
    MinInt32 <= i <= MaxInt32
  }

  /** The sign written in front of a number, if any. */
  datatype Sign = Unsigned | Plus | Minus

  function SignText(sign: Sign): (t: seq<char>)
  {
    match sign
    case Unsigned => []
    case Plus => ['+']
    case Minus => ['-']
  }

  /** An optional `+` or `-` at the front of `s`, and what follows it. */
  function SignOf(s: seq<char>): (Sign, seq<char>)
  {
    if |s| > 0 && s[0] == '-' then (Minus, s[1..])
    else if |s| > 0 && s[0] == '+' then (Plus, s[1..])
    else (Unsigned, s)
  }

  /** The signed value of a magnitude. */
  function Signed(sign: Sign, magnitude: nat): int
  {
    if sign == Minus then -(magnitude as int) else magnitude
  }

  /** An optional sign, the longest digit run after it, and what follows. */
  function SignedDigits(s: seq<char>): (Sign, seq<char>, seq<char>)
  {
    var (sign, body) := SignOf(s);
    var (ds, rest) := DigitRun(body);
    (sign, ds, rest)
  }

  /**
   * The signed integer at the very front of `s` (no skipping): an optional
   * `+` or `-`, then one or more digits. A value outside `int` is no match,
   * as Spirit's overflow check makes it.
   */
  function SignedInt(s: seq<char>): (r: Option<(int, seq<char>)>)
    ensures r.Some? ==> IsInt32(r.value.0)
  {
    var (sign, ds, rest) := SignedDigits(s);
    var v := Signed(sign, DigitsValue(ds));
    if |ds| > 0 && IsInt32(v) then Some((v, rest)) else None
  }

  /** `qi::int_` under the skipper. */
  function Int(s: seq<char>): (r: Option<(int, seq<char>)>)
    ensures r.Some? ==> IsInt32(r.value.0)
  {
    SignedInt(Skip(s))
  }

  /** A sign written out is read back, with the text after it. */
  lemma {:induction false} SignOfText(sign: Sign, body: seq<char>)
    requires body == [] || (body[0] != '-' && body[0] != '+')
    ensures SignOf(SignText(sign) + body) == (sign, body)
  {
    match sign
    case Unsigned =>
      assert SignText(sign) + body == body;
    case Plus =>
      assert (['+'] + body)[1..] == body;
    case Minus =>
      assert (['-'] + body)[1..] == body;
  }

  /** A sign followed by a digit run splits back into the two. */
  lemma SignedDigitsOf(sign: Sign, ds: seq<char>, rest: seq<char>)
    requires AllDigits(ds) && (rest == [] || !IsDigit(rest[0]))
    requires |ds| > 0
    ensures SignedDigits(SignText(sign) + (ds + rest)) == (sign, ds, rest)
  {
    assert IsDigit((ds + rest)[0]);
    SignOfText(sign, ds + rest);
    DigitRunOf(ds, rest);
  }

  /** `int_` once the sign and the digit run at the front of `s` are known. */
  lemma SignedIntOfParts(s: seq<char>, sign: Sign, ds: seq<char>, rest: seq<char>)
    requires |ds| > 0 && AllDigits(ds)
    requires SignedDigits(s) == (sign, ds, rest)
    requires IsInt32(Signed(sign, DigitsValue(ds)))
    ensures SignedInt(s) == Some((Signed(sign, DigitsValue(ds)), rest))
  {
  }

  /** `int_` on a sign followed by a run of digits: the signed value of the digits. */
  lemma SignedIntOfText(sign: Sign, ds: seq<char>, rest: seq<char>)
    requires |ds| > 0 && AllDigits(ds) && (rest == [] || !IsDigit(rest[0]))
    requires IsInt32(Signed(sign, DigitsValue(ds)))
    ensures SignedInt(SignText(sign) + (ds + rest)) == Some((Signed(sign, DigitsValue(ds)), rest))
  {
    SignedDigitsOf(sign, ds, rest);
    SignedIntOfParts(SignText(sign) + (ds + rest), sign, ds, rest);
  }

  /** The skipper leaves alone text that does not start with white space. */
  lemma SkipNone(t: seq<char>)
    requires t == [] || !IsSpace(t[0])
    ensures Skip(t) == t
  {
  }

  /** Round trip: `int_` reads back what `operator<<` printed, and stops right after it. */
  lemma IntRoundTrip(i: int, rest: seq<char>)
    requires IsInt32(i) && (rest == [] || !IsDigit(rest[0]))
    ensures Int(IntText(i) + rest) == Some((i, rest))
  {
    var t := IntText(i) + rest;
    SkipNone(t);
    if i < 0 {
      NegativeText(i, rest);
      NatTextValue(-i);
      SignedIntOfText(Minus, NatText(-i), rest);
    } else {
      UnsignedText(i, rest);
      NatTextValue(i);
      SignedIntOfText(Unsigned, NatText(i), rest);
    }
  }

  lemma NegativeText(i: int, rest: seq<char>)
    requires i < 0
    ensures IntText(i) + rest == SignText(Minus) + (NatText(-i) + rest)
  {
  }

  lemma UnsignedText(i: int, rest: seq<char>)
    requires i >= 0
    ensures IntText(i) + rest == SignText(Unsigned) + (NatText(i) + rest)
  {
  }
}
