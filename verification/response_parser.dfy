/**
 * The client's two response grammars: the result line
 * `result:<int> message:"<text>"` and the image data line
 * `width:<int> height:<int> size:<int> data:<symbols>`. Both skip white space
 * between tokens and ignore whatever follows a successful match.
 */
module ResponseParser {
  import opened Wrappers
  import opened Errors
  import opened Lexical
  import opened ResponseText
  import Base32

  /** `response::Result`. */
  datatype ResultRecord = ResultRecord(result: int, message: seq<char>)

  /** `response::Image`. */
  datatype ImageRecord = ImageRecord(width: int, height: int, size: int, data: seq<char>)

  /** `*(char_ - '"')` without skipping: the longest prefix free of `"`, and the rest. */
  function UntilQuote(s: seq<char>): (r: (seq<char>, seq<char>))
    ensures s == r.0 + r.1
    ensures forall i :: 0 <= i < |r.0| ==> r.0[i] != Quote
    ensures r.1 == [] || r.1[0] == Quote
  {
    if |s| == 0 || s[0] == Quote then ([], s)
    else
      var (m, rest) := UntilQuote(s[1..]);
      ([s[0]] + m, rest)
  }

  /**
   * `r_QuotedMessage`, a lexeme: white space is skipped before the opening
   * quote only; everything up to the closing quote is kept as it stands.
   */
  function Quoted(s: seq<char>): (r: Option<(seq<char>, seq<char>)>)
    ensures r.Some? ==> Skip(s) == [Quote] + r.value.0 + [Quote] + r.value.1
  {
    var t := Skip(s);
    if |t| > 0 && t[0] == Quote then
      var (m, rest) := UntilQuote(t[1..]);
      if |rest| > 0 then
        assert t == [Quote] + m + [Quote] + rest[1..];
        Some((m, rest[1..]))
      else None
    else None
  }

  /** `lit(word) >> int_`. */
  function IntField(word: seq<char>, s: seq<char>): (r: Option<(int, seq<char>)>)
    ensures r.Some? ==> IsInt32(r.value.0)
  {
    var t :- Lit(word, s);
    Int(t)
  }

  /** `r_Result`. */
  function ResultRule(s: seq<char>): (r: Option<(ResultRecord, seq<char>)>)
    ensures r.Some? ==> IsInt32(r.value.0.result)
    ensures r.Some? ==> forall i :: 0 <= i < |r.value.0.message| ==> r.value.0.message[i] != Quote
  {
    var result :- IntField("result:", s);
    var t :- Lit("message:", result.1);
    var message :- Quoted(t);
    Some((ResultRecord(result.0, message.0), message.1))
  }

  /**
   * `r_Base32`, `*char_("A-Z2-7")` under the skipper: each symbol may be
   * preceded by white space, which is not kept; the input is left just
   * after the last symbol taken.
   */
  function SymbolRun(s: seq<char>): (r: (seq<char>, seq<char>))
    ensures forall i :: 0 <= i < |r.0| ==> Base32.IsSymbol(r.0[i])
    ensures |r.1| <= |s|
    decreases |s|
  {
    var t := Skip(s);
    if |t| > 0 && Base32.IsSymbol(t[0]) then
      var (d, rest) := SymbolRun(t[1..]);
      ([t[0]] + d, rest)
    else ([], s)
  }

  /** `r_Image`. */
  function ImageRule(s: seq<char>): (r: Option<(ImageRecord, seq<char>)>)
    ensures r.Some? ==> IsInt32(r.value.0.width) && IsInt32(r.value.0.height) && IsInt32(r.value.0.size)
    ensures r.Some? ==> forall i :: 0 <= i < |r.value.0.data| ==> Base32.IsSymbol(r.value.0.data[i])
  {
    var width :- IntField("width:", s);
    var height :- IntField("height:", width.1);
    var size :- IntField("size:", height.1);
    var t :- Lit("data:", size.1);
    var (data, rest) := SymbolRun(t);
    Some((ImageRecord(width.0, height.0, size.0, data), rest))
  }

  /** `parseResult`: the record, or `invalid_argument` on a mismatch. */
  function ParseResult(line: seq<char>): (r: Result<ResultRecord, ErrorCode>)
    ensures r.Failure? <==> ResultRule(line).None?
    ensures r.Failure? ==> r.error == InvalidArgument
  {
    match ResultRule(line)
    case None => Failure(InvalidArgument)
    case Some((record, _)) => Success(record)
  }

  /** `parseImage`: the record, or `invalid_argument` on a mismatch. */
  function ParseImage(line: seq<char>): (r: Result<ImageRecord, ErrorCode>)
    ensures r.Failure? <==> ImageRule(line).None?
    ensures r.Failure? ==> r.error == InvalidArgument
  {
    match ImageRule(line)
    case None => Failure(InvalidArgument)
    case Some((record, _)) => Success(record)
  }

  // ----- the quoted message -----------------------------------------------

  predicate NoQuote(m: seq<char>)
  {
    forall i :: 0 <= i < |m| ==> m[i] != Quote
  }

  lemma {:induction false} UntilQuoteOf(m: seq<char>, rest: seq<char>)
    requires NoQuote(m) && (rest == [] || rest[0] == Quote)
    ensures UntilQuote(m + rest) == (m, rest)
  {
    if |m| > 0 {
      assert (m + rest)[1..] == m[1..] + rest;
      UntilQuoteOf(m[1..], rest);
      assert [m[0]] + m[1..] == m;
    } else {
      assert m + rest == rest;
    }
  }

  /** The message is taken verbatim, white space included, up to the closing quote. */
  lemma QuotedRoundTrip(m: seq<char>, rest: seq<char>)
    requires NoQuote(m)
    ensures Quoted([Quote] + m + [Quote] + rest) == Some((m, rest))
  {
    var t := [Quote] + m + [Quote] + rest;
    SkipNone(t);
    assert t[1..] == m + ([Quote] + rest);
    UntilQuoteOf(m, [Quote] + rest);
    assert ([Quote] + rest)[1..] == rest;
  }

  /** Without a closing quote there is no message, and the result line does not match. */
  lemma QuotedUnclosed(m: seq<char>)
    requires NoQuote(m)
    ensures Quoted([Quote] + m) == None
  {
    SkipNone([Quote] + m);
    assert ([Quote] + m)[1..] == m + [];
    UntilQuoteOf(m, []);
  }

  // ----- the result line --------------------------------------------------

  /** `lit(word) >> int_` on the word, the printed value, and what follows. */
  lemma IntFieldOf(word: seq<char>, i: int, t: seq<char>)
    requires |word| > 0 && !IsSpace(word[0])
    requires IsInt32(i) && (t == [] || !IsDigit(t[0]))
    ensures IntField(word, word + (IntText(i) + t)) == Some((i, t))
    ensures IntField(word, Spaced(word) + (IntText(i) + t)) == Some((i, t))
  {
    LitFront(word, IntText(i) + t);
    LitAfterSpace(word, IntText(i) + t);
    IntRoundTrip(i, t);
  }

  lemma ResultTextSplit(code: int, message: seq<char>, rest: seq<char>)
    ensures ResultText(code, message) + rest
         == "result:" + (IntText(code) + (Spaced("message:") + ([Quote] + message + [Quote] + rest)))
  {
  }

  /**
   * Round trip: the result line carries any `int` code and any message
   * without `"`; whatever follows the closing quote is ignored.
   */
  lemma ResultRoundTrip(code: int, message: seq<char>, rest: seq<char>)
    requires IsInt32(code) && NoQuote(message)
    ensures ParseResult(ResultText(code, message) + rest) == Success(ResultRecord(code, message))
  {
    var quoted := [Quote] + message + [Quote] + rest;
    var afterInt := Spaced("message:") + quoted;
    ResultTextSplit(code, message, rest);
    IntFieldOf("result:", code, afterInt);
    LitAfterSpace("message:", quoted);
    QuotedRoundTrip(message, rest);
  }

  // ----- the image line ---------------------------------------------------

  predicate AllSymbols(d: seq<char>)
  {
    forall i :: 0 <= i < |d| ==> Base32.IsSymbol(d[i])
  }

  /** Input after which no further symbol is taken. */
  predicate SymbolStop(rest: seq<char>)
  {
    Skip(rest) == [] || !Base32.IsSymbol(Skip(rest)[0])
  }

  /** White space before a symbol is stepped over and not kept. */
  lemma SymbolRunStep(spaces: seq<char>, c: char, s: seq<char>)
    requires AllSpace(spaces) && Base32.IsSymbol(c)
    ensures SymbolRun(spaces + [c] + s) == ([c] + SymbolRun(s).0, SymbolRun(s).1)
  {
    assert spaces + [c] + s == spaces + ([c] + s);
    SkipSpaces(spaces, [c] + s);
    SkipNone([c] + s);
    assert ([c] + s)[1..] == s;
  }

  /** The run reads back a string of symbols, stopping where no symbol follows. */
  lemma {:induction false} SymbolRunOf(data: seq<char>, rest: seq<char>)
    requires AllSymbols(data) && SymbolStop(rest)
    ensures SymbolRun(data + rest) == (data, rest)
  {
    if |data| == 0 {
      assert data + rest == rest;
    } else {
      assert data + rest == [] + [data[0]] + (data[1..] + rest);
      SymbolRunStep([], data[0], data[1..] + rest);
      SymbolRunOf(data[1..], rest);
      assert [data[0]] + data[1..] == data;
    }
  }

  /**
   * Round trip: three `int` fields and a symbol string, possibly empty,
   * are read back from the image line.
   */
  lemma ImageRoundTrip(width: int, height: int, size: int, data: seq<char>)
    requires IsInt32(width) && IsInt32(height) && IsInt32(size) && AllSymbols(data)
    ensures ParseImage(ImageText(width, height, size, data)) == Success(ImageRecord(width, height, size, data))
  {
    var d := Spaced("data:") + data;
    var z := Spaced("size:") + (IntText(size) + d);
    var h := Spaced("height:") + (IntText(height) + z);
    IntFieldOf("width:", width, h);
    IntFieldOf("height:", height, z);
    IntFieldOf("size:", size, d);
    LitAfterSpace("data:", data);
    assert data + [] == data;
    SymbolRunOf(data, []);
  }
}
