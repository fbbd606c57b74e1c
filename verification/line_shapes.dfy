/**
 * The shape of the protocol's lines: the request and response texts hold
 * neither CR nor LF, so `readLine` reads each of them back as one line.
 */
module LineShapes {
  import opened Lexical
  import opened DecimalLiteral
  import opened LineReader
  import opened ResponseText
  import opened ResponseParser
  import Base32

  lemma NoBreakAppend(a: seq<char>, b: seq<char>)
    requires NoBreak(a) && NoBreak(b)
    ensures NoBreak(a + b)
  {
    assert forall i :: 0 <= i < |a + b| ==> (a + b)[i] == (if i < |a| then a[i] else b[i - |a|]);
  }

  lemma DigitsNoBreak(ds: seq<char>)
    requires AllDigits(ds)
    ensures NoBreak(ds)
  {
    assert forall i :: 0 <= i < |ds| ==> IsDigit(ds[i]);
  }

  /** A valid literal is written without CR or LF. */
  lemma NumberNoBreak(n: Number)
    requires Valid(n)
    ensures NoBreak(Text(n))
  {
    DigitsNoBreak(n.whole);
    var mantissa := MantissaText(n.whole, n.fraction);
    if n.fraction.Some? {
      DigitsNoBreak(n.fraction.value);
      NoBreakAppend(n.whole, ['.']);
      NoBreakAppend(n.whole + ['.'], n.fraction.value);
    }
    var exponent := if n.exponent.Some? then ExponentText(n.exponent.value) else [];
    if n.exponent.Some? {
      var e := n.exponent.value;
      DigitsNoBreak(e.digits);
      NoBreakAppend([if e.upper then 'E' else 'e'], SignText(e.sign));
      NoBreakAppend([if e.upper then 'E' else 'e'] + SignText(e.sign), e.digits);
    }
    NoBreakAppend(SignText(n.sign), mantissa);
    NoBreakAppend(SignText(n.sign) + mantissa, exponent);
  }

  lemma IntNoBreak(i: int)
    ensures NoBreak(IntText(i))
  {
    var digits := if i < 0 then NatText(-i) else NatText(i);
    DigitsNoBreak(digits);
    NoBreakAppend(if i < 0 then ['-'] else [], digits);
    assert IntText(i) == (if i < 0 then ['-'] else []) + digits;
  }

  /** The result line holds no line break when its message holds none. */
  lemma ResultTextNoBreak(code: int, message: seq<char>)
    requires NoBreak(message)
    ensures NoBreak(ResultText(code, message))
    ensures ResultText(code, message)[|ResultText(code, message)| - 1] == Quote
  {
    IntNoBreak(code);
    NoBreakAppend("result:", IntText(code));
    NoBreakAppend("result:" + IntText(code), Spaced("message:"));
    NoBreakAppend("result:" + IntText(code) + Spaced("message:"), [Quote]);
    NoBreakAppend("result:" + IntText(code) + Spaced("message:") + [Quote], message);
    NoBreakAppend("result:" + IntText(code) + Spaced("message:") + [Quote] + message, [Quote]);
  }

  lemma SymbolsNoBreak(data: seq<char>)
    requires AllSymbols(data)
    ensures NoBreak(data)
  {
    forall i | 0 <= i < |data| ensures data[i] != CR && data[i] != LF {
      assert Base32.IsSymbol(data[i]);
    }
  }

  /** The image line holds no line break, and does not end in CR. */
  lemma ImageTextNoBreak(width: int, height: int, size: int, data: seq<char>)
    requires AllSymbols(data)
    ensures NoBreak(ImageText(width, height, size, data))
    ensures var t := ImageText(width, height, size, data); t[|t| - 1] != CR
  {
    IntNoBreak(width);
    IntNoBreak(height);
    IntNoBreak(size);
    SymbolsNoBreak(data);
    var d := Spaced("data:") + data;
    NoBreakAppend(Spaced("data:"), data);
    NoBreakAppend(IntText(size), d);
    NoBreakAppend(Spaced("size:"), IntText(size) + d);
    var z := Spaced("size:") + (IntText(size) + d);
    NoBreakAppend(IntText(height), z);
    NoBreakAppend(Spaced("height:"), IntText(height) + z);
    var h := Spaced("height:") + (IntText(height) + z);
    NoBreakAppend(IntText(width), h);
    NoBreakAppend("width:", IntText(width) + h);
    ImageTextLast(width, height, size, data);
  }

  /** The image line ends in its last symbol, or in `data:` when there is none. */
  lemma ImageTextLast(width: int, height: int, size: int, data: seq<char>)
    requires AllSymbols(data)
    ensures var t := ImageText(width, height, size, data); t[|t| - 1] != CR
  {
    var t := ImageText(width, height, size, data);
    var front := t[..|t| - |data|];
    assert t == front + data;
    if |data| > 0 {
      assert t[|t| - 1] == data[|data| - 1];
      assert Base32.IsSymbol(data[|data| - 1]);
    } else {
      assert t[|t| - 1] == ':';
    }
  }
}
