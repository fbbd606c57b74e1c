/**
 * `readLine`, as both the client's `Command` and the server's `Connection`
 * carry it: characters are taken one at a time and appended to the caller's
 * string until the two-character delimiter CR LF has been matched.
 *
 * The delimiter matcher keeps one bit of state: whether the previous
 * character completed a match of CR. A CR right after a matched CR does not
 * restart the match but resets it, so a line ends at the first LF preceded
 * by an odd number of CRs.
 */
module LineReader {
  import opened Wrappers
  import opened Errors
  import opened Streams

  /** The outcome of one `readLine`: the error, the caller's string afterwards, and the stream. */
  datatype LineRead = LineRead(error: ErrorCode, line: seq<char>, rest: Stream)

  const CR: char := '\r'
  const LF: char := '\n'

  /** The delimiter both sides end every line with. */
  const CrLf: seq<char> := [CR, LF]

  /**
   * The read loop from the point where `line` has been accumulated and
   * `afterCr` records a matched CR (which `line` then ends with).
   */
  function ReadFrom(line: seq<char>, afterCr: bool, input: Stream): (r: LineRead)
    requires afterCr ==> |line| > 0 && line[|line| - 1] == CR
    ensures r.error == NoError || r.error == IllegalByteSequence
    ensures r.error == IllegalByteSequence ==> r.rest == (if input.good then Exhausted else input)
    ensures r.error == NoError ==> r.rest.good && |r.rest.chars| < |input.chars|
    decreases |input.chars|
  {
    if !input.good || |input.chars| == 0 then
      LineRead(IllegalByteSequence, line, Stream(false, input.chars))
    else
      var c := input.chars[0];
      var rest := Stream(true, input.chars[1..]);
      if afterCr && c == LF then
        LineRead(NoError, line[..|line| - 1], rest)
      else
        ReadFrom(line + [c], c == CR && !afterCr, rest)
  }

  /** `readLine(is, line)`: reads onto the end of `line`, which it does not clear. */
  function ReadLine(line: seq<char>, input: Stream): LineRead
  {
    ReadFrom(line, false, input)
  }

  /** Text with neither CR nor LF: it fits on one line. */
  predicate NoBreak(s: seq<char>)
  {
    forall i :: 0 <= i < |s| ==> s[i] != CR && s[i] != LF
  }

  // ----- where a line ends ------------------------------------------------

  /** The number of CRs immediately before position `k` of `s`. */
  function CrRun(s: seq<char>, k: nat): (n: nat)
    requires k <= |s|
    ensures n <= k
    ensures n > 0 ==> s[k - 1] == CR
  {
    if k == 0 || s[k - 1] != CR then 0 else 1 + CrRun(s, k - 1)
  }

  /** Position `k` of `s` is an LF that ends a line: an odd run of CRs precedes it. */
  predicate EndsLineAt(s: seq<char>, k: nat)
  {
    k < |s| && s[k] == LF && CrRun(s, k) % 2 == 1
  }

  /** The first position at or after `i` where a line ends, if any. */
  function FirstEnd(s: seq<char>, i: nat): (r: Option<nat>)
    requires i <= |s|
    ensures r.Some? ==> i <= r.value < |s| && EndsLineAt(s, r.value)
    ensures r.Some? ==> forall j :: i <= j < r.value ==> !EndsLineAt(s, j)
    ensures r.None? ==> forall j :: i <= j < |s| ==> !EndsLineAt(s, j)
    decreases |s| - i
  {
    if i == |s| then None
    else if EndsLineAt(s, i) then Some(i)
    else FirstEnd(s, i + 1)
  }

  /**
   * What reading a line from the characters `s` must give: the text before
   * the first line end (its CR dropped) and the input after the LF; or, with
   * no line end, everything appended and the stream exhausted.
   */
  function Expected(line: seq<char>, s: seq<char>): LineRead
  {
    match FirstEnd(s, 0)
    case Some(k) =>
      // an odd CR run precedes k, so k >= 1
      if k == 0 then LineRead(NoError, line, Stream(true, s[k + 1..]))
      else LineRead(NoError, line + s[..k - 1], Stream(true, s[k + 1..]))
    case None => LineRead(IllegalByteSequence, line + s, Exhausted)
  }

  /**
   * The loop keeps the matcher's bit equal to the parity of the CR run so
   * far, so it stops at exactly the first line end.
   */
  lemma {:induction false} ReadFromExpected(line: seq<char>, s: seq<char>, i: nat, acc: seq<char>, afterCr: bool)
    requires i <= |s| && acc == line + s[..i]
    requires afterCr <==> CrRun(s, i) % 2 == 1
    requires forall j :: 0 <= j < i ==> !EndsLineAt(s, j)
    requires afterCr ==> |acc| > 0 && acc[|acc| - 1] == CR
    ensures ReadFrom(acc, afterCr, Stream(true, s[i..])) == Expected(line, s)
    decreases |s| - i
  {
    if i == |s| {
      ExpectedNoEnd(line, s);
    } else {
      var c := s[i];
      ReadFromStep(acc, afterCr, s, i);
      if afterCr && c == LF {
        ExpectedAt(line, s, i);
        assert acc[..|acc| - 1] == line + s[..i - 1];
      } else {
        assert s[..i + 1] == s[..i] + [c];
        ReadFromExpected(line, s, i + 1, acc + [c], c == CR && !afterCr);
      }
    }
  }

  /** One character of the read loop. */
  lemma ReadFromStep(acc: seq<char>, afterCr: bool, s: seq<char>, i: nat)
    requires i < |s| && (afterCr ==> |acc| > 0 && acc[|acc| - 1] == CR)
    ensures ReadFrom(acc, afterCr, Stream(true, s[i..]))
         == if afterCr && s[i] == LF then LineRead(NoError, acc[..|acc| - 1], Stream(true, s[i + 1..]))
            else ReadFrom(acc + [s[i]], s[i] == CR && !afterCr, Stream(true, s[i + 1..]))
  {
    assert s[i..][1..] == s[i + 1..];
  }

  /** With no line end in `s`, all of it is appended and the stream is exhausted. */
  lemma ExpectedNoEnd(line: seq<char>, s: seq<char>)
    requires forall j :: 0 <= j < |s| ==> !EndsLineAt(s, j)
    ensures Expected(line, s) == LineRead(IllegalByteSequence, line + s[..|s|], Exhausted)
  {
    assert s[..|s|] == s;
  }

  /** With the first line end at `i`, the line is what precedes its CR. */
  lemma ExpectedAt(line: seq<char>, s: seq<char>, i: nat)
    requires EndsLineAt(s, i) && forall j :: 0 <= j < i ==> !EndsLineAt(s, j)
    ensures i > 0 && Expected(line, s) == LineRead(NoError, line + s[..i - 1], Stream(true, s[i + 1..]))
  {
  }

  /**
   * `readLine` on a good stream yields the characters before the first LF
   * that follows an odd run of CRs, without the final CR and LF, and leaves
   * the input after the LF; when no such LF comes, it appends all the input,
   * leaves the stream exhausted and reports `illegal_byte_sequence`.
   */
  lemma ReadLineMeetsExpected(line: seq<char>, s: seq<char>)
    ensures ReadLine(line, Stream(true, s)) == Expected(line, s)
  {
    assert s[0..] == s;
    ReadFromExpected(line, s, 0, line, false);
  }

  /** The common case: a line without LF, not ending in CR, then CR LF. */
  lemma ReadLineCrLf(line: seq<char>, body: seq<char>, tail: seq<char>)
    requires forall i :: 0 <= i < |body| ==> body[i] != LF
    requires body == [] || body[|body| - 1] != CR
    ensures ReadLine(line, Stream(true, body + [CR, LF] + tail))
         == LineRead(NoError, line + body, Stream(true, tail))
  {
    var s := body + [CR, LF] + tail;
    var k := |body| + 1;
    assert s[k] == LF && s[k - 1] == CR;
    assert CrRun(s, k - 1) == 0;
    assert EndsLineAt(s, k);
    assert forall j :: 0 <= j < k ==> !EndsLineAt(s, j) by {
      forall j | 0 <= j < k
        ensures s[j] != LF
      {
        if j < |body| {
          assert s[j] == body[j];
        }
      }
    }
    assert FirstEnd(s, 0) == Some(k);
    assert s[..k - 1] == body && s[k + 1..] == tail;
    ReadLineMeetsExpected(line, s);
  }

  /** On a stream that is no longer good nothing is read, and the error is reported. */
  lemma ReadLineBadStream(line: seq<char>, s: seq<char>)
    ensures ReadLine(line, Stream(false, s)) == LineRead(IllegalByteSequence, line, Stream(false, s))
  {
  }

  /** CR CR LF does not end a line: the second CR resets the match. */
  lemma CrCrLfIsNoLineEnd()
    ensures ReadLine([], Stream(true, [CR, CR, LF])) == LineRead(IllegalByteSequence, [CR, CR, LF], Exhausted)
  {
    assert ReadFrom([CR, CR, LF], false, Stream(true, [])) == LineRead(IllegalByteSequence, [CR, CR, LF], Exhausted);
    assert ReadFrom([CR, CR], false, Stream(true, [LF])) == ReadFrom([CR, CR, LF], false, Stream(true, []));
    assert [CR, LF][1..] == [LF] && [CR, CR, LF][1..] == [CR, LF];
    assert [CR] + [CR] == [CR, CR] && [] + [CR] == [CR];
    assert ReadFrom([CR], true, Stream(true, [CR, LF])) == ReadFrom([CR, CR], false, Stream(true, [LF]));
    assert ReadFrom([], false, Stream(true, [CR, CR, LF])) == ReadFrom([CR], true, Stream(true, [CR, LF]));
  }

  /** CR CR CR LF does: the third CR starts a new match, which the LF completes. */
  lemma CrCrCrLfEndsLine()
    ensures ReadLine([], Stream(true, [CR, CR, CR, LF])) == LineRead(NoError, [CR, CR], Stream(true, []))
  {
    assert ReadFrom([CR, CR, CR], true, Stream(true, [LF])) == LineRead(NoError, [CR, CR], Stream(true, [])) by {
      assert [LF][1..] == [] && [CR, CR, CR][..2] == [CR, CR];
    }
    assert ReadFrom([CR, CR], false, Stream(true, [CR, LF])) == ReadFrom([CR, CR, CR], true, Stream(true, [LF])) by {
      assert [CR, LF][1..] == [LF] && [CR, CR] + [CR] == [CR, CR, CR];
    }
    assert ReadFrom([CR], true, Stream(true, [CR, CR, LF])) == ReadFrom([CR, CR], false, Stream(true, [CR, LF])) by {
      assert [CR, CR, LF][1..] == [CR, LF] && [CR] + [CR] == [CR, CR];
    }
    assert ReadFrom([], false, Stream(true, [CR, CR, CR, LF])) == ReadFrom([CR], true, Stream(true, [CR, CR, LF])) by {
      assert [CR, CR, CR, LF][1..] == [CR, CR, LF] && [] + [CR] == [CR];
    }
  }
}
