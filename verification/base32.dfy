/**
 * The server's Base32 codec: the alphabet of section 6 of RFC 4648, bytes
 * packed most significant bit first into 5-bit symbols, no `=` padding.
 *
 * `Encode` is the reference definition (bit string, zero-padded to a multiple
 * of five, cut into symbols); `EncodeToStream` is the bit-buffer loop as the
 * source writes it and is proved to produce the same text. `Decode` follows
 * the source's decoding loop step by step.
 */
module Base32 {
  import opened Wrappers
  import opened Bits
  import opened Streams

  /** `uint8_t`. */
  type byte = b: int | 0 <= b < 256

  /** The encoder's lookup table. */
  const Alphabet: seq<char> := "ABCDEFGHIJKLMNOPQRSTUVWXYZ234567"

  /** Membership in the alphabet: `A`-`Z` and `2`-`7`. */
  predicate IsSymbol(c: char)
  {
    'A' <= c <= 'Z' || '2' <= c <= '7'
  }

  /** The symbol for the 5-bit value `v`: the letters, then the digits 2-7. */
  function SymbolChar(v: nat): (c: char)
    requires v < 32
    ensures IsSymbol(c)
  {
    if v < 26 then ('A' as int + v) as char else ('2' as int + v - 26) as char
  }

  /** The table is the alphabet of RFC 4648, section 6. */
  lemma AlphabetAt(v: nat)
    requires v < 32
    ensures Alphabet[v] == SymbolChar(v)
  {
  }

  lemma Pow2Constants()
    ensures Pow2(5) == 32 && Pow2(8) == 256
  {
  }

  // ----- encoding ---------------------------------------------------------

  function BytesBits(bytes: seq<byte>): (bits: seq<bool>)
    ensures |bits| == 8 * |bytes|
  {
    if |bytes| == 0 then [] else FromNat(bytes[0], 8) + BytesBits(bytes[1..])
  }

  /** Zero bits appended to reach a multiple of five (fewer than five). */
  function PadLength(n: nat): (p: nat)
    ensures p < 5
  {
    if n == 0 then 0 else if n < 5 then 5 - n else PadLength(n - 5)
  }

  function Padded(bits: seq<bool>): (p: seq<bool>)
    ensures |p| == |bits| + PadLength(|bits|)
  {
    bits + Zeros(PadLength(|bits|))
  }

  /** The symbol for a group of five bits. */
  function SymbolOf(group: seq<bool>): (c: char)
    requires |group| == 5
    ensures IsSymbol(c)
  {
    Pow2Constants();
    SymbolChar(Value(group))
  }

  /** One symbol per whole group of five bits; a shorter tail gives none. */
  function Symbols(bits: seq<bool>): (text: seq<char>)
    decreases |bits|
  {
    if |bits| < 5 then [] else [SymbolOf(bits[..5])] + Symbols(bits[5..])
  }

  /**
   * Base32 text of `bytes`: ceil(8n/5) symbols of the alphabet, never `=`;
   * the empty buffer encodes to nothing.
   */
  function Encode(bytes: seq<byte>): (text: seq<char>)
    ensures |text| == (8 * |bytes| + 4) / 5
    ensures forall i :: 0 <= i < |text| ==> IsSymbol(text[i])
    ensures '=' !in text
    ensures |bytes| == 0 <==> |text| == 0
  {
    var bits := Padded(BytesBits(bytes));
    PadLengthFill(|BytesBits(bytes)|);
    SymbolsLength(bits, (8 * |bytes| + 4) / 5);
    SymbolsAreSymbols(bits);
    Symbols(bits)
  }

  /** Padding fills the last group: n bits padded make ceil(n/5) groups of five. */
  lemma {:induction false} PadLengthFill(n: nat)
    ensures n + PadLength(n) == 5 * ((n + 4) / 5)
  {
    if n >= 5 {
      PadLengthFill(n - 5);
    }
  }

  lemma {:induction false} SymbolsLength(bits: seq<bool>, k: nat)
    requires |bits| == 5 * k
    ensures |Symbols(bits)| == k
  {
    if k > 0 {
      SymbolsLength(bits[5..], k - 1);
    }
  }

  lemma {:induction false} SymbolsAreSymbols(bits: seq<bool>)
    ensures forall i :: 0 <= i < |Symbols(bits)| ==> IsSymbol(Symbols(bits)[i])
    decreases |bits|
  {
    if |bits| >= 5 {
      SymbolsAreSymbols(bits[5..]);
    }
  }

  lemma SymbolsAppend(group: seq<bool>, more: seq<bool>)
    requires |group| == 5
    ensures Symbols(group + more) == [SymbolOf(group)] + Symbols(more)
  {
    assert (group + more)[..5] == group;
    assert (group + more)[5..] == more;
  }

  /** The low bits of the buffer are the live bit string. */
  predicate Holds(buffer: nat, live: seq<bool>)
  {
    Low(buffer, |live|) == Value(live)
  }

  /**
   * What the loop has still to write: the text so far followed by the
   * reference symbols for the live bits and the unread bytes is the encoding.
   */
  predicate Remaining(bytes: seq<byte>, next: nat, live: seq<bool>, written: seq<char>)
    requires next <= |bytes|
  {
    written + Symbols(Padded(live + BytesBits(bytes[next..]))) == Encode(bytes)
  }

  /** The first byte alone is the live bits, and the rest of the encoding is still to come. */
  lemma EncodeStart(bytes: seq<byte>)
    requires |bytes| > 0
    ensures Holds(bytes[0], FromNat(bytes[0], 8))
    ensures Remaining(bytes, 1, FromNat(bytes[0], 8), [])
  {
    Pow2Constants();
    LowIsMod(bytes[0], 8);
    ValueFromNat(bytes[0], 8);
    SmallMod(bytes[0], 256);
    assert BytesBits(bytes) == FromNat(bytes[0], 8) + BytesBits(bytes[1..]);
  }

  /** Taking in the next input byte appends its eight bits to the live bits. */
  lemma EncodeLoadBits(buffer: nat, live: seq<bool>, b: byte)
    requires |live| < 5 && Holds(buffer, live)
    ensures Holds(Wrap(Shl(buffer, 8) + b), live + FromNat(b, 8))
  {
    Pow2Constants();
    ShiftInBits(buffer, 32, |live|, 8, b, live);
  }

  /** ... and moves them from the unread bytes to the live bits of what remains. */
  lemma EncodeLoad(bytes: seq<byte>, next: nat, live: seq<bool>, written: seq<char>)
    requires next < |bytes| && Remaining(bytes, next, live, written)
    ensures Remaining(bytes, next + 1, live + FromNat(bytes[next], 8), written)
  {
    assert bytes[next..][1..] == bytes[next + 1..];
    assert BytesBits(bytes[next..]) == FromNat(bytes[next], 8) + BytesBits(bytes[next + 1..]);
    assert live + BytesBits(bytes[next..]) == live + FromNat(bytes[next], 8) + BytesBits(bytes[next + 1..]);
  }

  /** Once the input is exhausted, the live bits are zero-filled to five. */
  lemma EncodePadBits(buffer: nat, live: seq<bool>)
    requires 0 < |live| < 5 && Holds(buffer, live)
    ensures Holds(Wrap(Shl(buffer, 5 - |live|)), live + Zeros(5 - |live|))
  {
    var pad := 5 - |live|;
    ShiftInBits(buffer, 32, |live|, pad, 0, live);
    assert Shl(buffer, pad) + 0 == Shl(buffer, pad);
    ZerosFromNat(pad);
  }

  /** Zero-filling a short group to five bits is what the reference padding does. */
  lemma EncodePad(bytes: seq<byte>, next: nat, live: seq<bool>, written: seq<char>)
    requires next == |bytes| && 0 < |live| < 5 && Remaining(bytes, next, live, written)
    ensures Remaining(bytes, next, live + Zeros(5 - |live|), written)
  {
    var filled := live + Zeros(5 - |live|);
    assert BytesBits(bytes[next..]) == [];
    assert live + BytesBits(bytes[next..]) == live;
    assert filled + BytesBits(bytes[next..]) == filled;
    assert PadLength(|filled|) == 0;
    assert filled + Zeros(0) == filled;
  }

  /** Emitting the top five live bits yields their value and keeps the rest live. */
  lemma EncodeEmitBits(buffer: nat, live: seq<bool>)
    requires 5 <= |live| && Holds(buffer, live)
    ensures Low(Shr(buffer, |live| - 5), 5) == Value(live[..5]) < 32
    ensures Holds(buffer, live[5..])
  {
    Pow2Constants();
    ExtractBits(buffer, |live| - 5, 5, live);
  }

  /** The five bits emitted are the next symbol of the reference encoding. */
  lemma EncodeEmit(bytes: seq<byte>, next: nat, live: seq<bool>, written: seq<char>)
    requires next <= |bytes| && 5 <= |live| && Remaining(bytes, next, live, written)
    ensures Remaining(bytes, next, live[5..], written + [SymbolOf(live[..5])])
  {
    var more := BytesBits(bytes[next..]);
    assert live + more == live[..5] + (live[5..] + more);
    assert Padded(live + more) == live[..5] + Padded(live[5..] + more);
    SymbolsAppend(live[..5], Padded(live[5..] + more));
  }

  /**
   * The encoding loop as written: a bit buffer (`int buffer`, here its 32-bit
   * pattern) that is topped up a byte at a time, or zero-padded once the input
   * is exhausted, and from which the top five live bits are emitted.
   */
  method EncodeToStream(bytes: seq<byte>) returns (ok: bool, written: seq<char>)
    ensures ok
    ensures written == Encode(bytes)
  {
    written := [];
    if |bytes| > 0 {
      var buffer: nat := bytes[0];
      var next: nat := 1;
      var bitsLeft: nat := 8;
      ghost var live := FromNat(bytes[0], 8);
      EncodeStart(bytes);
      while bitsLeft > 0 || next < |bytes|
        invariant 1 <= next <= |bytes|
        invariant |live| == bitsLeft <= 12
        invariant Holds(buffer, live) && Remaining(bytes, next, live, written)
        decreases |bytes| - next, bitsLeft
      {
        if bitsLeft < 5 {
          buffer, bitsLeft, next, live := Refill(bytes, buffer, bitsLeft, next, live, written);
        }
        EncodeEmitBits(buffer, live);
        EncodeEmit(bytes, next, live, written);
        var index := Low(Shr(buffer, bitsLeft - 5), 5);
        AlphabetAt(index);
        bitsLeft := bitsLeft - 5;
        written := written + [Alphabet[index]];
        live := live[5..];
      }
      assert bytes[next..] == [];
      assert live + BytesBits(bytes[next..]) == [];
    }
    ok := true;
  }

  /**
   * The loop's top-up when fewer than five bits are live: the next byte is
   * shifted in, or once the input is exhausted the buffer is zero-padded to
   * five bits.
   */
  method Refill(bytes: seq<byte>, buffer: nat, bitsLeft: nat, next: nat, ghost live: seq<bool>, ghost written: seq<char>)
    returns (buffer': nat, bitsLeft': nat, next': nat, ghost live': seq<bool>)
    requires 1 <= next <= |bytes| && |live| == bitsLeft < 5 && (next == |bytes| ==> bitsLeft > 0)
    requires Holds(buffer, live) && Remaining(bytes, next, live, written)
    ensures next' <= |bytes| && Holds(buffer', live') && Remaining(bytes, next', live', written)
    ensures |live'| == bitsLeft' && 5 <= bitsLeft' <= 12
    ensures next < |bytes| ==> next' == next + 1 && live' == live + FromNat(bytes[next], 8)
    ensures next == |bytes| ==> next' == next && live' == live + Zeros(5 - |live|)
  {
    if next < |bytes| {
      EncodeLoadBits(buffer, live, bytes[next]);
      EncodeLoad(bytes, next, live, written);
      buffer' := Wrap(Shl(buffer, 8) + bytes[next]);
      live' := live + FromNat(bytes[next], 8);
      next' := next + 1;
      bitsLeft' := bitsLeft + 8;
    } else {
      var pad: nat := 5 - bitsLeft;
      EncodePadBits(buffer, live);
      EncodePad(bytes, next, live, written);
      buffer' := Wrap(Shl(buffer, pad));
      live' := live + Zeros(pad);
      next' := next;
      bitsLeft' := bitsLeft + pad;
    }
  }

  // ----- decoding ---------------------------------------------------------

  datatype Decoded = Decoded(ok: bool, bytes: seq<byte>, rest: Stream)

  /** Characters the decoder steps over: space, tab, CR, LF and `-`. */
  predicate IsSkipped(c: char)
  {
    c == ' ' || c == '\t' || c == '\r' || c == '\n' || c == '-'
  }

  /**
   * The decoder's digit lookup: letters of either case by their low five
   * code bits minus one, digits 2-7 by subtracting '2' - 26.
   */
  function SymbolValue(c: char): (v: Option<nat>)
    ensures v.Some? ==> v.value < 32
  {
    if ('A' <= c <= 'Z') || ('a' <= c <= 'z') then Some((c as int) % 32 - 1)
    else if '2' <= c <= '7' then Some(c as int - ('2' as int - 26))
    else None
  }

  /** The lower-case form of the symbol for `v`; digits have only one. */
  function LowerSymbolChar(v: nat): char
    requires v < 32
  {
    if v < 26 then ('a' as int + v) as char else SymbolChar(v)
  }

  predicate IsLowerSymbol(c: char)
  {
    'a' <= c <= 'z' || '2' <= c <= '7'
  }

  /** The lookup inverts the alphabet, in upper and in lower case. */
  lemma SymbolValueOf(v: nat)
    requires v < 32
    ensures SymbolValue(SymbolChar(v)) == Some(v)
    ensures SymbolValue(LowerSymbolChar(v)) == Some(v)
  {
  }

  /** Exactly the alphabet's symbols, letters in either case, have a value, and it names them. */
  lemma SymbolValueDefined(c: char)
    ensures SymbolValue(c).Some? <==> IsSymbol(c) || IsLowerSymbol(c)
    ensures IsSymbol(c) ==> SymbolChar(SymbolValue(c).value) == c
    ensures IsLowerSymbol(c) ==> LowerSymbolChar(SymbolValue(c).value) == c
  {
  }

  /**
   * The decoding loop from a given state: `buffer` is the 32-bit pattern of
   * the bit buffer, `bitsLeft` how many of its low bits are still unused and
   * `out` the bytes produced so far. Returns whether `size` bytes were
   * produced, the bytes written, and what is left of the stream.
   */
  function DecodeFrom(size: nat, buffer: nat, bitsLeft: nat, out: seq<byte>, input: Stream): (r: Decoded)
    requires bitsLeft < 8 && |out| <= size
    ensures out <= r.bytes && |r.bytes| <= size
    ensures r.ok <==> |r.bytes| == size
    decreases |input.chars|
  {
    if |out| < size && input.good then
      if |input.chars| == 0 then
        // get() at the end yields 0xFF, which is not a symbol; the stream fails
        Decoded(false, out, Exhausted)
      else
        var c := input.chars[0];
        var after := Stream(true, input.chars[1..]);
        if IsSkipped(c) then DecodeFrom(size, buffer, bitsLeft, out, after)
        else match SymbolValue(c)
          case None =>
            // putback(ch): the offending character stays in the stream
            Decoded(false, out, input)
          case Some(v) =>
            var shifted := Wrap(Shl(buffer, 5) + v);
            if bitsLeft + 5 >= 8 then
              var b := Low(Shr(shifted, bitsLeft + 5 - 8), 8);
              LowBound(Shr(shifted, bitsLeft + 5 - 8), 8);
              Pow2Constants();
              DecodeFrom(size, shifted, bitsLeft + 5 - 8, out + [b], after)
            else
              DecodeFrom(size, shifted, bitsLeft + 5, out, after)
    else if |out| < size then
      // the loop stopped on a bad stream: one zero byte is appended
      var padded := out + [0];
      Decoded(|padded| == size, padded, input)
    else
      Decoded(true, out, input)
  }

  /**
   * `decode(data, size, is)`: true exactly when `size` bytes were produced;
   * never more than `size` bytes are written.
   */
  function Decode(size: nat, input: Stream): (r: Decoded)
    ensures r.ok <==> |r.bytes| == size
    ensures |r.bytes| <= size
  {
    DecodeFrom(size, 0, 0, [], input)
  }

  // ----- properties -------------------------------------------------------

  /** Asking for no bytes succeeds without reading anything. */
  lemma DecodeNothing(input: Stream)
    ensures Decode(0, input) == Decoded(true, [], input)
  {
  }

  /** A stream that is already bad yields exactly one zero byte. */
  lemma DecodeBadStream(size: nat, chars: seq<char>)
    requires size > 0
    ensures Decode(size, Stream(false, chars)) == Decoded(size == 1, [0], Stream(false, chars))
  {
  }

  /** Skipped characters leave the decoder's state untouched. */
  lemma DecodeSkips(size: nat, buffer: nat, bitsLeft: nat, out: seq<byte>, c: char, chars: seq<char>)
    requires bitsLeft < 8 && |out| < size
    requires IsSkipped(c)
    ensures DecodeFrom(size, buffer, bitsLeft, out, Stream(true, [c] + chars))
         == DecodeFrom(size, buffer, bitsLeft, out, Stream(true, chars))
  {
    assert ([c] + chars)[1..] == chars;
  }

  /** A lower-case letter decodes exactly like its upper-case form. */
  lemma DecodeIgnoresCase(size: nat, buffer: nat, bitsLeft: nat, out: seq<byte>, v: nat, chars: seq<char>)
    requires bitsLeft < 8 && |out| < size && v < 32
    ensures DecodeFrom(size, buffer, bitsLeft, out, Stream(true, [LowerSymbolChar(v)] + chars))
         == DecodeFrom(size, buffer, bitsLeft, out, Stream(true, [SymbolChar(v)] + chars))
  {
    SymbolValueOf(v);
    assert ([LowerSymbolChar(v)] + chars)[1..] == chars;
    assert ([SymbolChar(v)] + chars)[1..] == chars;
  }

  /**
   * Any character that is neither skipped nor a symbol fails the decode on
   * the spot and is put back; nothing after it is consumed.
   */
  lemma DecodeRejects(size: nat, buffer: nat, bitsLeft: nat, out: seq<byte>, c: char, chars: seq<char>)
    requires bitsLeft < 8 && |out| < size
    requires !IsSkipped(c) && !IsSymbol(c) && !IsLowerSymbol(c)
    ensures DecodeFrom(size, buffer, bitsLeft, out, Stream(true, [c] + chars))
         == Decoded(false, out, Stream(true, [c] + chars))
  {
    SymbolValueDefined(c);
  }

  /** Running out of input before `size` bytes is a failure too. */
  lemma DecodeEndOfInput(size: nat, buffer: nat, bitsLeft: nat, out: seq<byte>)
    requires bitsLeft < 8 && |out| < size
    ensures DecodeFrom(size, buffer, bitsLeft, out, Stream(true, [])) == Decoded(false, out, Exhausted)
  {
  }

  // ----- round trip -------------------------------------------------------

  /** The first `n` bytes read off a bit string eight bits at a time. */
  function BytesOf(bits: seq<bool>, n: nat): (bytes: seq<byte>)
    requires 8 * n <= |bits|
    ensures |bytes| == n
  {
    if n == 0 then [] else [FirstByte(bits)] + BytesOf(bits[8..], n - 1)
  }

  /** The byte carried by the first eight bits. */
  function FirstByte(bits: seq<bool>): byte
    requires 8 <= |bits|
  {
    Pow2Constants();
    Value(bits[..8])
  }

  lemma {:induction false} BytesOfBytesBits(bytes: seq<byte>, extra: seq<bool>)
    ensures BytesOf(BytesBits(bytes) + extra, |bytes|) == bytes
  {
    if |bytes| > 0 {
      var bits := BytesBits(bytes) + extra;
      assert bits[..8] == FromNat(bytes[0], 8);
      assert bits[8..] == BytesBits(bytes[1..]) + extra;
      ValueFromNat(bytes[0], 8);
      BytesOfBytesBits(bytes[1..], extra);
    }
  }

  /** The buffer after shifting in a symbol carrying the group `group`. */
  function Next(buffer: nat, group: seq<bool>): nat
    requires |group| == 5
  {
    Wrap(Shl(buffer, 5) + Value(group))
  }

  /** One symbol read into the decoder's buffer. */
  lemma DecodeTakeSymbol(buffer: nat, live: seq<bool>, group: seq<bool>)
    requires |live| < 8 && Low(buffer, |live|) == Value(live)
    requires |group| == 5
    ensures Low(Next(buffer, group), |live| + 5) == Value(live + group)
  {
    ShiftInGroup(buffer, 32, group, live);
  }

  /** A full byte in the buffer is emitted as the value of its top eight live bits. */
  lemma DecodeEmit(shifted: nat, grown: seq<bool>)
    requires 8 <= |grown| && Low(shifted, |grown|) == Value(grown)
    ensures Low(Shr(shifted, |grown| - 8), 8) == FirstByte(grown)
    ensures Low(shifted, |grown| - 8) == Value(grown[8..])
  {
    ExtractBits(shifted, |grown| - 8, 8, grown);
  }

  /** The decoder reads the symbol for a group as that group's value. */
  lemma SymbolOfValue(group: seq<bool>)
    requires |group| == 5
    ensures !IsSkipped(SymbolOf(group)) && SymbolValue(SymbolOf(group)) == Some(Value(group))
  {
    Pow2Constants();
    SymbolValueOf(Value(group));
  }

  /** The byte a symbol completes, and the bits it leaves behind. */
  lemma DecodeStepByte(buffer: nat, live: seq<bool>, group: seq<bool>)
    requires |live| < 8 && Low(buffer, |live|) == Value(live)
    requires |group| == 5 && |live| + 5 >= 8
    ensures Low(Shr(Next(buffer, group), |live| + 5 - 8), 8) == FirstByte(live + group)
    ensures Low(Next(buffer, group), |live| - 3) == Value((live + group)[8..])
  {
    DecodeTakeSymbol(buffer, live, group);
    DecodeEmit(Next(buffer, group), live + group);
  }

  /** A symbol that completes a byte: the decoder emits it and moves on. */
  lemma DecodeStepEmit(size: nat, buffer: nat, live: seq<bool>, out: seq<byte>, group: seq<bool>, rest: seq<char>)
    requires |live| < 8 && Low(buffer, |live|) == Value(live) && |out| < size
    requires |group| == 5 && |live| + 5 >= 8
    ensures Low(Next(buffer, group), |live| - 3) == Value((live + group)[8..])
    ensures DecodeFrom(size, buffer, |live|, out, Stream(true, [SymbolOf(group)] + rest))
         == DecodeFrom(size, Next(buffer, group), |live| - 3, out + [FirstByte(live + group)], Stream(true, rest))
  {
    DecodeStepByte(buffer, live, group);
    SymbolOfValue(group);
    assert ([SymbolOf(group)] + rest)[1..] == rest;
  }

  /** A symbol that does not complete a byte: the decoder only buffers it. */
  lemma DecodeStepBuffer(size: nat, buffer: nat, live: seq<bool>, out: seq<byte>, group: seq<bool>, rest: seq<char>)
    requires |live| < 8 && |out| < size
    requires |group| == 5 && |live| + 5 < 8
    ensures DecodeFrom(size, buffer, |live|, out, Stream(true, [SymbolOf(group)] + rest))
         == DecodeFrom(size, Next(buffer, group), |live| + 5, out, Stream(true, rest))
  {
    SymbolOfValue(group);
    assert ([SymbolOf(group)] + rest)[1..] == rest;
  }

  /**
   * A decoder state partway through the symbols for `bits`, k groups of
   * five: the buffer's low bits are the live bits, and the symbols supply the
   * `size - |out|` missing bytes, the last one needed for them.
   */
  predicate Pending(size: nat, buffer: nat, live: seq<bool>, out: seq<byte>, bits: seq<bool>, k: nat)
  {
    && |live| < 8 && Low(buffer, |live|) == Value(live)
    && |out| <= size && |bits| == 5 * k
    && 8 * (size - |out|) <= |live| + 5 * k
    && (k > 0 ==> |live| + 5 * (k - 1) < 8 * (size - |out|))
  }

  /** What decoding promises from a pending state: the missing bytes, read off the bits. */
  predicate DecodesTo(size: nat, buffer: nat, live: seq<bool>, out: seq<byte>, bits: seq<bool>, k: nat, tail: seq<char>)
    requires Pending(size, buffer, live, out, bits, k)
  {
    DecodeFrom(size, buffer, |live|, out, Stream(true, Symbols(bits) + tail))
    == Decoded(true, out + BytesOf(live + bits, size - |out|), Stream(true, tail))
  }

  /** The state after a symbol that completes a byte is pending again. */
  lemma EmitPending(size: nat, buffer: nat, live: seq<bool>, out: seq<byte>, bits: seq<bool>, k: nat)
    requires Pending(size, buffer, live, out, bits, k) && k > 0 && |live| + 5 >= 8
    ensures Pending(size, Next(buffer, bits[..5]), (live + bits[..5])[8..], out + [FirstByte(live + bits[..5])], bits[5..], k - 1)
  {
    DecodeStepEmit(size, buffer, live, out, bits[..5], []);
  }

  /** The symbols for k > 0 groups start with the symbol for the first group. */
  lemma SymbolsFront(bits: seq<bool>, tail: seq<char>)
    requires |bits| >= 5
    ensures Symbols(bits) + tail == [SymbolOf(bits[..5])] + (Symbols(bits[5..]) + tail)
  {
  }

  /** The byte completed by the first group, then the bytes after it, are the bytes of all the bits. */
  lemma BytesOfEmit(out: seq<byte>, live: seq<bool>, bits: seq<bool>, n: nat)
    requires |live| + 5 >= 8 && |bits| >= 5 && n >= 1 && 8 * n <= |live| + |bits|
    ensures (out + [FirstByte(live + bits[..5])]) + BytesOf((live + bits[..5])[8..] + bits[5..], n - 1)
         == out + BytesOf(live + bits, n)
  {
    var grown := live + bits[..5];
    assert live + bits == grown + bits[5..];
    assert (grown + bits[5..])[8..] == grown[8..] + bits[5..];
    assert (grown + bits[5..])[..8] == grown[..8];
  }

  /** From the decoding of the remaining symbols to the decoding of all, after an emitting symbol. */
  lemma EmitGlue(size: nat, buffer: nat, live: seq<bool>, out: seq<byte>, bits: seq<bool>, k: nat, tail: seq<char>)
    requires Pending(size, buffer, live, out, bits, k) && k > 0 && |live| + 5 >= 8
    requires Pending(size, Next(buffer, bits[..5]), (live + bits[..5])[8..], out + [FirstByte(live + bits[..5])], bits[5..], k - 1)
    requires DecodesTo(size, Next(buffer, bits[..5]), (live + bits[..5])[8..], out + [FirstByte(live + bits[..5])], bits[5..], k - 1, tail)
    ensures DecodesTo(size, buffer, live, out, bits, k, tail)
  {
    SymbolsFront(bits, tail);
    DecodeStepEmit(size, buffer, live, out, bits[..5], Symbols(bits[5..]) + tail);
    BytesOfEmit(out, live, bits, size - |out|);
  }

  /** The state after a symbol that only fills the buffer is pending again. */
  lemma BufferPending(size: nat, buffer: nat, live: seq<bool>, out: seq<byte>, bits: seq<bool>, k: nat)
    requires Pending(size, buffer, live, out, bits, k) && k > 0 && |live| + 5 < 8
    ensures Pending(size, Next(buffer, bits[..5]), live + bits[..5], out, bits[5..], k - 1)
  {
    DecodeTakeSymbol(buffer, live, bits[..5]);
  }

  /** Moving the first group into the live bits leaves the bytes unchanged. */
  lemma BytesOfBuffer(live: seq<bool>, bits: seq<bool>, n: nat)
    requires |bits| >= 5 && 8 * n <= |live| + |bits|
    ensures BytesOf((live + bits[..5]) + bits[5..], n) == BytesOf(live + bits, n)
  {
    assert (live + bits[..5]) + bits[5..] == live + bits;
  }

  /** From the decoding of the remaining symbols to the decoding of all, after a buffered symbol. */
  lemma BufferGlue(size: nat, buffer: nat, live: seq<bool>, out: seq<byte>, bits: seq<bool>, k: nat, tail: seq<char>)
    requires Pending(size, buffer, live, out, bits, k) && k > 0 && |live| + 5 < 8
    requires Pending(size, Next(buffer, bits[..5]), live + bits[..5], out, bits[5..], k - 1)
    requires DecodesTo(size, Next(buffer, bits[..5]), live + bits[..5], out, bits[5..], k - 1, tail)
    ensures DecodesTo(size, buffer, live, out, bits, k, tail)
  {
    SymbolsFront(bits, tail);
    DecodeStepBuffer(size, buffer, live, out, bits[..5], Symbols(bits[5..]) + tail);
    BytesOfBuffer(live, bits, size - |out|);
  }

  /**
   * Decoding the symbols for `bits` from a pending state: the decoder emits
   * exactly the missing bytes, consumes every symbol and stops in front of
   * `tail`.
   */
  lemma {:induction false} DecodeSymbols(size: nat, buffer: nat, live: seq<bool>, out: seq<byte>, bits: seq<bool>, k: nat, tail: seq<char>)
    requires Pending(size, buffer, live, out, bits, k)
    ensures DecodesTo(size, buffer, live, out, bits, k, tail)
    decreases k
  {
    if k == 0 {
      assert Symbols(bits) + tail == tail;
      assert size - |out| == 0;
    } else if |live| + 5 >= 8 {
      var grown := live + bits[..5];
      EmitPending(size, buffer, live, out, bits, k);
      DecodeSymbols(size, Next(buffer, bits[..5]), grown[8..], out + [FirstByte(grown)], bits[5..], k - 1, tail);
      EmitGlue(size, buffer, live, out, bits, k, tail);
    } else {
      BufferPending(size, buffer, live, out, bits, k);
      DecodeSymbols(size, Next(buffer, bits[..5]), live + bits[..5], out, bits[5..], k - 1, tail);
      BufferGlue(size, buffer, live, out, bits, k, tail);
    }
  }

  /**
   * Round trip: decoding the encoding of any buffer with its length as the
   * expected size succeeds, reproduces the buffer, and stops right after the
   * encoded text.
   */
  lemma DecodeEncode(bytes: seq<byte>, tail: seq<char>)
    ensures Decode(|bytes|, Stream(true, Encode(bytes) + tail)) == Decoded(true, bytes, Stream(true, tail))
  {
    var bits := BytesBits(bytes);
    var k := (8 * |bytes| + 4) / 5;
    PadLengthFill(|bits|);
    DecodeSymbols(|bytes|, 0, [], [], Padded(bits), k, tail);
    assert [] + Padded(bits) == bits + Zeros(PadLength(|bits|));
    BytesOfBytesBits(bytes, Zeros(PadLength(|bits|)));
    assert [] + bytes == bytes;
  }

  // ----- the shape of the text --------------------------------------------

  /** Symbol i encodes bits 5i to 5i + 4. */
  lemma {:induction false} SymbolsAt(bits: seq<bool>, i: nat)
    requires 5 * i + 5 <= |bits|
    ensures i < |Symbols(bits)| && Symbols(bits)[i] == SymbolOf(bits[5 * i..5 * i + 5])
    decreases i
  {
    if i > 0 {
      SymbolsAt(bits[5..], i - 1);
      assert bits[5..][5 * (i - 1)..5 * (i - 1) + 5] == bits[5 * i..5 * i + 5];
    }
  }

  /** A bit string ending in n zeros has a value divisible by 2^n. */
  lemma ZeroTail(head: seq<bool>, n: nat)
    ensures Value(head + Zeros(n)) % Pow2(n) == 0
  {
    ValueAppend(head, Zeros(n));
    ZerosValue(n);
    DivModUnique(Value(head + Zeros(n)), Pow2(n), Value(head), 0);
  }

  /** The last group of five bits is encoded by the last symbol. */
  lemma {:induction false} SymbolsSnoc(front: seq<bool>, last: seq<bool>, k: nat)
    requires |front| == 5 * k && |last| == 5
    ensures Symbols(front + last) == Symbols(front) + [SymbolOf(last)]
    decreases k
  {
    if k == 0 {
      assert front + last == last + [];
      SymbolsAppend(last, []);
    } else {
      assert front + last == front[..5] + (front[5..] + last);
      SymbolsAppend(front[..5], front[5..] + last);
      SymbolsSnoc(front[5..], last, k - 1);
    }
  }

  /** The last group of padded bits ends in the padding's zeros. */
  lemma PaddedLast(bits: seq<bool>)
    requires |bits| > 0
    ensures |Padded(bits)| >= 5
    ensures var p := Padded(bits);
            var pad := PadLength(|bits|);
            p[|p| - 5..] == p[|p| - 5..][..5 - pad] + Zeros(pad)
  {
    var p := Padded(bits);
    var pad := PadLength(|bits|);
    PadLengthFill(|bits|);
    var last := p[|p| - 5..];
    forall i | 0 <= i < pad
      ensures last[5 - pad + i] == Zeros(pad)[i]
    {
      assert last[5 - pad + i] == p[|bits| + i];
    }
    assert last[5 - pad..] == Zeros(pad);
    assert last == last[..5 - pad] + last[5 - pad..];
  }

  /**
   * The last symbol of a non-empty encoding carries the padding: its low
   * PadLength(8n) bits are zero.
   */
  lemma EncodePadsWithZeros(bytes: seq<byte>)
    requires |bytes| > 0
    ensures var text := Encode(bytes);
            var pad := PadLength(8 * |bytes|);
            SymbolValue(text[|text| - 1]).Some?
            && SymbolValue(text[|text| - 1]).value % Pow2(pad) == 0
  {
    var p := Padded(BytesBits(bytes));
    var pad := PadLength(8 * |bytes|);
    PadLengthFill(8 * |bytes|);
    PaddedLast(BytesBits(bytes));
    var last := p[|p| - 5..];
    assert p == p[..|p| - 5] + last;
    SymbolsSnoc(p[..|p| - 5], last, (8 * |bytes| + 4) / 5 - 1);
    SymbolOfValue(last);
    ZeroTail(last[..5 - pad], pad);
  }
}
