/**
 The decoder of the chunked transfer coding in the command-line client (`decode_chunked` in
 panel/cli/src/client.rs), against section 7.1 of RFC 9112.
 */
module Chunked {
  import opened Wrappers

  /** A byte, as the character with its value; the results hold for larger characters too. */
  type byte = char

  type Bytes = seq<byte>

  const CR: byte := '\r'
  const LF: byte := '\n'
  const CRLF: Bytes := [CR, LF]

  /** `usize` on the 64-bit targets the client is built for. */
  const USIZE_RANGE: nat := 0x1_0000_0000_0000_0000

  /** A chunk end beyond `usize` stops the client with a panic, in debug and release builds alike. */
  datatype Decoded = Body(bytes: Bytes) | Panic

  // ---------------------------------------------------------------- the size line

  /** The UTF-8 encodings of the characters with the White_Space property. */
  predicate IsWhite(w: Bytes) {
    || (|w| == 1 && ('\U{09}' <= w[0] <= '\U{0D}' || w[0] == ' '))
    || (|w| == 2 && w[0] == '\U{C2}' && (w[1] == '\U{85}' || w[1] == '\U{A0}'))
    || (|w| == 3 && w[0] == '\U{E1}' && w[1] == '\U{9A}' && w[2] == '\U{80}')
    || (|w| == 3 && w[0] == '\U{E2}' && w[1] == '\U{80}'
        && ('\U{80}' <= w[2] <= '\U{8A}' || w[2] == '\U{A8}' || w[2] == '\U{A9}' || w[2] == '\U{AF}'))
    || (|w| == 3 && w[0] == '\U{E2}' && w[1] == '\U{81}' && w[2] == '\U{9F}')
    || (|w| == 3 && w[0] == '\U{E3}' && w[1] == '\U{80}' && w[2] == '\U{80}')
  }

  /** The length of the white character `s` starts with, or 0. */
  function WhiteAtStart(s: Bytes): (k: nat)
    ensures k <= |s| && (k > 0 ==> IsWhite(s[..k]))
  {
    if |s| >= 1 && IsWhite(s[..1]) then 1
    else if |s| >= 2 && IsWhite(s[..2]) then 2
    else if |s| >= 3 && IsWhite(s[..3]) then 3
    else 0
  }

  function WhiteAtEnd(s: Bytes): (k: nat)
    ensures k <= |s| && (k > 0 ==> IsWhite(s[|s| - k..]))
  {
    if |s| >= 1 && IsWhite(s[|s| - 1..]) then 1
    else if |s| >= 2 && IsWhite(s[|s| - 2..]) then 2
    else if |s| >= 3 && IsWhite(s[|s| - 3..]) then 3
    else 0
  }

  /** An ASCII character that takes room on paper: no byte of a white character. */
  predicate IsGraphic(b: byte) {
    ' ' < b < '\U{7F}'
  }

  lemma GraphicIsNotWhite(w: Bytes)
    requires w != [] && (IsGraphic(w[0]) || IsGraphic(w[|w| - 1]))
    ensures !IsWhite(w)
  {
  }

  lemma NothingToTrim(s: Bytes)
    requires s != [] && IsGraphic(s[0]) && IsGraphic(s[|s| - 1])
    ensures WhiteAtStart(s) == 0 && WhiteAtEnd(s) == 0
  {
    var k, l := WhiteAtStart(s), WhiteAtEnd(s);
    if k > 0 {
      GraphicIsNotWhite(s[..k]);
    }
    if l > 0 {
      GraphicIsNotWhite(s[|s| - l..]);
    }
  }

  function TrimStart(s: Bytes): Bytes {
    var k := WhiteAtStart(s);
    if k == 0 then s else TrimStart(s[k..])
  }

  function TrimEnd(s: Bytes): Bytes {
    var k := WhiteAtEnd(s);
    if k == 0 then s else TrimEnd(s[..|s| - k])
  }

  predicate IsHexDigit(b: byte) {
    '0' <= b <= '9' || 'A' <= b <= 'F' || 'a' <= b <= 'f'
  }

  function HexDigit(b: byte): (d: nat)
    requires IsHexDigit(b)
    ensures d < 16
  {
    if b <= '9' then b as nat - '0' as nat else if b <= 'F' then b as nat - 'A' as nat + 10
        else b as nat - 'a' as nat + 10
  }

  predicate IsHex(s: Bytes) {
    forall i | 0 <= i < |s| :: IsHexDigit(s[i])
  }

  function HexValue(s: Bytes): nat
    requires IsHex(s)
  {
    if s == [] then 0 else 16 * HexValue(s[..|s| - 1]) + HexDigit(s[|s| - 1])
  }

  /** `usize::from_str_radix(_, 16)`: a plus sign is allowed, an empty number or one too big is not. */
  function FromHex(s: Bytes): Option<nat> {
    var digits := if s != [] && s[0] == '+' then s[1..] else s;
    if digits != [] && IsHex(digits) && HexValue(digits) < USIZE_RANGE then Some(HexValue(digits)) else None
  }

  function ChunkSize(line: Bytes): Option<nat> {
    FromHex(TrimEnd(TrimStart(line)))
  }

  // ---------------------------------------------------------------- the decoder

  /** `windows(2).position(...)`: the first line end, or the length if there is none. */
  function LineEnd(s: Bytes): (i: nat)
    ensures i <= |s| && (i < |s| ==> i + 2 <= |s| && s[i] == CR && s[i + 1] == LF)
  {
    if |s| < 2 then |s|
    else if s[0] == CR && s[1] == LF then 0
    else LineEnd(s[1..]) + 1
  }

  function Min(a: nat, b: nat): nat {
    if a < b then a else b
  }

  /** What the size line at the start of `s` says, `pos` bytes into the input. */
  datatype Line = Stop | TooFar | Chunk(start: nat, end: nat)

  function ReadLine(s: Bytes, pos: nat): (l: Line)
    ensures l.Chunk? ==> 0 < l.start <= l.end <= |s|
  {
    var e := LineEnd(s);
    if e == |s| then Stop
    else Announced(ChunkSize(s[..e]), e + 2, |s|, pos)
  }

  function Announced(size: Option<nat>, start: nat, length: nat, pos: nat): (l: Line)
    requires 0 < start <= length
    ensures l.Chunk? ==> l.start == start && start <= l.end <= length
  {
    if size.None? || size.value == 0 then Stop
    else if pos + start + size.value >= USIZE_RANGE then TooFar
    else Chunk(start, Min(start + size.value, length))
  }

  /** Decoding of what is left after `pos` bytes. */
  function DecodeAt(s: Bytes, pos: nat): Decoded
    decreases |s|
  {
    match ReadLine(s, pos)
    case Stop => Body([])
    case TooFar => Panic
    case Chunk(start, end) =>
      if end + 2 >= |s| then Body(s[start..end]) else Prepend(s[start..end], DecodeAt(s[end + 2..], pos + end + 2))
  }

  function Prepend(a: Bytes, d: Decoded): Decoded {
    if d.Panic? then Panic else Body(a + d.bytes)
  }

  function Decode(data: Bytes): Decoded {
    DecodeAt(data, 0)
  }

  lemma PrependTwice(a: Bytes, b: Bytes, d: Decoded)
    ensures Prepend(a, Prepend(b, d)) == Prepend(a + b, d)
  {
    if d.Body? {
      assert a + (b + d.bytes) == a + b + d.bytes;
    }
  }

  lemma PrependNothing(a: Bytes, d: Decoded)
    ensures Prepend([], d) == d && Prepend(a, Body([])) == Body(a)
  {
    if d.Body? {
      assert [] + d.bytes == d.bytes;
    }
    assert a + [] == a;
  }

  /** The loop reads at `pos` what `ReadLine` reads at the start of the rest. */
  lemma RestOfInput(data: Bytes, pos: nat, e: nat)
    requires pos <= |data| && e == LineEnd(data[pos..])
    ensures pos + e < |data| ==>
              ReadLine(data[pos..], pos) == Announced(ChunkSize(data[pos..pos + e]), e + 2, |data| - pos, pos)
    ensures pos + e == |data| ==> ReadLine(data[pos..], pos) == Stop
  {
    if pos + e < |data| {
      assert data[pos..][..e] == data[pos..pos + e];
    }
  }

  lemma NextChunk(data: Bytes, pos: nat, result: Bytes, start: nat, end: nat)
    requires pos <= start <= end <= |data| && ReadLine(data[pos..], pos) == Chunk(start - pos, end - pos)
    ensures Prepend(result, DecodeAt(data[pos..], pos))
         == if end + 2 >= |data| then Body(result + data[start..end])
            else Prepend(result + data[start..end], DecodeAt(data[end + 2..], end + 2))
  {
    hide ReadLine;
    assert data[pos..][start - pos..end - pos] == data[start..end];
    if end + 2 < |data| {
      assert data[pos..][end - pos + 2..] == data[end + 2..];
      PrependTwice(result, data[start..end], DecodeAt(data[end + 2..], end + 2));
    }
  }

  lemma BeginsWhole(data: Bytes)
    ensures Decode(data) == Prepend([], DecodeAt(data[0..], 0))
  {
    assert data[0..] == data;
    PrependNothing([], Decode(data));
  }

  lemma LastLine(data: Bytes, pos: nat, result: Bytes)
    requires pos <= |data|
    ensures ReadLine(data[pos..], pos).Stop? ==> Prepend(result, DecodeAt(data[pos..], pos)) == Body(result)
    ensures ReadLine(data[pos..], pos).TooFar? ==> Prepend(result, DecodeAt(data[pos..], pos)) == Panic
  {
    PrependNothing(result, Panic);
  }

  method DecodeChunked(data: Bytes) returns (r: Decoded)
    ensures r == Decode(data)
  {
    hide ReadLine, LineEnd, ChunkSize, DecodeAt, Prepend, Decode;
    var result: Bytes, pos := [], 0;
    BeginsWhole(data);
    while true
      invariant pos <= |data|
      invariant Decode(data) == Prepend(result, DecodeAt(data[pos..], pos))
      decreases |data| - pos
    {
      var lineEnd := pos + LineEnd(data[pos..]);
      RestOfInput(data, pos, lineEnd - pos);
      LastLine(data, pos, result);
      if lineEnd == |data| {
        break;
      }
      var size := ChunkSize(data[pos..lineEnd]);
      if size.None? || size.value == 0 {
        break;
      }
      var chunkStart := lineEnd + 2;
      if chunkStart + size.value >= USIZE_RANGE {
        return Panic;
      }
      var chunkEnd := Min(chunkStart + size.value, |data|);
      NextChunk(data, pos, result, chunkStart, chunkEnd);
      result := result + data[chunkStart..chunkEnd];
      pos := chunkEnd + 2;
      if pos >= |data| {
        break;
      }
    }
    r := Body(result);
  }

  // ---------------------------------------------------------------- prefixes

  lemma {:induction false} LineEndOfPrefix(s: Bytes, k: nat)
    requires k <= |s|
    ensures LineEnd(s[..k]) == if LineEnd(s) + 2 <= k then LineEnd(s) else k
    decreases k
  {
    if k >= 2 && !(s[0] == CR && s[1] == LF) {
      assert s[..k][1..] == s[1..][..k - 1];
      LineEndOfPrefix(s[1..], k - 1);
    }
  }

  lemma ReadLineOfPrefix(s: Bytes, k: nat, pos: nat)
    requires k <= |s| && !ReadLine(s, pos).TooFar?
    ensures var l, p := ReadLine(s, pos), ReadLine(s[..k], pos);
            p == Stop || (l.Chunk? && l.start <= k && p == Chunk(l.start, Min(l.end, k)))
  {
    hide ChunkSize;
    var e := LineEnd(s);
    LineEndOfPrefix(s, k);
    if e + 2 <= k {
      assert s[..k][..e] == s[..e];
    }
  }

  lemma SlicesOfPrefix(s: Bytes, k: nat, start: nat, end: nat)
    requires start <= k <= |s| && start <= end <= |s|
    ensures s[..k][start..Min(end, k)] <= s[start..end]
    ensures end + 2 < k ==> s[..k][end + 2..] == s[end + 2..][..k - end - 2] && s[..k][start..end] == s[start..end]
  {
  }

  lemma PrependMonotone(a: Bytes, b: Bytes, x: Decoded, y: Decoded)
    requires x.Body? && y.Body? && x.bytes <= y.bytes
    ensures Prepend(a, x).bytes <= Prepend(a, y).bytes
    ensures b <= a ==> b <= Prepend(a, y).bytes
  {
  }

  /** Decoding less of the input never gives anything but less of the output. */
  lemma {:induction false} PrefixMonotoneAt(s: Bytes, k: nat, pos: nat)
    requires k <= |s| && DecodeAt(s, pos).Body?
    ensures DecodeAt(s[..k], pos).Body? && DecodeAt(s[..k], pos).bytes <= DecodeAt(s, pos).bytes
    decreases |s|
  {
    hide ReadLine;
    ReadLineOfPrefix(s, k, pos);
    var l, p := ReadLine(s, pos), ReadLine(s[..k], pos);
    if p.Chunk? {
      SlicesOfPrefix(s, k, l.start, l.end);
      if l.end + 2 < k {
        PrefixMonotoneAt(s[l.end + 2..], k - l.end - 2, pos + l.end + 2);
        PrependMonotone(s[l.start..l.end], [], DecodeAt(s[..k][l.end + 2..], pos + l.end + 2),
                        DecodeAt(s[l.end + 2..], pos + l.end + 2));
      } else if l.end + 2 < |s| {
        PrependMonotone(s[l.start..l.end], s[..k][l.start..p.end], Body([]), DecodeAt(s[l.end + 2..], pos + l.end + 2));
      }
    }
  }

  lemma PrefixMonotone(data: Bytes, k: nat)
    requires k <= |data| && Decode(data).Body?
    ensures Decode(data[..k]).Body? && Decode(data[..k]).bytes <= Decode(data).bytes
  {
    PrefixMonotoneAt(data, k, 0);
  }

  // ---------------------------------------------------------------- round trip

  /** One chunk without extension: the digits of its size, in any case and with any leading zeros, and its data. */
  datatype ChunkText = ChunkText(digits: Bytes, data: Bytes)

  ghost predicate WellSized(c: ChunkText) {
    c.digits != [] && c.data != [] && Writes(c.digits, |c.data|)
  }

  /** A number as it is written to base 16: the last digit is for the remainder, what is before it for the quotient. */
  ghost predicate Writes(digits: Bytes, n: nat) {
    if digits == [] then n == 0
    else
      var last := digits[|digits| - 1];
      && (last == "0123456789abcdef"[n % 16] || last == "0123456789ABCDEF"[n % 16])
      && Writes(digits[..|digits| - 1], n / 16)
  }

  /** The decoder's number is the one that was written, whatever the digits. */
  lemma {:induction false} WrittenExactly(digits: Bytes, n: nat)
    ensures Writes(digits, n) <==> IsHex(digits) && HexValue(digits) == n
  {
    if digits != [] {
      var init, last := digits[..|digits| - 1], digits[|digits| - 1];
      WrittenExactly(init, n / 16);
      assert IsHex(digits) <==> IsHex(init) && IsHexDigit(last) by {
        assert digits == init + [last];
      }
      DigitWritten(last, n % 16);
      if IsHex(digits) {
        assert HexValue(digits) == n <==> HexValue(init) == n / 16 && HexDigit(last) == n % 16;
      }
    }
  }

  lemma DigitWritten(d: byte, k: nat)
    requires k < 16
    ensures d == "0123456789abcdef"[k] || d == "0123456789ABCDEF"[k] <==> IsHexDigit(d) && HexDigit(d) == k
  {
  }

  ghost predicate Zeros(digits: Bytes) {
    digits != [] && forall i | 0 <= i < |digits| :: digits[i] == '0'
  }

  lemma {:induction false} ZerosAreZero(digits: Bytes)
    requires Zeros(digits)
    ensures IsHex(digits) && HexValue(digits) == 0
  {
    if |digits| > 1 {
      ZerosAreZero(digits[..|digits| - 1]);
    }
  }

  function EncodeChunk(c: ChunkText): Bytes {
    c.digits + CRLF + c.data + CRLF
  }

  function Encode(chunks: seq<ChunkText>): Bytes {
    if chunks == [] then [] else EncodeChunk(chunks[0]) + Encode(chunks[1..])
  }

  function Payload(chunks: seq<ChunkText>): Bytes {
    if chunks == [] then [] else chunks[0].data + Payload(chunks[1..])
  }

  lemma ChunkSizeOfDigits(s: Bytes)
    requires IsHex(s) && s != []
    ensures ChunkSize(s) == if HexValue(s) < 0x1_0000_0000_0000_0000 then Some(HexValue(s)) else None
  {
    assert IsHexDigit(s[0]) && IsHexDigit(s[|s| - 1]);
    NothingToTrim(s);
  }

  lemma {:induction false} LineEndAfterDigits(digits: Bytes, rest: Bytes)
    requires IsHex(digits)
    ensures LineEnd(digits + CRLF + rest) == |digits|
  {
    var s := digits + CRLF + rest;
    if digits != [] {
      assert s[0] == digits[0] && s[0] != CR;
      assert s[1..] == digits[1..] + CRLF + rest;
      LineEndAfterDigits(digits[1..], rest);
    }
  }

  /** A size line of digits, followed by anything. */
  lemma ReadDigits(digits: Bytes, rest: Bytes, pos: nat)
    requires IsHex(digits) && digits != [] && HexValue(digits) < USIZE_RANGE
    ensures var s := digits + CRLF + rest;
            ReadLine(s, pos) == Announced(Some(HexValue(digits)), |digits| + 2, |s|, pos)
  {
    var s := digits + CRLF + rest;
    LineEndAfterDigits(digits, rest);
    ChunkSizeOfDigits(digits);
    assert s[..|digits|] == digits;
  }

  lemma ChunkLayout(c: ChunkText, rest: Bytes)
    ensures var s, start, end := EncodeChunk(c) + rest, |c.digits| + 2, |c.digits| + 2 + |c.data|;
            && |EncodeChunk(c)| == end + 2 && |s| == end + 2 + |rest|
            && s == c.digits + CRLF + (c.data + CRLF + rest)
            && s[start..end] == c.data && s[end + 2..] == rest
  {
  }

  lemma DecodeOneChunk(c: ChunkText, rest: Bytes, pos: nat)
    requires WellSized(c) && rest != [] && pos + |EncodeChunk(c)| < USIZE_RANGE
    ensures DecodeAt(EncodeChunk(c) + rest, pos) == Prepend(c.data, DecodeAt(rest, pos + |EncodeChunk(c)|))
  {
    hide ReadLine, HexValue, IsHex, EncodeChunk;
    ChunkLayout(c, rest);
    WrittenExactly(c.digits, |c.data|);
    ReadDigits(c.digits, c.data + CRLF + rest, pos);
  }

  lemma DecodeLastChunk(zeros: Bytes, rest: Bytes, pos: nat)
    requires Zeros(zeros)
    ensures DecodeAt(zeros + CRLF + rest, pos) == Body([])
  {
    ZerosAreZero(zeros);
    ReadDigits(zeros, rest, pos);
  }

  lemma {:induction false} RoundTripAt(chunks: seq<ChunkText>, zeros: Bytes, rest: Bytes, pos: nat)
    requires forall i | 0 <= i < |chunks| :: WellSized(chunks[i])
    requires Zeros(zeros)
    requires pos + |Encode(chunks)| < USIZE_RANGE
    ensures DecodeAt(Encode(chunks) + (zeros + CRLF + rest), pos) == Body(Payload(chunks))
    decreases |chunks|
  {
    hide ReadLine;
    var end := zeros + CRLF + rest;
    if chunks == [] {
      assert Encode(chunks) + end == end;
      DecodeLastChunk(zeros, rest, pos);
    } else {
      var c := chunks[0];
      assert WellSized(c);
      assert Encode(chunks) + end == EncodeChunk(c) + (Encode(chunks[1..]) + end);
      DecodeOneChunk(c, Encode(chunks[1..]) + end, pos);
      RoundTripAt(chunks[1..], zeros, rest, pos + |EncodeChunk(c)|);
    }
  }

  /**
   Any list of non-empty chunks without extensions, then a last-chunk and whatever follows
   it (trailers, the next message), is decoded to the data of the chunks. No machine holds
   an input as long as `usize` is wide.
   */
  lemma RoundTrip(chunks: seq<ChunkText>, zeros: Bytes, rest: Bytes)
    requires forall i | 0 <= i < |chunks| :: WellSized(chunks[i])
    requires Zeros(zeros)
    requires |Encode(chunks)| < USIZE_RANGE
    ensures Decode(Encode(chunks) + (zeros + CRLF + rest)) == Body(Payload(chunks))
  {
    RoundTripAt(chunks, zeros, rest, 0);
  }

  // ---------------------------------------------------------------- outside the condition

  /**
   When the announced chunk reaches the end of the input, the client panics exactly if its
   end lies beyond `usize`.
   */
  lemma PanicExactly(size: nat, digits: Bytes, rest: Bytes, pos: nat)
    requires 0 < size < USIZE_RANGE && Writes(digits, size)
    requires |rest| <= size + 2
    ensures DecodeAt(digits + CRLF + rest, pos).Panic? <==> pos + |digits| + 2 + size >= 0x1_0000_0000_0000_0000
  {
    WrittenExactly(digits, size);
    ReadDigits(digits, rest, pos);
  }

  /**
   Spaces and tabs around the size, which section 7.1 of RFC 9112 does not provide for, and
   a plus sign in front of it change nothing.
   */
  lemma PaddingIgnored(before: Bytes, plus: bool, digits: Bytes, after: Bytes)
    requires Padding(before) && Padding(after) && digits != [] && IsHex(digits)
    ensures ChunkSize(before + (if plus then "+" else "") + digits + after) == ChunkSize(digits)
  {
    hide *;
    var size := (if plus then "+" else "") + digits;
    var line := before + (if plus then "+" else "") + digits + after;
    assert line == before + size + after && digits == [] + digits + [];
    SignedSize(plus, digits);
    NoPadding();
    PaddedSize(before, size, after);
    PaddedSize([], digits, []);
    ChunkSizeOf(line);
    ChunkSizeOf(digits);
  }

  lemma NoPadding()
    ensures Padding([])
  {
  }

  lemma ChunkSizeOf(line: Bytes)
    ensures ChunkSize(line) == FromHex(TrimEnd(TrimStart(line)))
  {
  }

  lemma SignedSize(plus: bool, digits: Bytes)
    requires digits != [] && IsHex(digits)
    ensures var size := (if plus then "+" else "") + digits;
            && size != [] && IsGraphic(size[0]) && IsGraphic(size[|size| - 1])
            && FromHex(size) == FromHex(digits)
    ensures IsGraphic(digits[0]) && IsGraphic(digits[|digits| - 1])
  {
    hide HexValue;
    var size := (if plus then "+" else "") + digits;
    assert IsHexDigit(digits[0]) && IsHexDigit(digits[|digits| - 1]);
    assert if plus then size[0] == '+' && size[1..] == digits else size == digits;
  }

  lemma PaddedSize(before: Bytes, size: Bytes, after: Bytes)
    requires Padding(before) && Padding(after)
    requires size != [] && IsGraphic(size[0]) && IsGraphic(size[|size| - 1])
    ensures TrimEnd(TrimStart(before + size + after)) == size
  {
    hide TrimStart, TrimEnd;
    assert before + size + after == before + (size + after);
    PaddedStart(before, size + after);
    PaddedEnd(size, after);
  }

  ghost predicate Padding(s: Bytes) {
    forall i | 0 <= i < |s| :: s[i] == ' ' || s[i] == '\t'
  }

  lemma PadIsWhite(b: byte)
    requires b == ' ' || b == '\t'
    ensures IsWhite([b])
  {
  }

  lemma {:induction false} PaddedStart(before: Bytes, s: Bytes)
    requires Padding(before) && s != [] && IsGraphic(s[0])
    ensures TrimStart(before + s) == s
    decreases |before|
  {
    hide IsWhite;
    if before == [] {
      assert before + s == s;
      var k := WhiteAtStart(s);
      if k > 0 {
        GraphicIsNotWhite(s[..k]);
      }
    } else {
      assert (before + s)[..1] == [before[0]] && (before + s)[1..] == before[1..] + s;
      PadIsWhite(before[0]);
      PaddedStart(before[1..], s);
    }
  }

  lemma {:induction false} PaddedEnd(s: Bytes, after: Bytes)
    requires Padding(after) && s != [] && IsGraphic(s[|s| - 1])
    ensures TrimEnd(s + after) == s
    decreases |after|
  {
    hide IsWhite;
    if after == [] {
      assert s + after == s;
      var k := WhiteAtEnd(s);
      if k > 0 {
        GraphicIsNotWhite(s[|s| - k..]);
      }
    } else {
      var n := |after| - 1;
      assert (s + after)[|s| + n..] == [after[n]] && (s + after)[..|s| + n] == s + after[..n];
      PadIsWhite(after[n]);
      PaddedEnd(s, after[..n]);
    }
  }

  const SEMICOLON: byte := ';'

  lemma WhiteHasNoSemicolon(w: Bytes)
    requires IsWhite(w)
    ensures SEMICOLON !in w
  {
  }

  lemma {:induction false} TrimStartKeeps(s: Bytes)
    requires SEMICOLON in s
    ensures SEMICOLON in TrimStart(s)
    decreases |s|
  {
    hide IsWhite, WhiteAtStart;
    var k := WhiteAtStart(s);
    if k > 0 {
      assert s == s[..k] + s[k..];
      WhiteHasNoSemicolon(s[..k]);
      TrimStartKeeps(s[k..]);
    }
  }

  lemma {:induction false} TrimEndKeeps(s: Bytes)
    requires SEMICOLON in s
    ensures SEMICOLON in TrimEnd(s)
    decreases |s|
  {
    hide IsWhite, WhiteAtEnd;
    var k := WhiteAtEnd(s);
    if k > 0 {
      assert s == s[..|s| - k] + s[|s| - k..];
      WhiteHasNoSemicolon(s[|s| - k..]);
      TrimEndKeeps(s[..|s| - k]);
    }
  }

  lemma NoHexWithSemicolon(s: Bytes)
    requires SEMICOLON in s
    ensures FromHex(s).None?
  {
    var i :| 0 <= i < |s| && s[i] == SEMICOLON;
    if s[0] == '+' {
      assert s[1..][i - 1] == SEMICOLON;
    }
  }

  /**
   A chunk extension, which section 7.1.1 of RFC 9112 asks a recipient to ignore, stops the
   decoder: the chunk and everything after it are dropped.
   */
  lemma ExtensionStops(s: Bytes, pos: nat)
    requires SEMICOLON in s[..LineEnd(s)]
    ensures DecodeAt(s, pos) == Body([])
  {
    var line := s[..LineEnd(s)];
    TrimStartKeeps(line);
    TrimEndKeeps(TrimStart(line));
    NoHexWithSemicolon(TrimEnd(TrimStart(line)));
  }
}
