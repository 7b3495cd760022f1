/** The escape validator of the lexer (`lex::unescape`): it walks the
    contents of a character or string literal and reports, for each
    character or escape, the byte range it occupies and the character it
    denotes or the error it contains.

    The `Chars` iterator the Rust code threads through these routines is a
    string here: each routine returns what it denotes together with the
    characters it left unread. Two paths of the Rust code panic (the body
    of a `\u{...}` escape is `todo!()`, and a backslash before a newline
    slices out of bounds); they are the `Panicked` outcome. */
module LexUnescape {
  import opened Std

  datatype Mode = Char | Str

  datatype EscapeError =
    | ZeroChars
    | EscapeOnlyChar
    | RawCarrigeReturn
    | MoreThanOneChar
    | LonlyBackSlash
    | TooShortHexEscape
    | InvalidCharInHexEscape
    | InvalidEscape
    | NoBraceInUnicodeEscape
    | NonAsciiCharInByte
    | MultipleSkippedLinesWarning

  /** What a routine denotes and the index where it left the iterator, or
      a panic. */
  datatype Scanned = Scanned(res: Result<char, EscapeError>, next: nat) | Panicked

  /** A half-open range of byte offsets into the literal's contents. */
  datatype ByteRange = ByteRange(start: nat, end: nat)

  /** One invocation of the callback. */
  datatype Callback = Callback(range: ByteRange, res: Result<char, EscapeError>)

  /** The callbacks made, in order, and whether the walk ended in a panic. */
  datatype Report = Report(calls: seq<Callback>, panicked: bool)

  /** The byte offset of character index `i` of `s`. */
  function BytesBefore(s: string, i: nat): (n: nat)
    requires i <= |s|
    ensures n >= i
  {
    if i == 0 then 0 else BytesBefore(s, i - 1) + LenUtf8(s[i - 1])
  }

  /** The bytes before index `i` and the bytes from it make up the string. */
  lemma {:induction false} BytesBeforeSplit(s: string, i: nat)
    requires i <= |s|
    ensures BytesBefore(s, i) + Utf8Len(s[i..]) == Utf8Len(s)
    decreases i
  {
    if i > 0 {
      BytesBeforeSplit(s, i - 1);
      assert s[i - 1..][1..] == s[i..];
    }
  }

  /** `ascii_check`. */
  function AsciiCheck(c: char, allowUnicode: bool): (r: Result<char, EscapeError>)
    ensures r.Ok? ==> r.value == c
    ensures r.Err? <==> !allowUnicode && !IsAscii(c)
    ensures r.Err? ==> r.error == NonAsciiCharInByte
  {
    if allowUnicode || IsAscii(c) then Ok(c) else Err(NonAsciiCharInByte)
  }

  /** The one-letter escapes of `scan_escape` and the characters they denote. */
  function SimpleEscape(c: char): Option<char> {
    match c
    case '"' => Some('"')
    case 'n' => Some('\n')
    case 'r' => Some('\r')
    case 't' => Some('\t')
    case '\\' => Some('\\')
    case '\'' => Some('\'')
    case '0' => Some('\0')
    case _ => None
  }

  /** The character of byte value `16 * hi + lo`, as `T::from(u8)` makes it. */
  function ByteChar(hi: nat, lo: nat): (c: char)
    requires hi < 16 && lo < 16
    ensures c as int == 16 * hi + lo
  {
    (16 * hi + lo) as char
  }

  /** `scan_unicode`: the iterator stands at `i`, after the `u`. */
  function ScanUnicode(s: string, i: nat, allowUnicode: bool): (r: Scanned)
    requires i <= |s|
    ensures r.Scanned? ==> i <= r.next <= |s|
  {
    if i == |s| then Scanned(Err(NoBraceInUnicodeEscape), i)
    else if s[i] != '{' then Scanned(Err(NoBraceInUnicodeEscape), i + 1)
    else Panicked
  }

  /** `scan_escape`: the iterator stands at `i`, after the backslash. */
  function ScanEscape(s: string, i: nat): (r: Scanned)
    requires i <= |s|
    ensures r.Scanned? ==> i <= r.next <= |s|
  {
    if i == |s| then Scanned(Err(LonlyBackSlash), i)
    else if SimpleEscape(s[i]).Some? then Scanned(Ok(SimpleEscape(s[i]).value), i + 1)
    else if s[i] == 'x' then
      if i + 1 == |s| then Scanned(Err(TooShortHexEscape), i + 1)
      else if ToDigit(s[i + 1], 16).None? then Scanned(Err(InvalidCharInHexEscape), i + 2)
      else if i + 2 == |s| then Scanned(Err(TooShortHexEscape), i + 2)
      else if ToDigit(s[i + 2], 16).None? then Scanned(Err(InvalidCharInHexEscape), i + 3)
      else Scanned(Ok(ByteChar(ToDigit(s[i + 1], 16).value, ToDigit(s[i + 2], 16).value)), i + 3)
    else if s[i] == 'u' then ScanUnicode(s, i + 1, true)
    else Scanned(Err(InvalidEscape), i + 1)
  }

  /** `unescape_char`: the one character or escape of a character literal,
      read from the start of `s`. */
  function UnescapeChar(s: string): (r: Scanned)
    ensures r.Scanned? ==> r.next <= |s|
  {
    if s == [] then Scanned(Err(ZeroChars), 0)
    else
      var c := s[0];
      var first :=
        if c == '\\' then ScanEscape(s, 1)
        else if c == '\n' || c == '\t' || c == '\'' then Scanned(Err(EscapeOnlyChar), 1)
        else if c == '\r' then Scanned(Err(RawCarrigeReturn), 1)
        else Scanned(AsciiCheck(c, true), 1);
      if first.Panicked? || first.res.Err? then first
      else if first.next < |s| then Scanned(Err(MoreThanOneChar), first.next + 1)
      else first
  }

  /** What the loop of `unescape_str` reads for the unit starting at index `i`. */
  function StrUnit(s: string, i: nat): (r: Scanned)
    requires i < |s|
    ensures r.Scanned? ==> i < r.next <= |s|
  {
    var c := s[i];
    if c == '\\' then
      if i + 1 < |s| && s[i + 1] == '\n' then Panicked else ScanEscape(s, i + 1)
    else if c == '"' then Scanned(Err(EscapeOnlyChar), i + 1)
    else if c == '\r' then Scanned(Err(RawCarrigeReturn), i + 1)
    else Scanned(AsciiCheck(c, true), i + 1)
  }

  /** The callbacks of `unescape_str` from character index `i` of `s` on:
      each unit's range runs from the byte offset where it starts to the one
      where the next unit starts. */
  function StrSpec(s: string, i: nat): Report
    requires i <= |s|
    decreases |s| - i
  {
    if i == |s| then Report([], false)
    else
      match StrUnit(s, i)
      case Panicked => Report([], true)
      case Scanned(res, j) =>
        var tail := StrSpec(s, j);
        Report([Callback(ByteRange(BytesBefore(s, i), BytesBefore(s, j)), res)] + tail.calls, tail.panicked)
  }

  /** The byte offset of index `i` is the length less the bytes from `i`. */
  lemma ByteOffset(s: string, i: nat)
    requires i <= |s|
    ensures BytesBefore(s, i) == Utf8Len(s) - Utf8Len(s[i..])
  {
    BytesBeforeSplit(s, i);
  }

  /** One unit read by the loop of `unescape_str` moves its callback from
      the rest of the walk to the callbacks made. */
  lemma StrStep(s: string, i: nat, j: nat, res: Result<char, EscapeError>, calls: seq<Callback>)
    requires i < |s| && StrUnit(s, i) == Scanned(res, j)
    ensures var call := Callback(ByteRange(BytesBefore(s, i), BytesBefore(s, j)), res);
      Report(calls + StrSpec(s, i).calls, StrSpec(s, i).panicked)
      == Report((calls + [call]) + StrSpec(s, j).calls, StrSpec(s, j).panicked)
  {
    var call := Callback(ByteRange(BytesBefore(s, i), BytesBefore(s, j)), res);
    assert calls + ([call] + StrSpec(s, j).calls) == (calls + [call]) + StrSpec(s, j).calls;
  }

  /** A unit that panics ends the walk with the callbacks made so far. */
  lemma StrStepPanics(s: string, i: nat, calls: seq<Callback>)
    requires i < |s| && StrUnit(s, i).Panicked?
    ensures Report(calls + StrSpec(s, i).calls, StrSpec(s, i).panicked) == Report(calls, true)
  {
    assert calls + [] == calls;
  }

  /** `unescape_str`, in the Rust code's form: it computes each range from
      the bytes still unread, as `s.len() - chars.as_str().len()`. */
  method UnescapeStr(s: string) returns (report: Report)
    ensures report == StrSpec(s, 0)
  {
    var i := 0;
    var calls: seq<Callback> := [];
    while i < |s|
      invariant i <= |s|
      invariant StrSpec(s, 0) == Report(calls + StrSpec(s, i).calls, StrSpec(s, i).panicked)
      decreases |s| - i
    {
      ghost var i0 := i;
      var c := s[i];
      i := i + 1;
      ByteOffset(s, i);
      var start := Utf8Len(s) - Utf8Len(s[i..]) - LenUtf8(c);
      assert start == BytesBefore(s, i0);
      var res: Result<char, EscapeError>;
      if c == '\\' {
        if i < |s| && s[i] == '\n' {
          // `skip_ascii_whitespace` slices `tail[1..0]` and panics.
          StrStepPanics(s, i0, calls);
          return Report(calls, true);
        }
        var e := ScanEscape(s, i);
        if e.Panicked? {
          StrStepPanics(s, i0, calls);
          return Report(calls, true);
        }
        res, i := e.res, e.next;
      } else if c == '"' {
        res := Err(EscapeOnlyChar);
      } else if c == '\r' {
        res := Err(RawCarrigeReturn);
      } else {
        res := AsciiCheck(c, true);
      }
      assert StrUnit(s, i0) == Scanned(res, i);
      ByteOffset(s, i);
      var end := Utf8Len(s) - Utf8Len(s[i..]);
      assert ByteRange(start, end) == ByteRange(BytesBefore(s, i0), BytesBefore(s, i));
      StrStep(s, i0, i, res, calls);
      calls := calls + [Callback(ByteRange(start, end), res)];
    }
    assert calls + StrSpec(s, i).calls == calls;
    report := Report(calls, false);
  }

  /** `unescape_unicode`: in `Char` mode one callback for the whole literal,
      starting at 0; in `Str` mode the callbacks of `unescape_str`. */
  method UnescapeUnicode(s: string, mode: Mode) returns (report: Report)
    ensures mode == Str ==> report == StrSpec(s, 0)
    ensures mode == Char ==> report == CharSpec(s)
  {
    match mode
    case Char =>
      var r := UnescapeChar(s);
      if r.Panicked? {
        return Report([], true);
      }
      BytesBeforeSplit(s, r.next);
      report := Report([Callback(ByteRange(0, Utf8Len(s) - Utf8Len(s[r.next..])), r.res)], false);
    case Str =>
      report := UnescapeStr(s);
  }

  /** The callback of `Char` mode: its range is the bytes `unescape_char` read. */
  function CharSpec(s: string): Report {
    match UnescapeChar(s)
    case Panicked => Report([], true)
    case Scanned(res, j) => Report([Callback(ByteRange(0, BytesBefore(s, j)), res)], false)
  }

  // What the validator promises, proved once for all inputs.

  /** In `Char` mode the callback comes once, with a range from 0 over the
      bytes read, unless the literal starts with a `\u{` escape. */
  lemma CharModeOneCallback(s: string)
    ensures var r := CharSpec(s);
      (r.panicked <==> |s| >= 3 && s[0] == '\\' && s[1] == 'u' && s[2] == '{')
      && (!r.panicked ==> |r.calls| == 1 && r.calls[0].range.start == 0
                          && r.calls[0].range.end <= Utf8Len(s))
  {
    var r := UnescapeChar(s);
    if r.Scanned? {
      BytesBeforeSplit(s, r.next);
    }
  }

  /** The results of `Char` mode for a literal that is not an escape. */
  lemma CharModeResults(s: string)
    ensures s == [] ==> UnescapeChar(s) == Scanned(Err(ZeroChars), 0)
    ensures s != [] && (s[0] == '\n' || s[0] == '\t' || s[0] == '\'') ==>
      UnescapeChar(s) == Scanned(Err(EscapeOnlyChar), 1)
    ensures s != [] && s[0] == '\r' ==> UnescapeChar(s) == Scanned(Err(RawCarrigeReturn), 1)
    ensures |s| == 1 && s[0] != '\\' && s[0] != '\n' && s[0] != '\t' && s[0] != '\'' && s[0] != '\r' ==>
      UnescapeChar(s) == Scanned(Ok(s[0]), 1)
    ensures |s| >= 2 && s[0] != '\\' && s[0] != '\n' && s[0] != '\t' && s[0] != '\'' && s[0] != '\r' ==>
      UnescapeChar(s) == Scanned(Err(MoreThanOneChar), 2)
  {
  }

  /** The results of `Char` mode for a literal that starts with a backslash:
      the escape's own failure, or its character when the escape is the
      whole literal, or `MoreThanOneChar` counted up to the character after
      the escape when anything follows it. */
  lemma EscapeCharResults(s: string)
    requires s != [] && s[0] == '\\'
    ensures ScanEscape(s, 1).Panicked? ==> UnescapeChar(s) == Panicked
    ensures ScanEscape(s, 1).Scanned? && ScanEscape(s, 1).res.Err? ==> UnescapeChar(s) == ScanEscape(s, 1)
    ensures ScanEscape(s, 1).Scanned? && ScanEscape(s, 1).res.Ok? && ScanEscape(s, 1).next == |s| ==>
      UnescapeChar(s) == ScanEscape(s, 1)
    ensures ScanEscape(s, 1).Scanned? && ScanEscape(s, 1).res.Ok? && ScanEscape(s, 1).next < |s| ==>
      UnescapeChar(s) == Scanned(Err(MoreThanOneChar), ScanEscape(s, 1).next + 1)
  {
  }

  /** The one-letter escapes are exactly `"`, `n`, `r`, `t`, backslash, `'`
      and `0`; any other letter but `x` and `u` is an invalid escape, and a
      backslash at the end is a lonely one. */
  lemma SimpleEscapes(s: string, i: nat)
    requires i <= |s|
    ensures i == |s| ==> ScanEscape(s, i) == Scanned(Err(LonlyBackSlash), i)
    ensures i < |s| && SimpleEscape(s[i]).Some? ==> ScanEscape(s, i) == Scanned(Ok(SimpleEscape(s[i]).value), i + 1)
    ensures i < |s| && SimpleEscape(s[i]).None? && s[i] != 'x' && s[i] != 'u' ==>
      ScanEscape(s, i) == Scanned(Err(InvalidEscape), i + 1)
    ensures forall c :: SimpleEscape(c).Some? <==> c in "\"nrt\\'0"
    ensures SimpleEscape('n') == Some('\n') && SimpleEscape('r') == Some('\r') && SimpleEscape('t') == Some('\t')
    ensures SimpleEscape('0') == Some('\0') && SimpleEscape('"') == Some('"')
    ensures SimpleEscape('\\') == Some('\\') && SimpleEscape('\'') == Some('\'')
  {
  }

  /** `\x` takes two hex digits and denotes the byte `16 * hi + lo`; a
      missing digit is too short, a non-hex one invalid. */
  lemma HexEscape(s: string, i: nat)
    requires i < |s| && s[i] == 'x'
    ensures var r := ScanEscape(s, i);
      (i + 1 == |s| ==> r == Scanned(Err(TooShortHexEscape), i + 1))
      && (i + 1 < |s| && !IsAsciiHexDigit(s[i + 1]) ==> r == Scanned(Err(InvalidCharInHexEscape), i + 2))
      && (i + 1 < |s| && IsAsciiHexDigit(s[i + 1]) && i + 2 == |s| ==> r == Scanned(Err(TooShortHexEscape), i + 2))
      && (i + 2 < |s| && IsAsciiHexDigit(s[i + 1]) && !IsAsciiHexDigit(s[i + 2]) ==>
            r == Scanned(Err(InvalidCharInHexEscape), i + 3))
      && (i + 2 < |s| && IsAsciiHexDigit(s[i + 1]) && IsAsciiHexDigit(s[i + 2]) ==>
            r.Scanned? && r.next == i + 3 && r.res.Ok?
            && r.res.value as int == 16 * ToDigit(s[i + 1], 16).value + ToDigit(s[i + 2], 16).value
            && r.res.value as int < 256)
  {
  }

  /** `\u` not followed by `{` has no brace. */
  lemma UnicodeEscapeNeedsBrace(s: string, i: nat)
    requires i < |s| && s[i] == 'u'
    ensures i + 1 == |s| ==> ScanEscape(s, i) == Scanned(Err(NoBraceInUnicodeEscape), i + 1)
    ensures i + 1 < |s| && s[i + 1] != '{' ==> ScanEscape(s, i) == Scanned(Err(NoBraceInUnicodeEscape), i + 2)
    ensures i + 1 < |s| && s[i + 1] == '{' ==> ScanEscape(s, i) == Panicked
  {
  }

  /** Each callback's range starts where the previous one ended, and none is empty. */
  predicate Chained(calls: seq<Callback>, from: nat)
    decreases |calls|
  {
    calls == []
    || (calls[0].range.start == from && from < calls[0].range.end
        && Chained(calls[1..], calls[0].range.end))
  }

  /** Where the last of `calls` ends, or `from` when there is none. */
  function EndOf(calls: seq<Callback>, from: nat): nat {
    if calls == [] then from else calls[|calls| - 1].range.end
  }

  /** In `Str` mode the ranges follow each other from the first byte and, if
      the walk does not panic, cover the contents to their last byte. */
  lemma {:induction false} StrRangesTile(s: string, i: nat)
    requires i <= |s|
    ensures var r := StrSpec(s, i);
      Chained(r.calls, BytesBefore(s, i))
      && (!r.panicked ==> EndOf(r.calls, BytesBefore(s, i)) == Utf8Len(s))
    decreases |s| - i
  {
    if i == |s| {
      BytesBeforeSplit(s, i);
    } else if StrUnit(s, i).Scanned? {
      var j := StrUnit(s, i).next;
      StrRangesTile(s, j);
      BytesBeforeMonotone(s, i, j);
      var r := StrSpec(s, i);
      assert r.calls[1..] == StrSpec(s, j).calls;
    }
  }

  /** Byte offsets grow strictly with character indices. */
  lemma {:induction false} BytesBeforeMonotone(s: string, i: nat, j: nat)
    requires i < j <= |s|
    ensures BytesBefore(s, i) < BytesBefore(s, j)
    decreases j
  {
    if i < j - 1 {
      BytesBeforeMonotone(s, i, j - 1);
    }
  }

  /** What `Str` mode reports for a character that is not a backslash. */
  function PlainResult(c: char): Result<char, EscapeError> {
    if c == '"' then Err(EscapeOnlyChar)
    else if c == '\r' then Err(RawCarrigeReturn)
    else Ok(c)
  }

  /** Without backslashes, `Str` mode reports each character on its own, in
      order, with its own bytes: `"` is an escape-only character, a carriage
      return is raw, and every other character is itself. */
  lemma {:induction false} StrModePlain(s: string, i: nat)
    requires i <= |s|
    requires forall k :: i <= k < |s| ==> s[k] != '\\'
    ensures var r := StrSpec(s, i);
      !r.panicked && |r.calls| == |s| - i
      && forall k :: 0 <= k < |r.calls| ==>
           r.calls[k] == Callback(ByteRange(BytesBefore(s, i + k), BytesBefore(s, i + k + 1)), PlainResult(s[i + k]))
    decreases |s| - i
  {
    if i < |s| {
      StrModePlain(s, i + 1);
      var r, t := StrSpec(s, i), StrSpec(s, i + 1);
      assert r.calls == [Callback(ByteRange(BytesBefore(s, i), BytesBefore(s, i + 1)), PlainResult(s[i]))] + t.calls;
      forall k | 1 <= k < |r.calls|
        ensures r.calls[k] == Callback(ByteRange(BytesBefore(s, i + k), BytesBefore(s, i + k + 1)), PlainResult(s[i + k]))
      {
        assert r.calls[k] == t.calls[k - 1];
      }
    }
  }

  /** Whether a backslash at `k` starts one of the two escapes that panic. */
  predicate PanickingEscapeAt(s: string, k: nat) {
    k < |s| && s[k] == '\\'
    && ((k + 1 < |s| && s[k + 1] == '\n') || (k + 2 < |s| && s[k + 1] == 'u' && s[k + 2] == '{'))
  }

  /** `Str` mode does not panic on contents without a backslash-newline and
      without `\u{`. */
  lemma {:induction false} StrModeNoPanic(s: string, i: nat)
    requires i <= |s|
    requires forall k :: i <= k < |s| ==> !PanickingEscapeAt(s, k)
    ensures !StrSpec(s, i).panicked
    decreases |s| - i
  {
    if i < |s| {
      assert !PanickingEscapeAt(s, i);
      var u := StrUnit(s, i);
      assert u.Scanned?;
      StrModeNoPanic(s, u.next);
    }
  }
}
