/** The string reader of the parser (`parse::lex`): it drives the raw lexer
    over the source, skips whitespace and unknown characters, keeps the
    absolute byte position, and turns each raw token into a parser token with
    its span, its symbol and its checked literal kind.

    The reader is a class over a `Cursor`; `next_token` is proved against
    `ReadSpec`, which says, for the character index the cursor stands at,
    what the reader returns and where the cursor stops. A run of the
    program that stops (a `todo!()` of the raw lexer, a panic of the
    unescaper, a slice that is not on a character boundary, or the failed
    line lookup of the escape diagnostics) is the `Halted` outcome. */
module ParseLex {
  import opened Std
  import opened SourceIdx
  import opened LexCursor
  import LL = LexLiteral
  import LT = LexToken
  import LU = LexUnescape
  import AT = AstToken

  /** Why a run of the reader stops. */
  datatype Halt =
    | Unfinished(site: LT.TodoSite)
    | EscapePanic
    | SlicePanic
    | LineLookupPanic

  datatype Read<T> = Read(value: T) | Halted(halt: Halt)

  /** A token together with whether whitespace preceded it. */
  datatype Lexeme = Lexeme(token: AT.Token, spaced: bool)

  /** The raw lexer's answer for the characters it is given. */
  type RawLexer = string -> LT.Lexed<LT.Scan<LT.TokenKind>>

  /** What a reader is built from: the source text, the position of its first
      byte, the Unicode tables the lexer consults, and the raw lexer it
      drives. */
  datatype Input = Input(src: string, start: BytePos, u: LT.UnicodeData, lexer: RawLexer)

  /** The raw lexer `next_token` of the lexer crate on the tables `u`. */
  function Lexer(u: LT.UnicodeData): RawLexer {
    s => LT.NextTokenSpec(u, s)
  }

  /** The reader drives the raw lexer of `lex::token` with its tables. */
  ghost predicate Lexes(inp: Input) {
    forall s {:trigger LT.NextTokenSpec(inp.u, s)} :: inp.lexer(s) == LT.NextTokenSpec(inp.u, s)
  }

  /** Every position in the source fits a `BytePos`. */
  predicate Fits(inp: Input) {
    inp.start.value + Utf8Len(inp.src) < U32_LIMIT
  }

  /** The absolute position of the character at index `i` of the source. */
  function At(inp: Input, i: nat): (p: BytePos)
    requires Fits(inp) && i <= |inp.src|
    ensures p.value == inp.start.value + Utf8Len(inp.src[..i])
  {
    Utf8LenSplit(inp.src, i);
    BytePos(inp.start.value + Utf8Len(inp.src[..i]))
  }

  /** The bytes between two character indices are those of the characters
      between them. */
  lemma AtDistance(inp: Input, i: nat, j: nat)
    requires Fits(inp) && i <= j <= |inp.src|
    ensures At(inp, j).value == At(inp, i).value + Utf8Len(inp.src[i..j])
    ensures At(inp, j).value - At(inp, i).value >= j - i
  {
    Utf8LenPrefixes(inp.src, i, j);
  }

  /** `src_index`: a position made relative to the start of the source. */
  function SrcIndex(inp: Input, index: BytePos): (n: nat)
    requires inp.start.value <= index.value
    ensures n == index.value - inp.start.value
  {
    ToUsize(Sub(index, inp.start))
  }

  /** `str_from_to`: the source text between two positions; `None` where the
      slice panics. */
  function StrFromTo(inp: Input, start: BytePos, end: BytePos): (r: Option<string>)
    requires inp.start.value <= start.value && inp.start.value <= end.value
    ensures r.Some? ==> start.value <= end.value && Utf8Len(r.value) == end.value - start.value
  {
    ByteSlice(inp.src, SrcIndex(inp, start), SrcIndex(inp, end))
  }

  /** Between the positions of two character indices, `str_from_to` is the
      text of the characters between them. */
  lemma StrFromToChars(inp: Input, i: nat, j: nat)
    requires Fits(inp) && i <= j <= |inp.src|
    ensures StrFromTo(inp, At(inp, i), At(inp, j)) == Some(inp.src[i..j])
  {
    assert SrcIndex(inp, At(inp, i)) == Utf8Len(inp.src[..i]);
    assert SrcIndex(inp, At(inp, j)) == Utf8Len(inp.src[..j]);
    ByteSliceOfBoundaries(inp.src, i, j);
  }

  /** The raw kinds the reader maps one to one. */
  predicate Plain(k: LT.TokenKind) {
    !(k.Whitespace? || k.Unknown? || k.Ident? || k.Literal?)
  }

  /** The punctuation, delimiter, comment and end-of-file arms of
      `next_token`. */
  function MapKind(k: LT.TokenKind): AT.TokenKind
    requires Plain(k)
  {
    match k
    case LineComment => AT.Comment(AT.Line)
    case BlockComment => AT.Comment(AT.Block)
    case Semi => AT.Semi
    case Comma => AT.Comma
    case Dot => AT.Dot
    case OpenParen => AT.OpenDelim(AT.Parenthesis)
    case CloseParen => AT.CloseDelim(AT.Parenthesis)
    case OpenBrace => AT.OpenDelim(AT.Brace)
    case CloseBrace => AT.CloseDelim(AT.Brace)
    case OpenBracket => AT.OpenDelim(AT.Bracket)
    case CloseBracket => AT.CloseDelim(AT.Bracket)
    case At => AT.At
    case Hashtag => AT.Hashtag
    case Tilde => AT.Tilde
    case Question => AT.Question
    case Colon => AT.Colon
    case Dollar => AT.Dollar
    case Eq => AT.Eq
    case Bang => AT.Not
    case Lt => AT.Lt
    case Gt => AT.Gt
    case Minus => AT.BinOp(AT.Minus)
    case And => AT.BinOp(AT.And)
    case Or => AT.BinOp(AT.Or)
    case Plus => AT.BinOp(AT.Plus)
    case Star => AT.BinOp(AT.Star)
    case Slash => AT.BinOp(AT.Slash)
    case Peak => AT.BinOp(AT.Peak)
    case Percent => AT.BinOp(AT.Percent)
    case Eof => AT.Eof
  }

  /** `ident`: the identifier's text, normalised to NFC unless the quick
      check says it already is. */
  function IdentKind(inp: Input, start: BytePos, end: BytePos): (r: Read<AT.TokenKind>)
    requires inp.start.value <= start.value && inp.start.value <= end.value
    ensures r.Read? ==> r.value.Ident?
  {
    match StrFromTo(inp, start, end)
    case None => Halted(SlicePanic)
    case Some(text) =>
      Read(AT.Ident(if inp.u.nfcQuickYes(text) then GetOrStore(text) else GetOrStore(inp.u.nfc(text))))
  }

  /** Every character of `s` is `_` or a digit of `radix`. */
  predicate BasedDigits(s: string, radix: nat)
    requires 2 <= radix <= 36
  {
    forall k :: 0 <= k < |s| ==> s[k] == '_' || ToDigit(s[k], radix).Some?
  }

  /** Some report of the unescaper is an error. */
  predicate HasError(calls: seq<LU.Callback>) {
    exists k :: 0 <= k < |calls| && calls[k].res.Err?
  }

  /** What `unescape_unicode` reports on `s`. */
  function Unescaped(s: string, mode: LU.Mode): LU.Report {
    if mode == LU.Mode.Char then LU.CharSpec(s) else LU.StrSpec(s, 0)
  }

  /** `lexer_unicode`: the content between the delimiters is unescaped, only
      to report errors; the kind is returned as it came in, and the symbol
      is the content (the whole text for an error kind). The error callback
      looks up the line of `start` in the source and stops when `start` is
      not a character boundary of it. */
  function UnicodeSpec(inp: Input, kind: AT.LitKind, mode: LU.Mode, start: BytePos, end: BytePos,
                       prefixLen: u32, postfixLen: u32): (r: Read<(AT.LitKind, Symbol)>)
    requires inp.start.value <= start.value && start.value + prefixLen < U32_LIMIT
    requires inp.start.value + postfixLen <= end.value
  {
    var contentStart := Add(start, BytePos(prefixLen));
    var contentEnd := Sub(end, BytePos(postfixLen));
    match StrFromTo(inp, contentStart, contentEnd)
    case None => Halted(SlicePanic)
    case Some(content) =>
      var report := Unescaped(content, mode);
      if HasError(report.calls) && CharIndex(inp.src, ToUsize(start)).None? then Halted(LineLookupPanic)
      else if report.panicked then Halted(EscapePanic)
      else if kind == AT.LitKind.Err then
        (match StrFromTo(inp, start, end)
         case None => Halted(SlicePanic)
         case Some(text) => Read((kind, GetOrStore(text))))
      else Read((kind, GetOrStore(content)))
  }

  /** `lexer_literal`: characters and strings go through `lexer_unicode`; a
      `Binary` or `Octal` integer is an error when a character after its
      two-byte prefix is neither `_` nor a digit of its base; a float is an
      error unless decimal. Numbers keep their whole text as symbol. */
  function LiteralSpec(inp: Input, start: BytePos, end: BytePos, kind: LL.LiteralKind): (r: Read<(AT.LitKind, Symbol)>)
    requires inp.start.value <= start.value < end.value
    requires kind.Int? && LL.Prefixed(kind.base) ==> start.value + 2 <= end.value
  {
    match kind
    case Char => UnicodeSpec(inp, AT.LitKind.Char, LU.Mode.Char, start, end, 1, 1)
    case Str => UnicodeSpec(inp, AT.LitKind.Str, LU.Mode.Str, start, end, 1, 1)
    case Int(base) =>
      var checked: Read<AT.LitKind> :=
        if base == LL.Binary || base == LL.Octal then
          match StrFromTo(inp, Add(start, BytePos(2)), end)
          case None => Halted(SlicePanic)
          case Some(digits) => Read(if BasedDigits(digits, LL.Radix(base)) then AT.LitKind.Int else AT.LitKind.Err)
        else Read(AT.LitKind.Int);
      if checked.Halted? then Halted(checked.halt)
      else
        (match StrFromTo(inp, start, end)
         case None => Halted(SlicePanic)
         case Some(text) => Read((checked.value, GetOrStore(text))))
    case Float(base) =>
      var k := if base == LL.Decimal then AT.LitKind.Float else AT.LitKind.Err;
      match StrFromTo(inp, start, end)
      case None => Halted(SlicePanic)
      case Some(text) => Read((k, GetOrStore(text)))
  }

  /** The parser token kind of a raw token spanning `start..end`. */
  function Cook(inp: Input, start: BytePos, end: BytePos, kind: LT.TokenKind): (r: Read<AT.TokenKind>)
    requires inp.start.value <= start.value <= end.value
    requires !kind.Whitespace? && !kind.Unknown?
    requires kind.Literal? ==> start.value < end.value
    requires kind.Literal? && kind.kind.Int? && LL.Prefixed(kind.kind.base) ==> start.value + 2 <= end.value
    ensures r.Read? ==> (r.value == AT.Eof <==> kind == LT.Eof)
  {
    if kind.Ident? then IdentKind(inp, start, end)
    else if kind.Literal? then
      match LiteralSpec(inp, start, end, kind.kind)
      case Halted(h) => Halted(h)
      case Read(lit) => Read(AT.Literal(AT.Lit(lit.0, lit.1)))
    else Read(MapKind(kind))
  }

  /** The raw token at index `i` of the source. */
  function RawAt(inp: Input, i: nat): (r: LT.Lexed<LT.Scan<LT.TokenKind>>)
    requires Lexes(inp) && i <= |inp.src|
    ensures r.Done? ==> i + r.value.used <= |inp.src| && (r.value.kind != LT.Eof ==> 1 <= r.value.used)
    ensures r.Done? && r.value.kind == LT.Eof ==> i == |inp.src| && r.value.used == 0
    ensures r.Done? && r.value.kind.Literal? && r.value.kind.kind.Int? && LL.Prefixed(r.value.kind.kind.base) ==>
      2 <= r.value.used
  {
    LT.BasedLiteralPrefix(inp.u, inp.src[i..]);
    inp.lexer(inp.src[i..])
  }

  /** `RawAt` is the raw lexer's first token on the rest of the source. */
  lemma RawAtNextToken(inp: Input, i: nat)
    requires Lexes(inp) && i <= |inp.src|
    ensures RawAt(inp, i) == LT.NextTokenSpec(inp.u, inp.src[i..])
  {
  }

  /** Where the loop of `next_token` stops: on the raw token of kind `kind`
      over the characters `start..end`, with whether whitespace was skipped
      before it. */
  datatype Stop = Stop(start: nat, end: nat, kind: LT.TokenKind, spaced: bool)

  /** The loop of `next_token` from the cursor at character index `i`, with
      whitespace seen so far `ws`: whitespace and unknown raw tokens are
      skipped, and the loop stops at the first other raw token. */
  function SkipSpec(inp: Input, i: nat, ws: bool): (r: Read<Stop>)
    requires Lexes(inp) && i <= |inp.src|
    ensures r.Read? ==> i <= r.value.start <= r.value.end <= |inp.src|
    ensures r.Read? ==> !r.value.kind.Whitespace? && !r.value.kind.Unknown?
    ensures r.Read? && r.value.kind != LT.Eof ==> r.value.start < r.value.end
    ensures r.Read? && r.value.kind == LT.Eof ==> r.value.start == r.value.end == |inp.src|
    ensures r.Read? && r.value.kind.Literal? && r.value.kind.kind.Int? && LL.Prefixed(r.value.kind.kind.base) ==>
      r.value.start + 2 <= r.value.end
    decreases |inp.src| - i
  {
    match RawAt(inp, i)
    case Todo(site) => Halted(Unfinished(site))
    case Done(sc) =>
      if sc.kind == LT.Whitespace then SkipSpec(inp, i + sc.used, true)
      else if sc.kind == LT.Unknown then SkipSpec(inp, i + sc.used, ws)
      else Read(Stop(i, i + sc.used, sc.kind, ws))
  }

  /** `next_token` of the reader from the cursor at character index `i`:
      the token, and the index after it. */
  function ReadSpec(inp: Input, i: nat): (r: Read<(Lexeme, nat)>)
    requires Lexes(inp) && Fits(inp) && i <= |inp.src|
    ensures r.Read? ==> r.value.1 <= |inp.src|
    ensures r.Read? ==>
      r.value.0.token.span.ctxt == ROOT_CTXT
      && r.value.0.token.span.hi == At(inp, r.value.1).value
      && r.value.0.token.span.lo <= r.value.0.token.span.hi
    ensures r.Read? && r.value.0.token.kind == AT.Eof ==>
      r.value.1 == |inp.src| && r.value.0.token.span.lo == r.value.0.token.span.hi
    ensures r.Read? && r.value.0.token.kind != AT.Eof ==> i < r.value.1
  {
    match SkipSpec(inp, i, false)
    case Halted(h) => Halted(h)
    case Read(st) => Emit(inp, st.start, st.end, st.kind, st.spaced)
  }

  /** The token of kind `kind` on the characters `i..j`. */
  function Emit(inp: Input, i: nat, j: nat, kind: LT.TokenKind, ws: bool): (r: Read<(Lexeme, nat)>)
    requires Fits(inp) && i <= j <= |inp.src|
    requires !kind.Whitespace? && !kind.Unknown?
    requires kind.Literal? ==> i < j
    requires kind.Literal? && kind.kind.Int? && LL.Prefixed(kind.kind.base) ==> i + 2 <= j
    ensures r.Read? ==> r.value.1 == j && r.value.0.token.span.lo <= r.value.0.token.span.hi
    ensures r.Read? ==> r.value.0.token.span.ctxt == ROOT_CTXT && r.value.0.token.span.hi == At(inp, j).value
    ensures r.Read? ==> (r.value.0.token.kind == AT.Eof <==> kind == LT.Eof)
    ensures r.Read? ==> r.value.0.spaced == ws && r.value.0.token.span.lo == At(inp, i).value
  {
    AtDistance(inp, i, j);
    var start := At(inp, i);
    var end := At(inp, j);
    match Cook(inp, start, end, kind)
    case Halted(h) => Halted(h)
    case Read(k) => Read((Lexeme(AT.Token(k, WithRootCtxt(start, end)), ws), j))
  }

  /** A whitespace raw token is skipped and sets the flag. */
  lemma SkipsWhitespace(inp: Input, i: nat, j: nat, ws: bool)
    requires Lexes(inp) && i <= j <= |inp.src|
    requires RawAt(inp, i).Done? && RawAt(inp, i).value.kind == LT.Whitespace && j == i + RawAt(inp, i).value.used
    ensures SkipSpec(inp, i, ws) == SkipSpec(inp, j, true)
  {
    var raw := RawAt(inp, i);
    assert raw == LT.Done(LT.Scan(LT.Whitespace, j - i));
  }

  /** An unknown raw token is skipped and leaves the flag alone. */
  lemma SkipsUnknown(inp: Input, i: nat, j: nat, ws: bool)
    requires Lexes(inp) && i <= j <= |inp.src|
    requires RawAt(inp, i).Done? && RawAt(inp, i).value.kind == LT.Unknown && j == i + RawAt(inp, i).value.used
    ensures SkipSpec(inp, i, ws) == SkipSpec(inp, j, ws)
  {
    var raw := RawAt(inp, i);
    assert raw == LT.Done(LT.Scan(LT.Unknown, j - i));
  }

  /** Any other raw token stops the loop. */
  lemma SkipStops(inp: Input, i: nat, j: nat, kind: LT.TokenKind, ws: bool)
    requires Lexes(inp) && i <= j <= |inp.src|
    requires RawAt(inp, i).Done? && RawAt(inp, i).value.kind == kind && j == i + RawAt(inp, i).value.used
    requires !kind.Whitespace? && !kind.Unknown?
    ensures SkipSpec(inp, i, ws) == Read(Stop(i, j, kind, ws))
  {
  }

  /** What `Emit` returns once the kind is cooked. */
  lemma EmitCooked(inp: Input, i: nat, j: nat, kind: LT.TokenKind, ws: bool, start: BytePos, end: BytePos)
    requires Fits(inp) && i <= j <= |inp.src| && start == At(inp, i) && end == At(inp, j)
    requires !kind.Whitespace? && !kind.Unknown?
    requires start.value <= end.value && (kind.Literal? ==> i < j && start.value < end.value)
    requires kind.Literal? && kind.kind.Int? && LL.Prefixed(kind.kind.base) ==> i + 2 <= j && start.value + 2 <= end.value
    ensures var c := Cook(inp, start, end, kind);
      (c.Halted? ==> Emit(inp, i, j, kind, ws) == Halted(c.halt))
      && (c.Read? ==> Emit(inp, i, j, kind, ws) == Read((Lexeme(AT.Token(c.value, WithRootCtxt(start, end)), ws), j)))
  {
  }

  // Properties of the reader.

  /** The loop stops on the raw token at `start`, of kind `kind` and of
      `end - start` characters. */
  lemma {:induction false} SkipStopsOnRawToken(inp: Input, i: nat, ws: bool)
    requires Lexes(inp) && i <= |inp.src|
    ensures var r := SkipSpec(inp, i, ws);
      r.Read? ==>
        RawAt(inp, r.value.start).Done? && RawAt(inp, r.value.start).value.kind == r.value.kind
        && r.value.end == r.value.start + RawAt(inp, r.value.start).value.used
    decreases |inp.src| - i
  {
    var raw := RawAt(inp, i);
    if raw.Done? {
      if raw.value.kind == LT.Whitespace {
        SkipStopsOnRawToken(inp, i + raw.value.used, true);
      } else if raw.value.kind == LT.Unknown {
        SkipStopsOnRawToken(inp, i + raw.value.used, ws);
      }
    }
  }

  /** The loop halts only at a `todo!()` of the raw lexer. */
  lemma {:induction false} SkipHaltsUnfinished(inp: Input, i: nat, ws: bool)
    requires Lexes(inp) && i <= |inp.src|
    ensures SkipSpec(inp, i, ws).Halted? ==> SkipSpec(inp, i, ws).halt.Unfinished?
    decreases |inp.src| - i
  {
    var raw := RawAt(inp, i);
    if raw.Done? {
      if raw.value.kind == LT.Whitespace {
        SkipHaltsUnfinished(inp, i + raw.value.used, true);
      } else if raw.value.kind == LT.Unknown {
        SkipHaltsUnfinished(inp, i + raw.value.used, ws);
      }
    }
  }

  /** The first raw token from `i` that is not unknown is whitespace. */
  ghost predicate FirstKnownIsWhitespace(inp: Input, i: nat)
    requires Lexes(inp) && i <= |inp.src|
    decreases |inp.src| - i
  {
    match RawAt(inp, i)
    case Todo(_) => false
    case Done(sc) =>
      sc.kind == LT.Whitespace || (sc.kind == LT.Unknown && FirstKnownIsWhitespace(inp, i + sc.used))
  }

  /** The flag the loop returns is set exactly when whitespace was already
      seen or the first raw token that is not unknown is whitespace. */
  lemma {:induction false} SkipSpacedFlag(inp: Input, i: nat, ws: bool)
    requires Lexes(inp) && i <= |inp.src|
    ensures var r := SkipSpec(inp, i, ws);
      r.Read? ==> r.value.spaced == (ws || FirstKnownIsWhitespace(inp, i))
    decreases |inp.src| - i
  {
    var raw := RawAt(inp, i);
    if raw.Done? {
      if raw.value.kind == LT.Whitespace {
        SkipSpacedFlag(inp, i + raw.value.used, true);
      } else if raw.value.kind == LT.Unknown {
        SkipSpacedFlag(inp, i + raw.value.used, ws);
      }
    }
  }

  /** `next_token` reports whitespace before a token exactly when the first
      raw token that is not unknown is whitespace. */
  lemma ReadSpaced(inp: Input, i: nat)
    requires Lexes(inp) && Fits(inp) && i <= |inp.src|
    ensures var r := ReadSpec(inp, i);
      r.Read? ==> r.value.0.spaced == FirstKnownIsWhitespace(inp, i)
  {
    SkipSpacedFlag(inp, i, false);
  }

  /** At the end of the source the reader returns `Eof` with an empty span
      there, not preceded by whitespace. */
  lemma ReadAtEnd(inp: Input)
    requires Lexes(inp) && Fits(inp)
    ensures var end := At(inp, |inp.src|);
      ReadSpec(inp, |inp.src|) == Read((Lexeme(AT.Token(AT.Eof, WithRootCtxt(end, end)), false), |inp.src|))
  {
    RawAtNextToken(inp, |inp.src|);
    assert inp.src[|inp.src|..] == [];
  }

  /** An ASCII character takes one byte. */
  lemma AtAscii(inp: Input, k: nat)
    requires Fits(inp) && k < |inp.src| && IsAscii(inp.src[k])
    ensures At(inp, k + 1).value == At(inp, k).value + 1
  {
    AtDistance(inp, k, k + 1);
    assert inp.src[k..k + 1] == [inp.src[k]];
  }

  /** The quote that opens and closes a literal of kind `lk`. */
  function Quote(lk: LL.LiteralKind): char
    requires lk.Char? || lk.Str?
  {
    if lk.Char? then '\'' else '"'
  }

  /** A character or string literal opens and closes with its quote. */
  lemma RawQuotes(inp: Input, k: nat, j: nat, lk: LL.LiteralKind)
    requires Lexes(inp) && k <= |inp.src| && (lk.Char? || lk.Str?)
    requires RawAt(inp, k).Done? && RawAt(inp, k).value.kind == LT.Literal(lk) && j == k + RawAt(inp, k).value.used
    ensures k + 2 <= j && inp.src[k] == Quote(lk) && inp.src[j - 1] == Quote(lk)
  {
    RawAtNextToken(inp, k);
    var s := inp.src[k..];
    if lk.Char? {
      LT.CharLiteralEnds(inp.u, s);
    } else {
      LT.StrLiteralEnds(inp.u, s);
    }
    assert s[0] == inp.src[k] && s[j - k - 1] == inp.src[j - 1];
  }

  /** A binary or octal number starts with `0` and an ASCII letter. */
  lemma RawBasedPrefix(inp: Input, k: nat, j: nat, lk: LL.LiteralKind)
    requires Lexes(inp) && k <= |inp.src| && (lk.Int? || lk.Float?) && LL.Prefixed(lk.base)
    requires RawAt(inp, k).Done? && RawAt(inp, k).value.kind == LT.Literal(lk) && j == k + RawAt(inp, k).value.used
    ensures k + 2 <= j && inp.src[k] == '0' && (inp.src[k + 1] == 'b' || inp.src[k + 1] == 'o' || inp.src[k + 1] == 'x')
  {
    RawAtNextToken(inp, k);
    var s := inp.src[k..];
    LT.BasedLiteralPrefix(inp.u, s);
    assert s[0] == inp.src[k] && s[1] == inp.src[k + 1];
  }

  /** The raw lexer never produces `Colon`. */
  lemma RawNeverColon(inp: Input, k: nat)
    requires Lexes(inp) && k <= |inp.src|
    ensures RawAt(inp, k).Done? ==> RawAt(inp, k).value.kind != LT.Colon
  {
    RawAtNextToken(inp, k);
    if k < |inp.src| {
      LT.ColonIsDollar(inp.u, inp.src[k..]);
    }
  }

  /** Between ASCII ends, the inside of a span starts one byte after it and
      ends one byte before it. */
  lemma AsciiEnds(inp: Input, k: nat, j: nat)
    requires Fits(inp) && k + 2 <= j <= |inp.src|
    requires IsAscii(inp.src[k]) && IsAscii(inp.src[j - 1])
    ensures At(inp, k).value + 2 <= At(inp, j).value
    ensures Add(At(inp, k), BytePos(1)) == At(inp, k + 1) && Sub(At(inp, j), BytePos(1)) == At(inp, j - 1)
  {
    AtAscii(inp, k);
    AtAscii(inp, j - 1);
    AtDistance(inp, k + 1, j - 1);
  }

  /** Between ASCII ends, the content lies one byte inside the span. */
  lemma QuotedContent(inp: Input, k: nat, j: nat)
    requires Fits(inp) && k + 2 <= j <= |inp.src|
    requires IsAscii(inp.src[k]) && IsAscii(inp.src[j - 1])
    ensures At(inp, k).value + 2 <= At(inp, j).value
    ensures StrFromTo(inp, Add(At(inp, k), BytePos(1)), Sub(At(inp, j), BytePos(1))) == Some(inp.src[k + 1..j - 1])
  {
    AsciiEnds(inp, k, j);
    StrFromToChars(inp, k + 1, j - 1);
  }

  /** In a source that starts at position 0, the position of a character
      is a character boundary of the source. */
  lemma AtFindsChar(inp: Input, k: nat)
    requires Fits(inp) && k <= |inp.src| && inp.start.value == 0
    ensures CharIndex(inp.src, ToUsize(At(inp, k))) == Some(k)
  {
    CharIndexOfBoundary(inp.src, k);
  }

  /** A quoted literal whose content slices cleanly keeps its kind and has
      its content as symbol; its line lookup fails only off a boundary. */
  lemma CookQuoted(inp: Input, start: BytePos, end: BytePos, lk: LL.LiteralKind, content: string)
    requires inp.start.value <= start.value && start.value + 2 <= end.value && (lk.Char? || lk.Str?)
    requires StrFromTo(inp, Add(start, BytePos(1)), Sub(end, BytePos(1))) == Some(content)
    ensures var c := Cook(inp, start, end, LT.Literal(lk));
      c != Halted(SlicePanic)
      && (CharIndex(inp.src, ToUsize(start)).Some? ==> c != Halted(LineLookupPanic))
      && (c.Read? ==> c.value == AT.Literal(AT.Lit(if lk.Char? then AT.LitKind.Char else AT.LitKind.Str, Symbol(content))))
  {
  }

  /** A quoted literal between ASCII ends keeps its kind, and its symbol is
      the text between the ends; slicing it stays on character boundaries,
      and for a source that starts at position 0 the line lookup of the
      escape diagnostics finds the literal. */
  lemma EmitQuoted(inp: Input, k: nat, j: nat, lk: LL.LiteralKind, ws: bool)
    requires Fits(inp) && k + 2 <= j <= |inp.src| && (lk.Char? || lk.Str?)
    requires IsAscii(inp.src[k]) && IsAscii(inp.src[j - 1])
    ensures var r := Emit(inp, k, j, LT.Literal(lk), ws);
      r != Halted(SlicePanic)
      && (inp.start.value == 0 ==> r != Halted(LineLookupPanic))
      && (r.Read? ==>
            r.value.0.token.kind
            == AT.Literal(AT.Lit(if lk.Char? then AT.LitKind.Char else AT.LitKind.Str, Symbol(inp.src[k + 1..j - 1]))))
  {
    var start, end := At(inp, k), At(inp, j);
    QuotedContent(inp, k, j);
    CookQuoted(inp, start, end, lk, inp.src[k + 1..j - 1]);
    if inp.start.value == 0 {
      AtFindsChar(inp, k);
    }
    EmitCooked(inp, k, j, LT.Literal(lk), ws, start, end);
  }

  /** A binary or octal integer whose first two characters are ASCII is an
      error exactly when a character after them is neither `_` nor a digit
      of its base; its symbol is its whole text. */
  lemma EmitBasedInt(inp: Input, k: nat, j: nat, b: LL.Base, ws: bool)
    requires Fits(inp) && k + 2 <= j <= |inp.src| && LL.Prefixed(b)
    requires IsAscii(inp.src[k]) && IsAscii(inp.src[k + 1])
    ensures var ok := BasedDigits(inp.src[k + 2..j], LL.Radix(b));
      Emit(inp, k, j, LT.Literal(LL.LiteralKind.Int(b)), ws)
      == Read((Lexeme(AT.Token(AT.Literal(AT.Lit(if ok then AT.LitKind.Int else AT.LitKind.Err, Symbol(inp.src[k..j]))),
                               WithRootCtxt(At(inp, k), At(inp, j))), ws), j))
  {
    var start, end := At(inp, k), At(inp, j);
    AtAscii(inp, k);
    AtAscii(inp, k + 1);
    assert Add(start, BytePos(2)) == At(inp, k + 2);
    StrFromToChars(inp, k + 2, j);
    StrFromToChars(inp, k, j);
    EmitCooked(inp, k, j, LT.Literal(LL.LiteralKind.Int(b)), ws, start, end);
  }

  /** A decimal or hexadecimal integer is always an integer, and a float is
      an error exactly when it is not decimal; both keep their whole text. */
  lemma EmitPlainNumber(inp: Input, k: nat, j: nat, lk: LL.LiteralKind, ws: bool)
    requires Fits(inp) && k < j <= |inp.src|
    requires lk.Float? || (lk.Int? && !LL.Prefixed(lk.base))
    ensures var r := Emit(inp, k, j, LT.Literal(lk), ws);
      r.Read? && r.value.0.token.kind.Literal?
      && r.value.0.token.kind.lit.symbol == Symbol(inp.src[k..j])
      && (r.value.0.token.kind.lit.kind == AT.LitKind.Err <==> lk.Float? && lk.base != LL.Decimal)
      && (r.value.0.token.kind.lit.kind == AT.LitKind.Int <==> lk.Int?)
  {
    StrFromToChars(inp, k, j);
  }

  /** Identifiers, punctuation, comments and `Eof` are emitted without a
      failure. */
  lemma EmitNonLiteral(inp: Input, k: nat, j: nat, kind: LT.TokenKind, ws: bool)
    requires Fits(inp) && k <= j <= |inp.src| && !kind.Whitespace? && !kind.Unknown? && !kind.Literal?
    ensures Emit(inp, k, j, kind, ws).Read?
  {
    StrFromToChars(inp, k, j);
  }

  /** The token the raw lexer stops on is emitted without slicing the
      source off a character boundary; for a source that starts at position
      0, the line lookup never fails either. */
  lemma EmitOnBoundaries(inp: Input, k: nat, j: nat, kind: LT.TokenKind, ws: bool)
    requires Lexes(inp) && Fits(inp) && k <= j <= |inp.src| && !kind.Whitespace? && !kind.Unknown?
    requires RawAt(inp, k).Done? && RawAt(inp, k).value.kind == kind && j == k + RawAt(inp, k).value.used
    ensures Emit(inp, k, j, kind, ws) != Halted(SlicePanic)
    ensures inp.start.value == 0 ==> Emit(inp, k, j, kind, ws) != Halted(LineLookupPanic)
  {
    if !kind.Literal? {
      EmitNonLiteral(inp, k, j, kind, ws);
    } else if kind.kind.Char? || kind.kind.Str? {
      RawQuotes(inp, k, j, kind.kind);
      EmitQuoted(inp, k, j, kind.kind, ws);
    } else if kind.kind.Int? && LL.Prefixed(kind.kind.base) {
      RawBasedPrefix(inp, k, j, kind.kind);
      EmitBasedInt(inp, k, j, kind.kind.base, ws);
    } else {
      EmitPlainNumber(inp, k, j, kind.kind, ws);
    }
  }

  /** `next_token` never slices the source off a character boundary; and
      when the source starts at position 0 the line lookup never fails. */
  lemma ReadOnBoundaries(inp: Input, i: nat)
    requires Lexes(inp) && Fits(inp) && i <= |inp.src|
    ensures ReadSpec(inp, i) != Halted(SlicePanic)
    ensures inp.start.value == 0 ==> ReadSpec(inp, i) != Halted(LineLookupPanic)
  {
    SkipHaltsUnfinished(inp, i, false);
    SkipStopsOnRawToken(inp, i, false);
    var skip := SkipSpec(inp, i, false);
    if skip.Read? {
      var st := skip.value;
      EmitOnBoundaries(inp, st.start, st.end, st.kind, st.spaced);
    }
  }

  /** The reader never produces `Colon`: `:` reaches the parser as
      `Dollar`. */
  lemma ReadNeverColon(inp: Input, i: nat)
    requires Lexes(inp) && Fits(inp) && i <= |inp.src|
    ensures var r := ReadSpec(inp, i);
      r.Read? ==> r.value.0.token.kind != AT.Colon
  {
    SkipStopsOnRawToken(inp, i, false);
    var skip := SkipSpec(inp, i, false);
    if skip.Read? {
      RawNeverColon(inp, skip.value.start);
      if Plain(skip.value.kind) {
        MapKindInjective(skip.value.kind, LT.Colon);
      }
    }
  }

  /** The reader never produces a delimiter of the `Invisible` kind. */
  lemma ReadNeverInvisible(inp: Input, i: nat)
    requires Lexes(inp) && Fits(inp) && i <= |inp.src|
    ensures var r := ReadSpec(inp, i);
      r.Read? && (r.value.0.token.kind.OpenDelim? || r.value.0.token.kind.CloseDelim?) ==>
        r.value.0.token.kind.delim != AT.Invisible
  {
    var skip := SkipSpec(inp, i, false);
    if skip.Read? && Plain(skip.value.kind) {
      MapKindDelimiters(skip.value.kind);
    }
  }

  /** As written, a hexadecimal integer is lexed as octal and its digits
      are checked as octal: the source `0x1A` reads as one error literal
      over its four bytes. */
  lemma HexIntegerIsError(inp: Input)
    requires Lexes(inp) && inp.src == "0x1A" && inp.start.value == 0
    ensures Fits(inp)
    ensures ReadSpec(inp, 0)
      == Read((Lexeme(AT.Token(AT.Literal(AT.Lit(AT.LitKind.Err, Symbol("0x1A"))), SrcData(0, 4, ROOT_CTXT)), false), 4))
  {
    var kind := LT.Literal(LL.LiteralKind.Int(LL.Octal));
    assert Utf8Len(inp.src) == 4 by {
      Utf8LenAscii(inp.src);
    }
    assert At(inp, 0).value == 0 && At(inp, 4).value == 4 by {
      assert inp.src[..0] == [] && inp.src[..4] == inp.src;
    }
    assert SkipSpec(inp, 0, false) == Read(Stop(0, 4, kind, false)) by {
      RawAtNextToken(inp, 0);
      assert inp.src[0..] == "0x1A";
      LT.HexPrefixIsOctal(inp.u);
      SkipStops(inp, 0, 4, kind, false);
    }
    assert !BasedDigits(inp.src[2..4], 8) by {
      assert inp.src[2..4][1] == 'A';
    }
    assert inp.src[0..4] == "0x1A";
    EmitBasedInt(inp, 0, 4, LL.Octal, false);
  }

  /** A one-character token (a delimiter or punctuation) that the cursor
      stands on is read over its one character, as its parser kind, with
      no whitespace before it. */
  lemma ReadOneChar(inp: Input, i: nat)
    requires Lexes(inp) && Fits(inp) && i < |inp.src| && LT.OneChar(inp.src[i]).Some?
    ensures var k := LT.OneChar(inp.src[i]).value;
      Plain(k)
      && ReadSpec(inp, i) == Read((Lexeme(AT.Token(MapKind(k), WithRootCtxt(At(inp, i), At(inp, i + 1))), false), i + 1))
  {
    var c := inp.src[i];
    var k := LT.OneChar(c).value;
    assert !LT.IsIdStart(inp.u, c) by {
      assert IsAscii(c) && !LT.IsAsciiAlpha(c) && c != '_';
    }
    RawAtNextToken(inp, i);
    assert inp.src[i..][0] == c && inp.src[i..][1..] == inp.src[i + 1..];
    assert RawAt(inp, i) == LT.Done(LT.Scan(k, 1));
    SkipStops(inp, i, i + 1, k, false);
  }

  /** The raw kind a parser kind comes from, for the kinds `MapKind`
      produces. */
  function Unmap(t: AT.TokenKind): (r: Option<LT.TokenKind>)
    ensures r.Some? ==> Plain(r.value)
  {
    match t
    case Comment(c) => Some(if c == AT.Line then LT.LineComment else LT.BlockComment)
    case Semi => Some(LT.Semi)
    case Comma => Some(LT.Comma)
    case Dot => Some(LT.Dot)
    case OpenDelim(d) =>
      if d == AT.Parenthesis then Some(LT.OpenParen)
      else if d == AT.Brace then Some(LT.OpenBrace)
      else if d == AT.Bracket then Some(LT.OpenBracket)
      else None
    case CloseDelim(d) =>
      if d == AT.Parenthesis then Some(LT.CloseParen)
      else if d == AT.Brace then Some(LT.CloseBrace)
      else if d == AT.Bracket then Some(LT.CloseBracket)
      else None
    case At => Some(LT.At)
    case Hashtag => Some(LT.Hashtag)
    case Tilde => Some(LT.Tilde)
    case Question => Some(LT.Question)
    case Colon => Some(LT.Colon)
    case Dollar => Some(LT.Dollar)
    case Eq => Some(LT.Eq)
    case Not => Some(LT.Bang)
    case Lt => Some(LT.Lt)
    case Gt => Some(LT.Gt)
    case BinOp(op) =>
      (match op
       case Minus => Some(LT.Minus)
       case And => Some(LT.And)
       case Or => Some(LT.Or)
       case Plus => Some(LT.Plus)
       case Star => Some(LT.Star)
       case Slash => Some(LT.Slash)
       case Peak => Some(LT.Peak)
       case Percent => Some(LT.Percent)
       case _ => None)
    case Eof => Some(LT.Eof)
    case _ => None
  }

  /** `MapKind` loses nothing: the raw kind is found again from the parser
      kind. */
  lemma MapKindRoundTrip(k: LT.TokenKind)
    requires Plain(k)
    ensures Unmap(MapKind(k)) == Some(k)
  {
  }

  /** Distinct raw kinds become distinct parser kinds. */
  lemma MapKindInjective(a: LT.TokenKind, b: LT.TokenKind)
    requires Plain(a) && Plain(b)
    ensures MapKind(a) == MapKind(b) <==> a == b
  {
    MapKindRoundTrip(a);
    MapKindRoundTrip(b);
  }

  /** Each bracket becomes the delimiter of its shape, opening or closing
      as it is; no raw kind becomes an invisible delimiter. */
  lemma MapKindDelimiters(k: LT.TokenKind)
    requires Plain(k)
    ensures MapKind(k) == AT.OpenDelim(AT.Parenthesis) <==> k == LT.OpenParen
    ensures MapKind(k) == AT.CloseDelim(AT.Parenthesis) <==> k == LT.CloseParen
    ensures MapKind(k) == AT.OpenDelim(AT.Brace) <==> k == LT.OpenBrace
    ensures MapKind(k) == AT.CloseDelim(AT.Brace) <==> k == LT.CloseBrace
    ensures MapKind(k) == AT.OpenDelim(AT.Bracket) <==> k == LT.OpenBracket
    ensures MapKind(k) == AT.CloseDelim(AT.Bracket) <==> k == LT.CloseBracket
    ensures MapKind(k).OpenDelim? || MapKind(k).CloseDelim? ==> MapKind(k).delim != AT.Invisible
  {
    MapKindRoundTrip(k);
  }

  /** The digit loop of `lexer_literal`: a binary or octal integer is an
      error as soon as one character is neither `_` nor a digit of its base. */
  method CheckDigits(digits: string, radix: nat) returns (lit: AT.LitKind)
    requires 2 <= radix <= 36
    ensures lit == (if BasedDigits(digits, radix) then AT.LitKind.Int else AT.LitKind.Err)
  {
    lit := AT.LitKind.Int;
    for k := 0 to |digits|
      invariant lit == (if BasedDigits(digits[..k], radix) then AT.LitKind.Int else AT.LitKind.Err)
    {
      assert forall m :: 0 <= m < k ==> digits[..k + 1][m] == digits[..k][m];
      assert digits[..k + 1][k] == digits[k];
      assert BasedDigits(digits[..k + 1], radix) <==>
        BasedDigits(digits[..k], radix) && (digits[k] == '_' || ToDigit(digits[k], radix).Some?);
      if digits[k] != '_' && ToDigit(digits[k], radix).None? {
        lit := AT.LitKind.Err;
      }
    }
    assert digits[..|digits|] == digits;
  }

  class StringReader {
    const cursor: Cursor
    const src: string
    var pos: BytePos
    const startPos: BytePos
    /** The Unicode tables of the lexer. */
    const u: LT.UnicodeData
    /** The raw lexer on these tables. */
    const lexer: RawLexer

    function Source(): Input {
      Input(src, startPos, u, lexer)
    }

    /** The cursor walks this reader's source and was reset after the last
        token, and `pos` is the absolute position of the cursor. */
    ghost predicate Valid()
      reads this, cursor
    {
      cursor.Valid() && cursor.src == src && cursor.resetAt == cursor.pos
      && Lexes(Source()) && Fits(Source())
      && pos == At(Source(), cursor.pos)
    }

    /** The reader `parse_token_trees` builds over `source`. */
    constructor (source: string, start: BytePos, tables: LT.UnicodeData)
      requires start.value + Utf8Len(source) < U32_LIMIT
      ensures Valid() && fresh(cursor)
      ensures src == source && startPos == start && u == tables && lexer == Lexer(tables)
      ensures cursor.pos == 0
    {
      cursor := new Cursor(source);
      src := source;
      pos := start;
      startPos := start;
      u := tables;
      lexer := Lexer(tables);
    }

    /** `next_token`: raw tokens are taken until one that is neither
        whitespace nor unknown; `pos` advances over every one of them. */
    method NextToken() returns (r: Read<Lexeme>)
      requires Valid()
      modifies this, cursor
      ensures r.Read? ==> Valid()
      ensures var spec := ReadSpec(Source(), old(cursor.pos));
        (spec.Halted? ==> r == Halted(spec.halt))
        && (spec.Read? ==> r == Read(spec.value.0) && cursor.pos == spec.value.1)
    {
      ghost var p0 := cursor.pos;
      ghost var i: nat := cursor.pos;
      var spaced := false;
      var start: BytePos, kind: LT.TokenKind;
      while true
        invariant Valid()
        invariant SkipSpec(Source(), p0, false) == SkipSpec(Source(), cursor.pos, spaced)
        decreases |src| - cursor.pos
      {
        i := cursor.pos;
        var t;
        t, start := TakeRawToken();
        if t.Todo? {
          return Halted(Unfinished(t.site));
        }
        kind := t.value.kind;
        if kind == LT.Whitespace {
          SkipsWhitespace(Source(), i, cursor.pos, spaced);
          spaced := true;
        } else if kind == LT.Unknown {
          SkipsUnknown(Source(), i, cursor.pos, spaced);
        } else {
          SkipStops(Source(), i, cursor.pos, kind, spaced);
          break;
        }
      }
      var cooked := CookToken(start, pos, kind);
      EmitCooked(Source(), i, cursor.pos, kind, spaced, start, pos);
      if cooked.Halted? {
        return Halted(cooked.halt);
      }
      r := Read(Lexeme(AT.Token(cooked.value, WithRootCtxt(start, pos)), spaced));
    }

    /** The head of the loop of `next_token`: a raw token is taken, and
        `pos` moves from `start` over its bytes. */
    method TakeRawToken() returns (t: LT.Lexed<LT.Token>, start: BytePos)
      requires Valid()
      modifies this, cursor
      ensures var raw := RawAt(Source(), old(cursor.pos));
        (raw.Todo? ==> t == LT.Todo(raw.site))
        && (raw.Done? ==>
              t.Done? && t.value.kind == raw.value.kind && Valid()
              && cursor.pos == old(cursor.pos) + raw.value.used && start == old(pos)
              && start.value + raw.value.used <= pos.value)
    {
      ghost var i := cursor.pos;
      t := AdvanceToken();
      start := pos;
      if t.Todo? {
        return;
      }
      AtDistance(Source(), i, cursor.pos);
      pos := Add(pos, BytePos(t.value.len));
    }

    /** The call `self.cursor.next_token()`: the raw token at the cursor's
        index, whose length is the number of bytes of its characters. */
    method AdvanceToken() returns (t: LT.Lexed<LT.Token>)
      requires Valid()
      modifies cursor
      ensures cursor.Valid()
      ensures var raw := RawAt(Source(), old(cursor.pos));
        (raw.Todo? ==> t == LT.Todo(raw.site))
        && (raw.Done? ==>
              t.Done? && t.value.kind == raw.value.kind
              && cursor.pos == old(cursor.pos) + raw.value.used && cursor.resetAt == cursor.pos
              && t.value.len == Utf8Len(src[old(cursor.pos)..cursor.pos]))
    {
      ghost var i := cursor.pos;
      RawAtNextToken(Source(), i);
      assert cursor.Chars() == src[i..];
      t := LT.NextToken(cursor, u);
      if t.Done? {
        AtDistance(Source(), i, cursor.pos);
        // The `as u32` of the token length keeps it whole.
        assert FromUsize(Utf8Len(src[i..cursor.pos])).value == Utf8Len(src[i..cursor.pos]);
      }
    }

    /** The match of `next_token` from a raw kind to a parser token kind. */
    method CookToken(start: BytePos, end: BytePos, kind: LT.TokenKind) returns (r: Read<AT.TokenKind>)
      requires startPos.value <= start.value <= end.value
      requires !kind.Whitespace? && !kind.Unknown?
      requires kind.Literal? ==> start.value < end.value
      requires kind.Literal? && kind.kind.Int? && LL.Prefixed(kind.kind.base) ==> start.value + 2 <= end.value
      ensures r == Cook(Source(), start, end, kind)
    {
      if kind.Ident? {
        r := IdentKind(Source(), start, end);
      } else if kind.Literal? {
        var lit := LexerLiteral(start, end, kind.kind);
        r := if lit.Halted? then Halted(lit.halt) else Read(AT.Literal(AT.Lit(lit.value.0, lit.value.1)));
      } else {
        r := Read(MapKind(kind));
      }
    }

    /** `lexer_literal`, with the digit check of based integers as the loop
        of the source. */
    method LexerLiteral(start: BytePos, end: BytePos, kind: LL.LiteralKind) returns (r: Read<(AT.LitKind, Symbol)>)
      requires startPos.value <= start.value < end.value
      requires kind.Int? && LL.Prefixed(kind.base) ==> start.value + 2 <= end.value
      ensures r == LiteralSpec(Source(), start, end, kind)
    {
      match kind
      case Char => r := LexerUnicode(AT.LitKind.Char, LU.Mode.Char, start, end, 1, 1);
      case Str => r := LexerUnicode(AT.LitKind.Str, LU.Mode.Str, start, end, 1, 1);
      case Int(base) =>
        var lit := AT.LitKind.Int;
        if base == LL.Binary || base == LL.Octal {
          var radix := LL.Radix(base);
          var s := StrFromTo(Source(), Add(start, BytePos(2)), end);
          if s.None? {
            return Halted(SlicePanic);
          }
          lit := CheckDigits(s.value, radix);
        }
        var text := StrFromTo(Source(), start, end);
        if text.None? {
          return Halted(SlicePanic);
        }
        r := Read((lit, GetOrStore(text.value)));
      case Float(base) =>
        var lit := AT.LitKind.Float;
        if base == LL.Binary || base == LL.Octal || base == LL.Hex {
          lit := AT.LitKind.Err;
        }
        var text := StrFromTo(Source(), start, end);
        if text.None? {
          return Halted(SlicePanic);
        }
        r := Read((lit, GetOrStore(text.value)));
    }

    /** `lexer_unicode`, calling the unescaper. */
    method LexerUnicode(kind: AT.LitKind, mode: LU.Mode, start: BytePos, end: BytePos,
                        prefixLen: u32, postfixLen: u32) returns (r: Read<(AT.LitKind, Symbol)>)
      requires startPos.value <= start.value && start.value + prefixLen < U32_LIMIT
      requires startPos.value + postfixLen <= end.value
      ensures r == UnicodeSpec(Source(), kind, mode, start, end, prefixLen, postfixLen)
    {
      var contentStart := Add(start, BytePos(prefixLen));
      var contentEnd := Sub(end, BytePos(postfixLen));
      var content := StrFromTo(Source(), contentStart, contentEnd);
      if content.None? {
        return Halted(SlicePanic);
      }
      var report := LU.UnescapeUnicode(content.value, mode);
      if HasError(report.calls) && CharIndex(src, ToUsize(start)).None? {
        return Halted(LineLookupPanic);
      }
      if report.panicked {
        return Halted(EscapePanic);
      }
      if kind == AT.LitKind.Err {
        var text := StrFromTo(Source(), start, end);
        if text.None? {
          return Halted(SlicePanic);
        }
        r := Read((kind, GetOrStore(text.value)));
      } else {
        r := Read((kind, GetOrStore(content.value)));
      }
    }
  }
}
