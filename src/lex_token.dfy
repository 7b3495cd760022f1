/** The raw lexer (`lex::token`): `next_token` classifies one lexeme at the
    cursor and reports its kind and its length in bytes.

    Every routine is a method that advances a `Cursor`, proved against a
    function that says, for the characters the cursor still holds, what the
    routine reports and how many characters it takes. The `todo!()` sites of
    the Rust code are the `Todo` outcome. */
module LexToken {
  import opened Std
  import opened LexCursor
  import opened LexLiteral

  datatype TokenKind =
    | LineComment | BlockComment | Whitespace | Ident
    | Literal(kind: LiteralKind)
    | Semi | Comma | Dot
    | OpenParen | CloseParen | OpenBrace | CloseBrace | OpenBracket | CloseBracket
    | At | Hashtag | Tilde | Question | Colon | Dollar | Eq | Bang | Lt | Gt
    | Minus | And | Or | Plus | Star | Slash | Peak | Percent
    | Unknown | Eof

  datatype Token = Token(kind: TokenKind, len: nat)

  /** The Unicode tables of foreign crates, for non-ASCII characters:
      `XID_Start`, `XID_Continue`, `is_emoji_char`, and the NFC quick check and
      normalisation used for identifiers. */
  datatype UnicodeData = UnicodeData(
    xidStart: char -> bool,
    xidContinue: char -> bool,
    emoji: char -> bool,
    nfcQuickYes: string -> bool,
    nfc: string -> string)

  /** The places where the Rust code stops with `todo!()`. */
  datatype TodoSite =
    | UnterminatedString | UnterminatedChar | EmptyInt | EmptyExponent
    | UnknownPrefix | InvalidIdent

  datatype Lexed<T> = Done(value: T) | Todo(site: TodoSite)

  /** What a scan reports, and how many characters it took. */
  datatype Scan<K> = Scan(kind: K, used: nat)

  /** What the digit scanners take, and whether a real digit was among it. */
  datatype Digits = Digits(used: nat, hasDigits: bool)

  /** `is_whitespace`: Unicode's `Pattern_White_Space`, eleven code points. */
  predicate IsWhitespace(c: char) {
    c == '\t' || c == '\n' || c == '\U{000B}' || c == '\U{000C}' || c == '\r' || c == ' '
    || c == '\U{0085}' || c == '\U{200E}' || c == '\U{200F}' || c == '\U{2028}' || c == '\U{2029}'
  }

  predicate IsAsciiAlpha(c: char) {
    'a' <= c <= 'z' || 'A' <= c <= 'Z'
  }

  /** `XID_Start`: the ASCII letters, and the table for other characters. */
  predicate XidStart(u: UnicodeData, c: char) {
    if IsAscii(c) then IsAsciiAlpha(c) else u.xidStart(c)
  }

  /** `is_id_start`. */
  predicate IsIdStart(u: UnicodeData, c: char) {
    c == '_' || XidStart(u, c)
  }

  /** `is_id_countinue` (`XID_Continue`): ASCII letters, digits and `_`, and
      the table for other characters. */
  predicate IsIdContinue(u: UnicodeData, c: char) {
    if IsAscii(c) then IsAsciiAlpha(c) || IsAsciiDigit(c) || c == '_' else u.xidContinue(c)
  }

  function IdContinue(u: UnicodeData): char -> bool {
    (c: char) => IsIdContinue(u, c)
  }

  predicate NotNewline(c: char) {
    c != '\n'
  }

  /** Characters taken by `line_comment`, which starts at the second `/`. */
  function LineCommentUsed(s: string): (n: nat)
    ensures n <= |s|
    ensures s != [] ==> 1 <= n
  {
    if s == [] then 0 else 1 + TakeWhileLen(s[1..], NotNewline)
  }

  /** Characters the loop of `block_comment` takes from index `i` of `s`,
      at nesting `depth`. */
  function BlockScan(s: string, i: nat, depth: nat): (n: nat)
    requires depth >= 1 && i <= |s|
    ensures i + n <= |s|
    decreases |s| - i
  {
    if i == |s| then 0
    else if s[i] == '/' && Peek(s, i + 1) == '*' then 2 + BlockScan(s, i + 2, depth + 1)
    else if s[i] == '*' && Peek(s, i + 1) == '/' then
      (if depth == 1 then 2 else 2 + BlockScan(s, i + 2, depth - 1))
    else 1 + BlockScan(s, i + 1, depth)
  }

  /** One step of the scan over an opener. */
  lemma BlockScanOpener(s: string, i: nat, depth: nat)
    requires depth >= 1 && OpenerAt(s, i)
    ensures BlockScan(s, i, depth) == 2 + BlockScan(s, i + 2, depth + 1)
  {
  }

  /** One step of the scan over any other character. */
  lemma BlockScanOther(s: string, i: nat, depth: nat)
    requires depth >= 1 && i < |s|
    requires !(s[i] == '/' && Peek(s, i + 1) == '*') && !(s[i] == '*' && Peek(s, i + 1) == '/')
    ensures BlockScan(s, i, depth) == 1 + BlockScan(s, i + 1, depth)
  {
  }

  /** Scanning a suffix of `s` is scanning `s` from the suffix's start on. */
  lemma {:induction false} BlockScanSuffix(s: string, p: nat, i: nat, depth: nat)
    requires depth >= 1 && p + i <= |s|
    ensures BlockScan(s[p..], i, depth) == BlockScan(s, p + i, depth)
    decreases |s| - p - i
  {
    var t := s[p..];
    if i < |t| {
      assert t[i] == s[p + i] && Peek(t, i + 1) == Peek(s, p + i + 1);
      if t[i] == '/' && Peek(t, i + 1) == '*' {
        BlockScanSuffix(s, p, i + 2, depth + 1);
      } else if t[i] == '*' && Peek(t, i + 1) == '/' {
        if depth > 1 {
          BlockScanSuffix(s, p, i + 2, depth - 1);
        }
      } else {
        BlockScanSuffix(s, p, i + 1, depth);
      }
    }
  }

  /** Characters taken by `block_comment`, which starts at the `*` of the opener. */
  function BlockCommentUsed(s: string): (n: nat)
    ensures n <= |s|
    ensures s != [] ==> 1 <= n
  {
    if s == [] then 0 else 1 + BlockScan(s, 1, 1)
  }

  predicate IsDecimalRunChar(c: char) {
    IsAsciiDigit(c) || c == '_'
  }

  predicate IsHexRunChar(c: char) {
    IsAsciiHexDigit(c) || c == '_'
  }

  /** `take_decimal_digits`: the run of digits and `_`; only digits count. */
  function DecimalDigits(s: string): (d: Digits)
    ensures d.used <= |s|
  {
    if s == [] || !IsDecimalRunChar(s[0]) then Digits(0, false)
    else
      var r := DecimalDigits(s[1..]);
      Digits(1 + r.used, r.hasDigits || IsAsciiDigit(s[0]))
  }

  /** `take_hexadecimal_digits`: the run of hex digits and `_`; only digits count. */
  function HexDigits(s: string): (d: Digits)
    ensures d.used <= |s|
  {
    if s == [] || !IsHexRunChar(s[0]) then Digits(0, false)
    else
      var r := HexDigits(s[1..]);
      Digits(1 + r.used, r.hasDigits || IsAsciiHexDigit(s[0]))
  }

  /** `take_float_exponent`: an optional sign, then decimal digits. */
  function FloatExponent(s: string): (d: Digits)
    ensures d.used <= |s|
    ensures d.hasDigits ==> 1 <= d.used
  {
    if Peek(s, 0) == '-' || Peek(s, 0) == '+' then
      var r := DecimalDigits(s[1..]);
      Digits(1 + r.used, r.hasDigits)
    else DecimalDigits(s)
  }

  /** `ident_or_unhandled_prefix`, after the first character. */
  function IdentSpec(u: UnicodeData, s: string): (r: Lexed<Scan<TokenKind>>)
    ensures r.Done? ==> r.value.used <= |s| && r.value.kind == Ident
  {
    var n := TakeWhileLen(s, IdContinue(u));
    var p := Peek(s, n);
    if p == '#' || p == '"' || p == '\'' then Todo(UnknownPrefix)
    else if !IsAscii(p) && u.emoji(p) then Todo(InvalidIdent)
    else Done(Scan(Ident, n))
  }

  /** The integer part of a number after its first digit: the base and the
      characters taken, up to and including the `take_*_digits` call. */
  function IntPart(first: char, s: string): (r: Lexed<Scan<Base>>)
    ensures r.Done? ==> r.value.used <= |s|
  {
    if first == '0' then
      var p := Peek(s, 0);
      if p == 'b' then
        var d := DecimalDigits(s[1..]);
        if d.hasDigits then Done(Scan(Binary, 1 + d.used)) else Todo(EmptyInt)
      else if p == 'o' then
        var d := DecimalDigits(s[1..]);
        if d.hasDigits then Done(Scan(Octal, 1 + d.used)) else Todo(EmptyInt)
      else if p == 'x' then
        var d := HexDigits(s[1..]);
        if d.hasDigits then Done(Scan(Octal, 1 + d.used)) else Todo(EmptyInt)
      else if IsDecimalRunChar(p) then Done(Scan(Decimal, DecimalDigits(s).used))
      else Done(Scan(Decimal, 0))
    else Done(Scan(Decimal, DecimalDigits(s).used))
  }

  /** What follows the integer part of a number: a fraction, an exponent,
      or nothing; `t` is what remains after the integer part. */
  function FractionPart(u: UnicodeData, base: Base, t: string): (r: Lexed<Scan<LiteralKind>>)
    ensures r.Done? ==> r.value.used <= |t|
  {
    if Peek(t, 0) == '.' && Peek(t, 1) != '.' && !IsIdStart(u, Peek(t, 1)) then
      var t1 := t[1..];
      if IsAsciiDigit(Peek(t1, 0)) then
        var d := DecimalDigits(t1);
        var t2 := t1[d.used..];
        if Peek(t2, 0) == 'e' || Peek(t2, 0) == 'E' then
          var e := FloatExponent(t2[1..]);
          if e.hasDigits then Done(Scan(Float(base), 1 + d.used + 1 + e.used))
          else Todo(EmptyExponent)
        else Done(Scan(Float(base), 1 + d.used))
      else Done(Scan(Float(base), 1))
    else if Peek(t, 0) == 'e' || Peek(t, 0) == 'E' then
      var e := FloatExponent(t[1..]);
      if e.hasDigits then Done(Scan(Float(base), 1 + e.used)) else Todo(EmptyExponent)
    else Done(Scan(Int(base), 0))
  }

  /** Whether `c`, after a leading `0`, keeps `number` scanning. */
  predicate ContinuesZero(c: char) {
    c == 'b' || c == 'o' || c == 'x' || IsDecimalRunChar(c) || c == '.' || c == 'e' || c == 'E'
  }

  /** `number`, after its first digit. */
  function NumberSpec(u: UnicodeData, first: char, s: string): (r: Lexed<Scan<LiteralKind>>)
    ensures r.Done? ==> r.value.used <= |s|
  {
    if first == '0' && !ContinuesZero(Peek(s, 0)) then Done(Scan(Int(Decimal), 0))
    else
      var ip := IntPart(first, s);
      if ip.Todo? then Todo(ip.site)
      else
        var fp := FractionPart(u, ip.value.kind, s[ip.value.used..]);
        if fp.Todo? then Todo(fp.site) else Done(Scan(fp.value.kind, ip.value.used + fp.value.used))
  }

  /** The loop of `single_queted_string`: whether it found the closing quote. */
  function CharLoop(s: string): (r: Scan<bool>)
    ensures r.used <= |s|
    decreases |s|
  {
    if s == [] then Scan(false, 0)
    else if s[0] == '\'' then Scan(true, 1)
    else if s[0] == '\n' && Peek(s, 1) != '\'' then Scan(false, 0)
    else if s[0] == '\\' then
      var k := if |s| >= 2 then 2 else 1;
      var r := CharLoop(s[k..]);
      Scan(r.kind, k + r.used)
    else
      var r := CharLoop(s[1..]);
      Scan(r.kind, 1 + r.used)
  }

  /** `single_queted_string`, after the opening quote. */
  function SingleQuoted(s: string): (r: Scan<bool>)
    ensures r.used <= |s|
  {
    if Peek(s, 1) == '\'' && Peek(s, 0) != '\\' then Scan(true, 2) else CharLoop(s)
  }

  /** `double_quoted_string`, after the opening quote. */
  function DoubleQuoted(s: string): (r: Scan<bool>)
    ensures r.used <= |s|
    decreases |s|
  {
    if s == [] then Scan(false, 0)
    else if s[0] == '"' then Scan(true, 1)
    else if s[0] == '\\' && (Peek(s, 1) == '\\' || Peek(s, 1) == '"') then
      var r := DoubleQuoted(s[2..]);
      Scan(r.kind, 2 + r.used)
    else
      var r := DoubleQuoted(s[1..]);
      Scan(r.kind, 1 + r.used)
  }

  /** The one-character tokens of `next_token`; `:` lexes as `Dollar`. */
  function OneChar(c: char): (r: Option<TokenKind>)
    ensures r.Some? ==> c != '/' && !IsWhitespace(c) && !IsAsciiDigit(c) && c != '\'' && c != '"'
  {
    match c
    case ';' => Some(Semi)
    case ',' => Some(Comma)
    case '.' => Some(Dot)
    case '(' => Some(OpenParen)
    case ')' => Some(CloseParen)
    case '{' => Some(OpenBrace)
    case '}' => Some(CloseBrace)
    case '[' => Some(OpenBracket)
    case ']' => Some(CloseBracket)
    case '@' => Some(At)
    case '#' => Some(Hashtag)
    case '~' => Some(Tilde)
    case '?' => Some(Question)
    case ':' => Some(Dollar)
    case '=' => Some(Eq)
    case '!' => Some(Bang)
    case '<' => Some(Lt)
    case '>' => Some(Gt)
    case '-' => Some(Minus)
    case '&' => Some(And)
    case '|' => Some(Or)
    case '+' => Some(Plus)
    case '*' => Some(Star)
    case '^' => Some(Peak)
    case '%' => Some(Percent)
    case _ => None
  }

  /** What `next_token` reports after its first character `first`, and the
      characters it takes after it. */
  function AfterFirst(u: UnicodeData, first: char, t: string): (r: Lexed<Scan<TokenKind>>)
    ensures r.Done? ==> r.value.used <= |t| && r.value.kind != Eof
  {
    if first == '/' then
      if Peek(t, 0) == '/' then Done(Scan(LineComment, LineCommentUsed(t)))
      else if Peek(t, 0) == '*' then Done(Scan(BlockComment, BlockCommentUsed(t)))
      else Done(Scan(Slash, 0))
    else if IsWhitespace(first) then Done(Scan(Whitespace, TakeWhileLen(t, IsWhitespace)))
    else if IsIdStart(u, first) then IdentSpec(u, t)
    else if IsAsciiDigit(first) then
      var n := NumberSpec(u, first, t);
      if n.Todo? then Todo(n.site) else Done(Scan(Literal(n.value.kind), n.value.used))
    else if OneChar(first).Some? then Done(Scan(OneChar(first).value, 0))
    else if first == '\'' then
      var q := SingleQuoted(t);
      if q.kind then Done(Scan(Literal(Char), q.used)) else Todo(UnterminatedChar)
    else if first == '"' then
      var q := DoubleQuoted(t);
      if q.kind then Done(Scan(Literal(Str), q.used)) else Todo(UnterminatedString)
    else Done(Scan(Unknown, 0))
  }

  /** `next_token` on the characters `s` the cursor holds: the kind, and the
      number of characters of the token. */
  function NextTokenSpec(u: UnicodeData, s: string): (r: Lexed<Scan<TokenKind>>)
    ensures s == [] ==> r == Done(Scan(Eof, 0))
    ensures s != [] && r.Done? ==> 1 <= r.value.used <= |s| && r.value.kind != Eof
  {
    if s == [] then Done(Scan(Eof, 0))
    else
      var k := AfterFirst(u, s[0], s[1..]);
      if k.Todo? then Todo(k.site) else Done(Scan(k.value.kind, 1 + k.value.used))
  }

  // The routines of `impl Cursor` in `lex::token`, each proved to take what
  // the function of the same part says, from the characters the cursor holds.

  /** `c` took `used` more characters and was not reset. */
  twostate predicate Took(c: Cursor, used: nat)
    reads c
  {
    c.pos == old(c.pos) + used && c.resetAt == old(c.resetAt)
  }

  /** `line_comment`. */
  method ScanLineComment(c: Cursor) returns (k: TokenKind)
    requires c.Valid()
    modifies c
    ensures c.Valid() && Took(c, LineCommentUsed(old(c.Chars())))
    ensures k == LineComment
  {
    ghost var s0 := c.Chars();
    var _ := c.TakeChar();
    if s0 != [] {
      assert c.Chars() == s0[1..];
    }
    c.TakeWhile(NotNewline);
    k := LineComment;
  }

  /** `block_comment`: counts nesting depth until the outermost comment closes. */
  method ScanBlockComment(c: Cursor) returns (k: TokenKind)
    requires c.Valid()
    modifies c
    ensures c.Valid() && Took(c, BlockCommentUsed(old(c.Chars())))
    ensures k == BlockComment
  {
    ghost var p0, s0 := c.pos, c.Chars();
    var _ := c.TakeChar();
    if s0 != [] {
      BlockScanSuffix(c.src, p0, 1, 1);
    }
    var depth: nat := 1;
    while true
      invariant c.Valid() && c.resetAt == old(c.resetAt) && 1 <= depth && p0 <= c.pos
      invariant BlockCommentUsed(s0) == c.pos - p0 + BlockScan(c.src, c.pos, depth)
      decreases |c.src| - c.pos
    {
      var next, closed := ScanBlockStep(c, depth);
      if closed {
        break;
      }
      depth := next;
    }
    k := BlockComment;
  }

  /** One turn of the loop of `block_comment`: takes a character, or an
      opener or closer; `closed` when the input ends or the outermost
      comment closes. */
  method ScanBlockStep(c: Cursor, depth: nat) returns (next: nat, closed: bool)
    requires c.Valid() && 1 <= depth
    modifies c
    ensures c.Valid() && c.resetAt == old(c.resetAt) && old(c.pos) <= c.pos
    ensures closed ==> BlockScan(c.src, old(c.pos), depth) == c.pos - old(c.pos)
    ensures !closed ==> 1 <= next && old(c.pos) < c.pos
    ensures !closed ==> BlockScan(c.src, old(c.pos), depth) == c.pos - old(c.pos) + BlockScan(c.src, c.pos, next)
  {
    ghost var i := c.pos;
    var ch := c.TakeChar();
    if ch.None? {
      return depth, true;
    }
    var p := c.PeekFirstChar();
    assert ch.value == c.src[i] && p == Peek(c.src, i + 1);
    if ch.value == '/' && p == '*' {
      BlockScanOpener(c.src, i, depth);
      var _ := c.TakeChar();
      return depth + 1, false;
    } else if ch.value == '*' && p == '/' {
      assert CloserAt(c.src, i);
      var _ := c.TakeChar();
      if depth == 1 {
        return depth, true;
      }
      NestedCloserContinues(c.src, i, depth);
      return depth - 1, false;
    } else {
      BlockScanOther(c.src, i, depth);
      return depth, false;
    }
  }

  /** `whitespace`. */
  method ScanWhitespace(c: Cursor) returns (k: TokenKind)
    requires c.Valid()
    modifies c
    ensures c.Valid() && Took(c, TakeWhileLen(old(c.Chars()), IsWhitespace))
    ensures k == Whitespace
  {
    c.TakeWhile(IsWhitespace);
    k := Whitespace;
  }

  /** `ident_or_unhandled_prefix`. */
  method ScanIdentOrUnhandledPrefix(c: Cursor, u: UnicodeData) returns (r: Lexed<TokenKind>)
    requires c.Valid()
    modifies c
    ensures c.Valid()
    ensures var spec := IdentSpec(u, old(c.Chars()));
      (spec.Todo? ==> r == Todo(spec.site))
      && (spec.Done? ==> r == Done(Ident) && Took(c, spec.value.used))
  {
    ghost var s0 := c.Chars();
    c.TakeWhile(IdContinue(u));
    assert c.Chars() == s0[TakeWhileLen(s0, IdContinue(u))..];
    var p := c.PeekFirstChar();
    if p == '#' || p == '"' || p == '\'' {
      r := Todo(UnknownPrefix);
    } else if !IsAscii(p) && u.emoji(p) {
      r := Todo(InvalidIdent);
    } else {
      r := Done(Ident);
    }
  }

  /** `take_decimal_digits`. */
  method TakeDecimalDigits(c: Cursor) returns (hasDigits: bool)
    requires c.Valid()
    modifies c
    ensures c.Valid()
    ensures hasDigits == DecimalDigits(old(c.Chars())).hasDigits
    ensures Took(c, DecimalDigits(old(c.Chars())).used)
  {
    ghost var p0 := c.pos;
    hasDigits := false;
    while true
      invariant c.Valid() && c.resetAt == old(c.resetAt) && p0 <= c.pos
      invariant DecimalDigits(c.src[p0..]).used == c.pos - p0 + DecimalDigits(c.src[c.pos..]).used
      invariant DecimalDigits(c.src[p0..]).hasDigits == (hasDigits || DecimalDigits(c.src[c.pos..]).hasDigits)
      decreases |c.src| - c.pos
    {
      ghost var before := c.Chars();
      var p := c.PeekFirstChar();
      if p == '_' {
        var _ := c.TakeChar();
      } else if '0' <= p <= '9' {
        hasDigits := true;
        var _ := c.TakeChar();
      } else {
        break;
      }
      assert c.Chars() == before[1..];
    }
  }

  /** `take_hexadecimal_digits`. */
  method TakeHexadecimalDigits(c: Cursor) returns (hasDigits: bool)
    requires c.Valid()
    modifies c
    ensures c.Valid()
    ensures hasDigits == HexDigits(old(c.Chars())).hasDigits
    ensures Took(c, HexDigits(old(c.Chars())).used)
  {
    ghost var p0 := c.pos;
    hasDigits := false;
    while true
      invariant c.Valid() && c.resetAt == old(c.resetAt) && p0 <= c.pos
      invariant HexDigits(c.src[p0..]).used == c.pos - p0 + HexDigits(c.src[c.pos..]).used
      invariant HexDigits(c.src[p0..]).hasDigits == (hasDigits || HexDigits(c.src[c.pos..]).hasDigits)
      decreases |c.src| - c.pos
    {
      ghost var before := c.Chars();
      var p := c.PeekFirstChar();
      if p == '_' {
        var _ := c.TakeChar();
      } else if '0' <= p <= '9' || 'a' <= p <= 'f' || 'A' <= p <= 'F' {
        hasDigits := true;
        var _ := c.TakeChar();
      } else {
        break;
      }
      assert c.Chars() == before[1..];
    }
  }

  /** `take_float_exponent`. */
  method TakeFloatExponent(c: Cursor) returns (hasDigits: bool)
    requires c.Valid()
    modifies c
    ensures c.Valid()
    ensures hasDigits == FloatExponent(old(c.Chars())).hasDigits
    ensures Took(c, FloatExponent(old(c.Chars())).used)
  {
    ghost var s0 := c.Chars();
    var first := c.PeekFirstChar();
    if first == '-' || first == '+' {
      var _ := c.TakeChar();
      assert c.Chars() == s0[1..];
    }
    hasDigits := TakeDecimalDigits(c);
  }

  /** The `e` or `E` of an exponent and `take_float_exponent` after it. */
  method ScanExponent(c: Cursor) returns (hasDigits: bool)
    requires c.Valid() && c.pos < |c.src|
    modifies c
    ensures c.Valid()
    ensures hasDigits == FloatExponent(old(c.Chars())[1..]).hasDigits
    ensures Took(c, 1 + FloatExponent(old(c.Chars())[1..]).used)
  {
    ghost var s0 := c.Chars();
    var _ := c.TakeChar();
    assert c.Chars() == s0[1..];
    hasDigits := TakeFloatExponent(c);
  }

  /** `single_queted_string`: whether the character literal is terminated. */
  method ScanSingleQuotedString(c: Cursor) returns (terminated: bool)
    requires c.Valid()
    modifies c
    ensures c.Valid()
    ensures terminated == SingleQuoted(old(c.Chars())).kind
    ensures Took(c, SingleQuoted(old(c.Chars())).used)
  {
    ghost var p0 := c.pos;
    if c.PeekSecondChar() == '\'' && c.PeekFirstChar() != '\\' {
      var _ := c.TakeChar();
      var _ := c.TakeChar();
      return true;
    }
    while true
      invariant c.Valid() && c.resetAt == old(c.resetAt) && p0 <= c.pos
      invariant SingleQuoted(c.src[p0..]) == Scan(CharLoop(c.src[c.pos..]).kind, c.pos - p0 + CharLoop(c.src[c.pos..]).used)
      decreases |c.src| - c.pos
    {
      ghost var before := c.Chars();
      var p := c.PeekFirstChar();
      if p == '\'' {
        var _ := c.TakeChar();
        return true;
      } else if p == '\n' && c.PeekSecondChar() != '\'' {
        break;
      } else if p == EOF_CHAR && c.IsEof() {
        break;
      } else if p == '\\' {
        var _ := c.TakeChar();
        var _ := c.TakeChar();
        assert c.Chars() == before[if |before| >= 2 then 2 else 1..];
      } else {
        var _ := c.TakeChar();
        assert c.Chars() == before[1..];
      }
    }
    terminated := false;
  }

  /** `double_quoted_string`: whether the string literal is terminated. */
  method ScanDoubleQuotedString(c: Cursor) returns (terminated: bool)
    requires c.Valid()
    modifies c
    ensures c.Valid()
    ensures terminated == DoubleQuoted(old(c.Chars())).kind
    ensures Took(c, DoubleQuoted(old(c.Chars())).used)
  {
    ghost var p0 := c.pos;
    while true
      invariant c.Valid() && c.resetAt == old(c.resetAt) && p0 <= c.pos
      invariant DoubleQuoted(c.src[p0..]) == Scan(DoubleQuoted(c.src[c.pos..]).kind, c.pos - p0 + DoubleQuoted(c.src[c.pos..]).used)
      decreases |c.src| - c.pos
    {
      ghost var before := c.Chars();
      var ch := c.TakeChar();
      if ch.None? {
        break;
      }
      if ch.value == '"' {
        return true;
      } else if ch.value == '\\' && (c.PeekFirstChar() == '\\' || c.PeekFirstChar() == '"') {
        var _ := c.TakeChar();
        assert c.Chars() == before[2..];
      } else {
        assert c.Chars() == before[1..];
      }
    }
    terminated := false;
  }

  /** `number`: `first` is the digit already taken. A `0` followed by a
      character that cannot continue a number is the integer `0` (the last
      arm of the Rust code's match on that character); otherwise the
      integer part is read and then the fraction. */
  method ScanNumber(c: Cursor, u: UnicodeData, first: char) returns (r: Lexed<LiteralKind>)
    requires c.Valid()
    modifies c
    ensures c.Valid()
    ensures var spec := NumberSpec(u, first, old(c.Chars()));
      (spec.Todo? ==> r == Todo(spec.site))
      && (spec.Done? ==> r == Done(spec.value.kind) && Took(c, spec.value.used))
  {
    if first == '0' && !ContinuesZero(c.PeekFirstChar()) {
      return Done(Int(Decimal));
    }
    ghost var p0, s0 := c.pos, c.Chars();
    var ip := ScanIntPart(c, first);
    if ip.Todo? {
      return Todo(ip.site);
    }
    assert IntPart(first, s0) == Done(Scan(ip.value, c.pos - p0));
    NumberAfterIntPart(u, first, s0, ip.value, c.pos - p0);
    assert c.Chars() == s0[c.pos - p0..];
    r := ScanFraction(c, u, ip.value);
  }

  /** Once the integer part is scanned, `number` continues with the fraction. */
  lemma NumberAfterIntPart(u: UnicodeData, first: char, s: string, base: Base, used: nat)
    requires !(first == '0' && !ContinuesZero(Peek(s, 0)))
    requires IntPart(first, s) == Done(Scan(base, used))
    ensures used <= |s|
    ensures var fp := FractionPart(u, base, s[used..]);
      NumberSpec(u, first, s) ==
        if fp.Todo? then Todo(fp.site) else Done(Scan(fp.value.kind, used + fp.value.used))
  {
  }

  /** The integer part of `number`: the digits after a `0b`, `0o` or `0x`
      prefix, or the decimal digits that follow `first`. */
  method ScanIntPart(c: Cursor, first: char) returns (r: Lexed<Base>)
    requires c.Valid() && (first == '0' ==> ContinuesZero(c.PeekFirstChar()))
    modifies c
    ensures c.Valid()
    ensures var spec := IntPart(first, old(c.Chars()));
      (spec.Todo? ==> r == Todo(spec.site))
      && (spec.Done? ==> r == Done(spec.value.kind) && Took(c, spec.value.used))
  {
    ghost var s0 := c.Chars();
    var base := Decimal;
    if first == '0' {
      var p := c.PeekFirstChar();
      if p == 'b' || p == 'o' {
        base := if p == 'b' then Binary else Octal;
        var _ := c.TakeChar();
        assert c.Chars() == s0[1..];
        var hasDigits := TakeDecimalDigits(c);
        if !hasDigits {
          return Todo(EmptyInt);
        }
      } else if p == 'x' {
        base := Octal;
        var _ := c.TakeChar();
        assert c.Chars() == s0[1..];
        var hasDigits := TakeHexadecimalDigits(c);
        if !hasDigits {
          return Todo(EmptyInt);
        }
      } else if '0' <= p <= '9' || p == '_' {
        var _ := TakeDecimalDigits(c);
      }
    } else {
      var _ := TakeDecimalDigits(c);
    }
    r := Done(base);
  }

  /** The part of `number` after the integer part: a fraction, an exponent,
      or nothing. */
  method ScanFraction(c: Cursor, u: UnicodeData, base: Base) returns (r: Lexed<LiteralKind>)
    requires c.Valid()
    modifies c
    ensures c.Valid()
    ensures var spec := FractionPart(u, base, old(c.Chars()));
      (spec.Todo? ==> r == Todo(spec.site))
      && (spec.Done? ==> r == Done(spec.value.kind) && Took(c, spec.value.used))
  {
    ghost var s0 := c.Chars();
    var p := c.PeekFirstChar();
    if p == '.' && c.PeekSecondChar() != '.' && !IsIdStart(u, c.PeekSecondChar()) {
      var _ := c.TakeChar();
      ghost var t1 := c.Chars();
      assert t1 == s0[1..];
      if IsAsciiDigit(c.PeekFirstChar()) {
        var _ := TakeDecimalDigits(c);
        ghost var t2 := c.Chars();
        assert t2 == t1[DecimalDigits(t1).used..];
        var q := c.PeekFirstChar();
        if q == 'e' || q == 'E' {
          var hasDigits := ScanExponent(c);
          if !hasDigits {
            return Todo(EmptyExponent);
          }
        }
      }
      r := Done(Float(base));
    } else if p == 'e' || p == 'E' {
      var hasDigits := ScanExponent(c);
      if !hasDigits {
        return Todo(EmptyExponent);
      }
      r := Done(Float(base));
    } else {
      r := Done(Int(base));
    }
  }

  /** `char`: the opening quote is already taken. */
  method ScanChar(c: Cursor) returns (r: Lexed<TokenKind>)
    requires c.Valid()
    modifies c
    ensures c.Valid()
    ensures var spec := SingleQuoted(old(c.Chars()));
      (!spec.kind ==> r == Todo(UnterminatedChar))
      && (spec.kind ==> r == Done(Literal(Char)) && Took(c, spec.used))
  {
    var terminated := ScanSingleQuotedString(c);
    if !terminated {
      return Todo(UnterminatedChar);
    }
    r := Done(Literal(Char));
  }

  /** `next_token`: takes one lexeme and reports its kind and its length in
      bytes, then starts the next token. At the end of the input it reports
      `Eof` of length 0 and changes nothing. */
  method NextToken(c: Cursor, u: UnicodeData) returns (r: Lexed<Token>)
    requires c.Valid()
    modifies c
    ensures c.Valid()
    ensures var spec := NextTokenSpec(u, old(c.Chars()));
      (spec.Todo? ==> r == Todo(spec.site))
      && (spec.Done? && spec.value.kind == Eof ==> r == Done(Token(Eof, 0)) && Took(c, 0))
      && (spec.Done? && spec.value.kind != Eof ==>
            c.pos == old(c.pos) + spec.value.used && c.resetAt == c.pos
            && r == Done(Token(spec.value.kind, Utf8Len(c.src[old(c.resetAt)..c.pos]) % 0x1_0000_0000)))
  {
    ghost var s0 := c.Chars();
    var firstChar := c.TakeChar();
    if firstChar.None? {
      return Done(Token(Eof, 0));
    }
    var first := firstChar.value;
    assert c.Chars() == s0[1..];
    var kind := ScanAfterFirst(c, u, first);
    if kind.Todo? {
      return Todo(kind.site);
    }
    r := Done(Token(kind.value, c.PosInToken()));
    c.ResetPosInToken();
  }

  /** The match of `next_token` on the first character, which is taken. */
  method ScanAfterFirst(c: Cursor, u: UnicodeData, first: char) returns (r: Lexed<TokenKind>)
    requires c.Valid()
    modifies c
    ensures c.Valid()
    ensures var spec := AfterFirst(u, first, old(c.Chars()));
      (spec.Todo? ==> r == Todo(spec.site))
      && (spec.Done? ==> r == Done(spec.value.kind) && Took(c, spec.value.used))
  {
    if first == '/' {
      var p := c.PeekFirstChar();
      if p == '/' {
        var k := ScanLineComment(c);
        r := Done(k);
      } else if p == '*' {
        var k := ScanBlockComment(c);
        r := Done(k);
      } else {
        r := Done(Slash);
      }
    } else if IsWhitespace(first) {
      var k := ScanWhitespace(c);
      r := Done(k);
    } else if IsIdStart(u, first) {
      r := ScanIdentOrUnhandledPrefix(c, u);
    } else if '0' <= first <= '9' {
      var n := ScanNumber(c, u, first);
      r := if n.Todo? then Todo(n.site) else Done(Literal(n.value));
    } else if OneChar(first).Some? {
      r := Done(OneChar(first).value);
    } else if first == '\'' {
      r := ScanChar(c);
    } else if first == '"' {
      var terminated := ScanDoubleQuotedString(c);
      if !terminated {
        return Todo(UnterminatedString);
      }
      r := Done(Literal(Str));
    } else {
      r := Done(Unknown);
    }
  }

  // What the scanning functions promise, proved once for all inputs.

  /** A line comment runs up to, not including, the first newline, or to the
      end of the input. */
  lemma LineCommentStopsAtNewline(s: string)
    requires s != []
    ensures forall i :: 1 <= i < LineCommentUsed(s) ==> s[i] != '\n'
    ensures LineCommentUsed(s) == |s| || s[LineCommentUsed(s)] == '\n'
  {
    TakeWhileLenMaximal(s[1..], NotNewline);
    var n := TakeWhileLen(s[1..], NotNewline);
    forall i | 1 <= i < 1 + n ensures s[i] != '\n' {
      assert s[i] == s[1..][i - 1];
    }
  }

  /** A block comment scan ends at the end of the input or right after a `*` `/`. */
  lemma {:induction false} BlockScanEnds(s: string, i: nat, depth: nat)
    requires depth >= 1 && i <= |s|
    ensures var n := BlockScan(s, i, depth);
      i + n == |s| || (2 <= n && s[i + n - 2] == '*' && s[i + n - 1] == '/')
    decreases |s| - i
  {
    if i == |s| {
    } else if s[i] == '/' && Peek(s, i + 1) == '*' {
      BlockScanEnds(s, i + 2, depth + 1);
    } else if s[i] == '*' && Peek(s, i + 1) == '/' {
      if depth > 1 {
        BlockScanEnds(s, i + 2, depth - 1);
      }
    } else {
      BlockScanEnds(s, i + 1, depth);
    }
  }

  /** Whether `*` `/` occurs at index `k` of `s`. */
  predicate CloserAt(s: string, k: nat) {
    k + 1 < |s| && s[k] == '*' && s[k + 1] == '/'
  }

  /** Whether `/` `*` occurs at index `k` of `s`. */
  predicate OpenerAt(s: string, k: nat) {
    k + 1 < |s| && s[k] == '/' && s[k + 1] == '*'
  }

  /** Without nested openers, an outermost comment ends right after the first
      `*` `/`, and an unterminated one takes the rest of the input. */
  lemma {:induction false} BlockScanFlat(s: string, i: nat)
    requires i <= |s|
    requires forall k :: i <= k < |s| ==> !OpenerAt(s, k)
    ensures var n := BlockScan(s, i, 1);
      (forall k :: i <= k && k + 2 < i + n ==> !CloserAt(s, k))
      && (i + n == |s| || (2 <= n && CloserAt(s, i + n - 2)))
    decreases |s| - i
  {
    if i < |s| {
      assert !OpenerAt(s, i);
      if s[i] == '*' && Peek(s, i + 1) == '/' {
        assert CloserAt(s, i);
      } else {
        assert !CloserAt(s, i);
        BlockScanFlat(s, i + 1);
      }
    }
  }

  /** A nested comment needs one closer per opener: at depth above one a
      closer does not end the scan. */
  lemma NestedCloserContinues(s: string, i: nat, depth: nat)
    requires depth >= 2 && CloserAt(s, i)
    ensures BlockScan(s, i, depth) == 2 + BlockScan(s, i + 2, depth - 1)
  {
  }

  /** How many characters the block comment loop takes in one step at `k`:
      two for an opener or a closer, one for any other character. */
  function StepLen(s: string, k: nat): nat
    requires k < |s|
  {
    if OpenerAt(s, k) || CloserAt(s, k) then 2 else 1
  }

  /** Whether the steps of the block comment loop from `i` land on `k`. */
  predicate StepsTo(s: string, i: nat, k: nat)
    requires i <= k <= |s|
    decreases k - i
  {
    i == k || (i + StepLen(s, i) <= k && StepsTo(s, i + StepLen(s, i), k))
  }

  /** Openers minus closers among the steps from `i` to `k`. */
  function Net(s: string, i: nat, k: nat): int
    requires i <= k <= |s| && StepsTo(s, i, k)
    decreases k - i
  {
    if i == k then 0
    else (if OpenerAt(s, i) then 1 else if CloserAt(s, i) then -1 else 0) + Net(s, i + StepLen(s, i), k)
  }

  /** Nested block comments: started at nesting `depth`, the scan ends on a
      step boundary, the nesting stays at least one at every boundary before
      the end, and it ends either at the end of the input or right after the
      closer that brings the nesting to zero. */
  lemma {:induction false} BlockScanDepth(s: string, i: nat, depth: nat)
    requires depth >= 1 && i <= |s|
    ensures var n := BlockScan(s, i, depth);
      StepsTo(s, i, i + n)
      && (forall k :: i < k < i + n && StepsTo(s, i, k) ==> depth + Net(s, i, k) >= 1)
      && (i + n == |s| || depth + Net(s, i, i + n) == 0)
    decreases |s| - i
  {
    if i < |s| {
      if OpenerAt(s, i) {
        BlockScanOpener(s, i, depth);
        BlockScanDepth(s, i + 2, depth + 1);
        BlockStepNet(s, i, depth, depth + 1, BlockScan(s, i, depth));
      } else if CloserAt(s, i) && depth > 1 {
        NestedCloserContinues(s, i, depth);
        BlockScanDepth(s, i + 2, depth - 1);
        BlockStepNet(s, i, depth, depth - 1, BlockScan(s, i, depth));
      } else if CloserAt(s, i) {
        assert BlockScan(s, i, depth) == 2;
        assert StepsTo(s, i + 2, i + 2);
      } else {
        BlockScanOther(s, i, depth);
        BlockScanDepth(s, i + 1, depth);
        BlockStepNet(s, i, depth, depth, BlockScan(s, i, depth));
      }
    }
  }

  /** One step of the block comment loop: what holds from the step's end
      at the nesting after it holds from its start. */
  lemma BlockStepNet(s: string, i: nat, depth: nat, next: nat, e: nat)
    requires i < |s| && depth >= 1 && next >= 1
    requires next == depth + (if OpenerAt(s, i) then 1 else if CloserAt(s, i) then -1 else 0)
    requires var j := i + StepLen(s, i);
      j <= i + e <= |s| && StepsTo(s, j, i + e)
      && (forall k :: j < k < i + e && StepsTo(s, j, k) ==> next + Net(s, j, k) >= 1)
      && (i + e == |s| || next + Net(s, j, i + e) == 0)
    ensures StepsTo(s, i, i + e)
      && (forall k :: i < k < i + e && StepsTo(s, i, k) ==> depth + Net(s, i, k) >= 1)
      && (i + e == |s| || depth + Net(s, i, i + e) == 0)
  {
    var j := i + StepLen(s, i);
    forall k | i < k < i + e && StepsTo(s, i, k) ensures depth + Net(s, i, k) >= 1 {
      assert StepsTo(s, j, k);
      assert Net(s, i, k) == Net(s, j, k) + (next - depth);
    }
  }

  /** `take_decimal_digits` takes the maximal run of digits and `_`, and
      reports whether a digit was among it. */
  lemma {:induction false} DecimalDigitsRun(s: string)
    ensures var d := DecimalDigits(s);
      (forall i :: 0 <= i < d.used ==> IsDecimalRunChar(s[i]))
      && (d.used == |s| || !IsDecimalRunChar(s[d.used]))
      && (d.hasDigits <==> exists i :: 0 <= i < d.used && IsAsciiDigit(s[i]))
  {
    if s != [] && IsDecimalRunChar(s[0]) {
      DecimalDigitsRun(s[1..]);
      var d, r := DecimalDigits(s), DecimalDigits(s[1..]);
      forall i | 1 <= i < d.used ensures IsDecimalRunChar(s[i]) {
        assert s[i] == s[1..][i - 1];
      }
      if r.hasDigits {
        var j :| 0 <= j < r.used && IsAsciiDigit(s[1..][j]);
        assert IsAsciiDigit(s[j + 1]);
      }
      if exists i :: 0 <= i < d.used && IsAsciiDigit(s[i]) {
        var j :| 0 <= j < d.used && IsAsciiDigit(s[j]);
        if j > 0 {
          assert IsAsciiDigit(s[1..][j - 1]);
        }
      }
    }
  }

  /** `take_hexadecimal_digits` takes the maximal run of hex digits and `_`,
      and reports whether a hex digit was among it. */
  lemma {:induction false} HexDigitsRun(s: string)
    ensures var d := HexDigits(s);
      (forall i :: 0 <= i < d.used ==> IsHexRunChar(s[i]))
      && (d.used == |s| || !IsHexRunChar(s[d.used]))
      && (d.hasDigits <==> exists i :: 0 <= i < d.used && IsAsciiHexDigit(s[i]))
  {
    if s != [] && IsHexRunChar(s[0]) {
      HexDigitsRun(s[1..]);
      var d, r := HexDigits(s), HexDigits(s[1..]);
      forall i | 1 <= i < d.used ensures IsHexRunChar(s[i]) {
        assert s[i] == s[1..][i - 1];
      }
      if r.hasDigits {
        var j :| 0 <= j < r.used && IsAsciiHexDigit(s[1..][j]);
        assert IsAsciiHexDigit(s[j + 1]);
      }
      if exists i :: 0 <= i < d.used && IsAsciiHexDigit(s[i]) {
        var j :| 0 <= j < d.used && IsAsciiHexDigit(s[j]);
        if j > 0 {
          assert IsAsciiHexDigit(s[1..][j - 1]);
        }
      }
    }
  }

  /** The base of a literal kind, where it has one. */
  function BaseOf(k: LiteralKind): Option<Base> {
    match k
    case Int(b) => Some(b)
    case Float(b) => Some(b)
    case _ => None
  }

  /** `0b` and `0o` select `Binary` and `Octal` and need a digit after the
      prefix; `0x` selects `Octal` too and needs a hex digit. */
  lemma BasePrefixes(u: UnicodeData, s: string)
    requires s != [] && (s[0] == 'b' || s[0] == 'o' || s[0] == 'x')
    ensures var r := NumberSpec(u, '0', s);
      var d := if s[0] == 'x' then HexDigits(s[1..]) else DecimalDigits(s[1..]);
      (r.Done? ==> BaseOf(r.value.kind) == Some(if s[0] == 'b' then Binary else Octal)
                   && 1 + d.used <= r.value.used)
      && (!d.hasDigits <==> r == Todo(EmptyInt))
  {
    PrefixedIntPart(s);
    assert ContinuesZero(Peek(s, 0));
    var ip := IntPart('0', s);
    if ip.Done? {
      FractionKeepsBase(u, ip.value.kind, s[ip.value.used..]);
    }
  }

  /** The integer part after `0b`, `0o` or `0x`. */
  lemma PrefixedIntPart(s: string)
    requires s != [] && (s[0] == 'b' || s[0] == 'o' || s[0] == 'x')
    ensures var d := if s[0] == 'x' then HexDigits(s[1..]) else DecimalDigits(s[1..]);
      IntPart('0', s) == if d.hasDigits then Done(Scan(if s[0] == 'b' then Binary else Octal, 1 + d.used)) else Todo(EmptyInt)
  {
  }

  /** A fraction or an exponent keeps the base of the integer part. */
  lemma FractionKeepsBase(u: UnicodeData, base: Base, t: string)
    ensures var r := FractionPart(u, base, t);
      r.Done? ==> BaseOf(r.value.kind) == Some(base)
  {
  }

  /** Without a `0b`, `0o` or `0x` prefix, a number is decimal. */
  lemma {:induction false} UnprefixedIsDecimal(u: UnicodeData, first: char, s: string)
    requires !(first == '0' && s != [] && (s[0] == 'b' || s[0] == 'o' || s[0] == 'x'))
    ensures var r := NumberSpec(u, first, s);
      r.Done? ==> BaseOf(r.value.kind) == Some(Decimal)
  {
    if !(first == '0' && !ContinuesZero(Peek(s, 0))) {
      var ip := IntPart(first, s);
      if ip.Done? {
        assert ip.value.kind == Decimal;
        FractionKeepsBase(u, Decimal, s[ip.value.used..]);
      }
    }
  }

  /** A `0` followed by anything but a digit, `_`, a prefix letter, `.`, `e`
      or `E` is a decimal integer of that one digit. */
  lemma LoneZero(u: UnicodeData, s: string)
    requires !ContinuesZero(Peek(s, 0))
    ensures NumberSpec(u, '0', s) == Done(Scan(Int(Decimal), 0))
  {
  }

  /** After the integer part, `.` starts a fraction only when the next
      character is neither `.` (a range) nor an identifier start (a field or
      method); `e` or `E` starts an exponent; anything else ends an integer. */
  lemma FractionDisambiguation(u: UnicodeData, base: Base, t: string)
    ensures var r := FractionPart(u, base, t);
      var dot := Peek(t, 0) == '.';
      var next := Peek(t, 1);
      (dot && (next == '.' || IsIdStart(u, next)) ==> r == Done(Scan(Int(base), 0)))
      && (dot && next != '.' && !IsIdStart(u, next) ==> r.Done? ==> r.value.kind == Float(base) && 1 <= r.value.used)
      && (Peek(t, 0) == 'e' || Peek(t, 0) == 'E' ==> r.Done? ==> r.value.kind == Float(base) && 2 <= r.value.used)
      && (!dot && Peek(t, 0) != 'e' && Peek(t, 0) != 'E' ==> r == Done(Scan(Int(base), 0)))
      && (r.Todo? ==> r.site == EmptyExponent)
  {
  }

  /** An exponent right after the integer part must have a digit: `number`
      stops at the empty-exponent `todo!()` exactly when none follows the
      `e` or `E` and its sign, and otherwise takes the whole exponent. */
  lemma ExponentNeedsDigits(u: UnicodeData, base: Base, t: string)
    requires Peek(t, 0) == 'e' || Peek(t, 0) == 'E'
    ensures t != []
    ensures var r := FractionPart(u, base, t); var e := FloatExponent(t[1..]);
      (r.Done? <==> e.hasDigits)
      && (r.Done? ==> r.value == Scan(Float(base), 1 + e.used))
      && (!r.Done? ==> r == Todo(EmptyExponent))
  {
  }

  /** After a fraction `.` and its digits, an `e` or `E` must be followed by
      exponent digits: `number` stops at the empty-exponent `todo!()`
      exactly when there are none; without `e` or `E` the float ends after
      the fraction digits. */
  lemma FractionExponentNeedsDigits(u: UnicodeData, base: Base, t: string)
    requires Peek(t, 0) == '.' && Peek(t, 1) != '.' && !IsIdStart(u, Peek(t, 1))
    requires IsAsciiDigit(Peek(t, 1))
    ensures |t| >= 2
    ensures var r := FractionPart(u, base, t);
      var d := DecimalDigits(t[1..]);
      var t2 := t[1 + d.used..];
      d.hasDigits && 1 <= d.used
      && ((Peek(t2, 0) == 'e' || Peek(t2, 0) == 'E') ==>
        t2 != []
        && (r.Done? <==> FloatExponent(t2[1..]).hasDigits)
        && (r.Done? ==> r.value == Scan(Float(base), 1 + d.used + 1 + FloatExponent(t2[1..]).used))
        && (!r.Done? ==> r == Todo(EmptyExponent)))
      && (Peek(t2, 0) != 'e' && Peek(t2, 0) != 'E' ==> r == Done(Scan(Float(base), 1 + d.used)))
  {
    var t1 := t[1..];
    assert Peek(t1, 0) == t[1];
    assert t1[DecimalDigits(t1).used..] == t[1 + DecimalDigits(t1).used..];
  }

  /** A character literal of one character (not a backslash) takes exactly it
      and the closing quote. */
  lemma OneCharLiteral(s: string)
    requires |s| >= 2 && s[1] == '\'' && s[0] != '\\'
    ensures SingleQuoted(s) == Scan(true, 2)
  {
  }

  /** The character-literal loop ends right after a quote, or stops at the
      end of the input or before a newline that no quote follows. */
  lemma {:induction false} CharLoopEnds(s: string)
    ensures var r := CharLoop(s);
      (r.kind ==> 1 <= r.used && s[r.used - 1] == '\'')
      && (!r.kind ==> r.used == |s| || (s[r.used] == '\n' && Peek(s, r.used + 1) != '\''))
    decreases |s|
  {
    if s == [] || s[0] == '\'' || (s[0] == '\n' && Peek(s, 1) != '\'') {
    } else {
      var k := if s[0] == '\\' && |s| >= 2 then 2 else 1;
      CharLoopEnds(s[k..]);
      var r := CharLoop(s[k..]);
      if r.kind {
        assert s[k + r.used - 1] == s[k..][r.used - 1];
      } else if r.used < |s[k..]| {
        assert s[k + r.used] == s[k..][r.used];
        assert Peek(s, k + r.used + 1) == Peek(s[k..], r.used + 1);
      }
    }
  }

  /** A string literal ends right after a quote, or takes the rest of the input. */
  lemma {:induction false} DoubleQuotedEnds(s: string)
    ensures var r := DoubleQuoted(s);
      (r.kind ==> 1 <= r.used && s[r.used - 1] == '"')
      && (!r.kind ==> r.used == |s|)
    decreases |s|
  {
    if s != [] && s[0] != '"' {
      var k := if s[0] == '\\' && (Peek(s, 1) == '\\' || Peek(s, 1) == '"') then 2 else 1;
      DoubleQuotedEnds(s[k..]);
      var r := DoubleQuoted(s[k..]);
      if r.kind {
        assert s[k + r.used - 1] == s[k..][r.used - 1];
      }
    }
  }

  /** Without backslashes, a string literal ends at its first quote. */
  lemma {:induction false} DoubleQuotedPlain(s: string)
    requires forall i :: 0 <= i < |s| ==> s[i] != '\\'
    ensures var r := DoubleQuoted(s);
      (r.kind <==> '"' in s)
      && (forall i :: 0 <= i < r.used - 1 ==> s[i] != '"')
    decreases |s|
  {
    if s != [] && s[0] != '"' {
      DoubleQuotedPlain(s[1..]);
      assert forall i :: 1 <= i < |s| ==> s[i] == s[1..][i - 1];
      assert '"' in s <==> '"' in s[1..];
    }
  }

  /** Whether the character at `q` is escaped: the run of backslashes right
      before it has odd length. */
  predicate Escaped(s: string, q: nat)
    requires q <= |s|
    decreases q
  {
    q > 0 && s[q - 1] == '\\' && !Escaped(s, q - 1)
  }

  /** A quote at `q` that no backslash escapes: it closes a string literal. */
  predicate ClosingQuote(s: string, q: nat)
  {
    q < |s| && s[q] == '"' && !Escaped(s, q)
  }

  /** Scanning a string literal from `i`, where `i` is not in the middle of
      an escape sequence, ends right after the first closing quote at or
      after `i`, or takes the rest of the input when there is none. */
  lemma {:induction false} DoubleQuotedFrom(s: string, i: nat)
    requires i <= |s|
    requires Escaped(s, i) ==> i == |s| || (s[i] != '"' && s[i] != '\\')
    ensures var r := DoubleQuoted(s[i..]);
      (r.kind ==>
        1 <= r.used && ClosingQuote(s, i + r.used - 1)
        && forall q :: i <= q < i + r.used - 1 ==> !ClosingQuote(s, q))
      && (!r.kind ==>
        i + r.used == |s| && forall q :: i <= q < |s| ==> !ClosingQuote(s, q))
    decreases |s| - i
  {
    if i < |s| && s[i] != '"' {
      var t := s[i..];
      if i + 1 < |s| {
        assert Peek(t, 1) == s[i + 1];
      } else {
        assert Peek(t, 1) == EOF_CHAR;
      }
      if s[i] == '\\' && (Peek(t, 1) == '\\' || Peek(t, 1) == '"') {
        assert Escaped(s, i + 1) && !Escaped(s, i + 2);
        assert t[2..] == s[i + 2..];
        DoubleQuotedFrom(s, i + 2);
      } else {
        assert t[1..] == s[i + 1..];
        DoubleQuotedFrom(s, i + 1);
      }
    }
  }

  /** A string literal ends right after its first quote that no backslash
      escapes, and is unterminated exactly when there is no such quote. */
  lemma DoubleQuotedFirstUnescaped(s: string)
    ensures var r := DoubleQuoted(s);
      (r.kind <==> exists q :: ClosingQuote(s, q))
      && (r.kind ==>
        ClosingQuote(s, r.used - 1)
        && forall q :: 0 <= q < r.used - 1 ==> !ClosingQuote(s, q))
      && (!r.kind ==> r.used == |s|)
  {
    assert s[0..] == s;
    DoubleQuotedFrom(s, 0);
  }

  /** A place where the character-literal loop stops: an unescaped quote,
      or an unescaped newline that no quote follows. */
  predicate CharStop(s: string, q: nat)
  {
    q < |s| && !Escaped(s, q)
    && (s[q] == '\'' || (s[q] == '\n' && Peek(s, q + 1) != '\''))
  }

  /** `r` is what the character-literal loop gives from `i` when it runs to
      the first stop at or after `i`: it ends after that stop when it is a
      quote, stops before it when it is a newline, and takes the rest of the
      input when there is none. */
  predicate RunsToStop(s: string, i: nat, r: Scan<bool>)
  {
    var e := i + r.used;
    e <= |s|
    && (r.kind ==>
      i < e && s[e - 1] == '\'' && CharStop(s, e - 1)
      && forall q :: i <= q < e - 1 ==> !CharStop(s, q))
    && (!r.kind ==>
      (e == |s| || (s[e] == '\n' && CharStop(s, e)))
      && forall q :: i <= q < e ==> !CharStop(s, q))
  }

  /** Stepping over characters that are not stops keeps `RunsToStop`. */
  lemma RunsToStopStep(s: string, i: nat, k: nat, r: Scan<bool>)
    requires forall q :: i <= q < i + k ==> !CharStop(s, q)
    requires RunsToStop(s, i + k, r)
    ensures RunsToStop(s, i, Scan(r.kind, k + r.used))
  {
  }

  /** From a position `i` that no backslash escapes, the character-literal
      loop runs to the first stop. */
  lemma {:induction false} CharLoopFrom(s: string, i: nat)
    requires i <= |s|
    requires i < |s| ==> !Escaped(s, i)
    ensures RunsToStop(s, i, CharLoop(s[i..]))
    decreases |s| - i
  {
    if i < |s| {
      var t := s[i..];
      assert Peek(t, 1) == Peek(s, i + 1);
      assert t[0] == s[i];
      if s[i] == '\'' {
        assert CharLoop(t) == Scan(true, 1);
        assert CharStop(s, i);
      } else if s[i] == '\n' && Peek(t, 1) != '\'' {
        assert CharLoop(t) == Scan(false, 0);
        assert CharStop(s, i);
      } else if s[i] == '\\' && i + 1 < |s| {
        assert !CharStop(s, i);
        assert Escaped(s, i + 1) && !Escaped(s, i + 2);
        assert !CharStop(s, i + 1);
        assert t[2..] == s[i + 2..];
        CharLoopFrom(s, i + 2);
        RunsToStopStep(s, i, 2, CharLoop(s[i + 2..]));
      } else {
        assert !CharStop(s, i);
        assert t[1..] == s[i + 1..];
        assert s[i] == '\\' ==> i + 1 == |s|;
        assert i + 1 < |s| ==> !Escaped(s, i + 1);
        CharLoopFrom(s, i + 1);
        RunsToStopStep(s, i, 1, CharLoop(s[i + 1..]));
      }
    }
  }

  /** The character-literal loop runs to the first stop in the text: it is a
      literal exactly when that stop is a quote, and then ends right after it. */
  lemma CharLoopFirstStop(s: string)
    ensures var r := CharLoop(s);
      (r.kind ==>
        s[r.used - 1] == '\'' && CharStop(s, r.used - 1)
        && forall q :: 0 <= q < r.used - 1 ==> !CharStop(s, q))
      && (!r.kind ==>
        (r.used == |s| || (s[r.used] == '\n' && CharStop(s, r.used)))
        && forall q :: 0 <= q < r.used ==> !CharStop(s, q))
  {
    assert s[0..] == s;
    CharLoopFrom(s, 0);
  }

  /** A whitespace token is the maximal run of whitespace at the cursor. */
  lemma WhitespaceToken(u: UnicodeData, s: string)
    requires s != [] && IsWhitespace(s[0])
    ensures var r := NextTokenSpec(u, s);
      r.Done? && r.value.kind == Whitespace
      && (forall i :: 0 <= i < r.value.used ==> IsWhitespace(s[i]))
      && (r.value.used == |s| || !IsWhitespace(s[r.value.used]))
  {
    TakeWhileLenMaximal(s[1..], IsWhitespace);
    var n := TakeWhileLen(s[1..], IsWhitespace);
    forall i | 1 <= i < 1 + n ensures IsWhitespace(s[i]) {
      assert s[i] == s[1..][i - 1];
    }
  }

  /** An identifier is the maximal run of `is_id_countinue` characters after
      its start; the character after the run decides the outcome: `#`, `"`
      or `'` is the unknown-prefix `todo!()`, a non-ASCII emoji is the
      invalid-identifier `todo!()`, and anything else ends an `Ident`. */
  lemma IdentToken(u: UnicodeData, s: string)
    requires s != [] && s[0] != '/' && !IsWhitespace(s[0]) && IsIdStart(u, s[0])
    ensures var r := NextTokenSpec(u, s);
      var n := 1 + TakeWhileLen(s[1..], IdContinue(u));
      var p := Peek(s, n);
      var prefix := p == '#' || p == '"' || p == '\'';
      n <= |s|
      && (forall i :: 1 <= i < n ==> IsIdContinue(u, s[i]))
      && (n == |s| || !IsIdContinue(u, s[n]))
      && (r == Todo(UnknownPrefix) <==> prefix)
      && (r == Todo(InvalidIdent) <==> !prefix && !IsAscii(p) && u.emoji(p))
      && (r.Done? <==> !prefix && (IsAscii(p) || !u.emoji(p)))
      && (r.Done? ==> r.value == Scan(Ident, n))
  {
    var t := s[1..];
    TakeWhileLenMaximal(t, IdContinue(u));
    var m := TakeWhileLen(t, IdContinue(u));
    forall i | 1 <= i < 1 + m ensures IsIdContinue(u, s[i]) {
      assert s[i] == t[i - 1];
    }
    assert Peek(s, 1 + m) == Peek(t, m);
  }

  /** `:` lexes as `Dollar`, and no character lexes as `Colon`. */
  lemma ColonIsDollar(u: UnicodeData, s: string)
    requires s != []
    ensures s[0] == ':' ==> NextTokenSpec(u, s) == Done(Scan(Dollar, 1))
    ensures NextTokenSpec(u, s).Done? ==> NextTokenSpec(u, s).value.kind != Colon
  {
  }

  /** As written, `0x` selects `Octal`: `0x1A` is one octal integer token of
      four characters, whose digits the parser's reader then rejects. */
  lemma HexPrefixIsOctal(u: UnicodeData)
    ensures NextTokenSpec(u, "0x1A") == Done(Scan(Literal(Int(Octal)), 4))
  {
    var s := "0x1A";
    assert s[1..] == "x1A" && s[1..][1..] == "1A";
    assert HexDigits("1A") == Digits(2, true) by {
      assert "1A"[1..] == "A" && "A"[1..] == [];
    }
    assert IntPart('0', "x1A") == Done(Scan(Octal, 3));
    assert "x1A"[3..] == [];
  }

  /** A `Binary` or `Octal` number starts with `0` and a prefix letter, so
      its first two characters are ASCII. */
  lemma BasedLiteralPrefix(u: UnicodeData, s: string)
    ensures var r := NextTokenSpec(u, s);
      r.Done? && r.value.kind.Literal? && BaseOf(r.value.kind.kind).Some? && Prefixed(BaseOf(r.value.kind.kind).value) ==>
        2 <= r.value.used && s[0] == '0' && (s[1] == 'b' || s[1] == 'o' || s[1] == 'x')
  {
    if s != [] && IsAsciiDigit(s[0]) && !IsIdStart(u, s[0]) {
      var t := s[1..];
      if s[0] == '0' && t != [] && (t[0] == 'b' || t[0] == 'o' || t[0] == 'x') {
        BasePrefixes(u, t);
      } else {
        UnprefixedIsDecimal(u, s[0], t);
      }
    }
  }

  /** A number is an integer or a float, never a character or a string. */
  lemma NumberKinds(u: UnicodeData, first: char, s: string)
    ensures var r := NumberSpec(u, first, s);
      r.Done? ==> r.value.kind.Int? || r.value.kind.Float?
  {
  }

  /** A character literal starts and ends with `'` and has at least its two
      quotes. */
  lemma CharLiteralEnds(u: UnicodeData, s: string)
    requires NextTokenSpec(u, s).Done? && NextTokenSpec(u, s).value.kind == Literal(Char)
    ensures var n := NextTokenSpec(u, s).value.used;
      2 <= n && s[0] == '\'' && s[n - 1] == '\''
  {
    var t := s[1..];
    assert s[0] == '\'' by {
      if IsAsciiDigit(s[0]) {
        NumberKinds(u, s[0], t);
      }
    }
    if !(Peek(t, 1) == '\'' && Peek(t, 0) != '\\') {
      CharLoopEnds(t);
    }
  }

  /** A string literal starts and ends with `"` and has at least its two
      quotes. */
  lemma StrLiteralEnds(u: UnicodeData, s: string)
    requires NextTokenSpec(u, s).Done? && NextTokenSpec(u, s).value.kind == Literal(Str)
    ensures var n := NextTokenSpec(u, s).value.used;
      2 <= n && s[0] == '"' && s[n - 1] == '"'
  {
    assert s[0] == '"' by {
      if IsAsciiDigit(s[0]) {
        NumberKinds(u, s[0], s[1..]);
      }
    }
    DoubleQuotedEnds(s[1..]);
  }

}
