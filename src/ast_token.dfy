/** The tokens the parser sees (`ast::token`): their kinds, the table that
    glues two adjacent punctuation tokens into one, the table that splits a
    compound token back into two, and the punctuation classification. */
module AstToken {
  import opened Std
  import opened SourceIdx

  datatype BinOpToken = Plus | Minus | Star | Slash | Percent | Peak | And | Or | Shl | Shr

  datatype Delimiter = Parenthesis | Brace | Bracket | Invisible

  datatype LitKind = Char | Str | Float | Int | Err

  datatype Lit = Lit(kind: LitKind, symbol: Symbol)

  datatype CommentType = Line | Block

  datatype TokenKind =
    | Eq | Lt | Le | EqEq | Ne | Ge | Gt | AndAnd | OrOr | Not | Tilde
    | BinOp(op: BinOpToken)
    | BinOpEq(op: BinOpToken)
    | At | Dot | DotDot | DotDotDot | DotDotEq | Comma | Semi | Colon | DoubleColon
    | RArrow | LArrow | FatArrow | Hashtag | Dollar | Question | SingleQote
    | OpenDelim(delim: Delimiter)
    | CloseDelim(delim: Delimiter)
    | Literal(lit: Lit)
    | Comment(commentType: CommentType)
    | Ident(name: Symbol)
    | Eof

  datatype Token = Token(kind: TokenKind, span: SrcData)

  /** `TokenKind::lit`. */
  function MkLit(kind: LitKind, symbol: Symbol): (k: TokenKind)
    ensures k.Literal? && k.lit.kind == kind && k.lit.symbol == symbol
  {
    Literal(Lit(kind, symbol))
  }

  /** `Token::dummy`: a `?` with the dummy span. */
  function Dummy(): (t: Token)
    ensures t.kind == Question && t.span == DUMMY_SRC_DATA
    ensures IsPunct(t.kind)
  {
    Token(Question, DUMMY_SRC_DATA)
  }

  /** `TokenKind::split_double_token`: a compound token as the two tokens it
      is made of. */
  function SplitDoubleToken(k: TokenKind): Option<(TokenKind, TokenKind)> {
    match k
    case Le => Some((Lt, Eq))
    case EqEq => Some((Eq, Eq))
    case Ne => Some((Not, Eq))
    case Ge => Some((Gt, Eq))
    case AndAnd => Some((BinOp(And), BinOp(And)))
    case OrOr => Some((BinOp(Or), BinOp(Or)))
    case BinOpEq(op) => Some((BinOp(op), Eq))
    case DotDot => Some((Dot, Dot))
    case DotDotDot => Some((Dot, DotDot))
    case DoubleColon => Some((Colon, Colon))
    case RArrow => Some((BinOp(Minus), Gt))
    case LArrow => Some((Lt, BinOp(Minus)))
    case FatArrow => Some((Eq, Gt))
    case _ => None
  }

  /** The kind part of `Token::glue`. */
  function GlueKind(a: TokenKind, b: TokenKind): Option<TokenKind> {
    match (a, b)
    case (Eq, Eq) => Some(EqEq)
    case (Eq, Gt) => Some(FatArrow)
    case (Lt, Eq) => Some(Le)
    case (Lt, Lt) => Some(BinOp(Shl))
    case (Lt, Le) => Some(BinOpEq(Shl))
    case (Lt, BinOp(Minus)) => Some(LArrow)
    case (Gt, Eq) => Some(Ge)
    case (Gt, Gt) => Some(BinOp(Shr))
    case (Gt, Ge) => Some(BinOpEq(Shr))
    case (Not, Eq) => Some(Ne)
    case (BinOp(op), Eq) => Some(BinOpEq(op))
    case (BinOp(And), BinOp(And)) => Some(AndAnd)
    case (BinOp(Or), BinOp(Or)) => Some(OrOr)
    case (BinOp(Minus), Gt) => Some(RArrow)
    case (Dot, Dot) => Some(DotDot)
    case (Dot, DotDot) => Some(DotDotDot)
    case (DotDot, Dot) => Some(DotDotDot)
    case (DotDot, Eq) => Some(DotDotEq)
    case (Colon, Colon) => Some(DoubleColon)
    case _ => None
  }

  /** `Token::glue`: the glued token spans both of its parts, in the context
      of the first. */
  function Glue(a: Token, b: Token): (r: Option<Token>)
    ensures r.Some? <==> GlueKind(a.kind, b.kind).Some?
    ensures r.Some? ==> r.value.kind == GlueKind(a.kind, b.kind).value
    ensures r.Some? ==> r.value.span == Combine(a.span, b.span)
  {
    match GlueKind(a.kind, b.kind)
    case None => None
    case Some(k) => Some(Token(k, Combine(a.span, b.span)))
  }

  /** `Token::is_punct`. */
  predicate IsPunct(k: TokenKind) {
    match k
    case OpenDelim(_) => false
    case CloseDelim(_) => false
    case Literal(_) => false
    case Comment(_) => false
    case Ident(_) => false
    case Eof => false
    case _ => true
  }

  // What the tables promise, proved once for all kinds.

  /** Splitting a compound token and gluing the halves gives it back. */
  lemma SplitThenGlue(k: TokenKind)
    requires SplitDoubleToken(k).Some?
    ensures GlueKind(SplitDoubleToken(k).value.0, SplitDoubleToken(k).value.1) == Some(k)
  {
  }

  /** Gluing two tokens and splitting the result gives the two back, except
      for the shift operators (which are not split) and for the four pairs
      whose glued kind is split at another place. */
  lemma GlueThenSplit(a: TokenKind, b: TokenKind)
    requires GlueKind(a, b).Some?
    ensures SplitDoubleToken(GlueKind(a, b).value) == Some((a, b))
      <==> !((a == Lt && (b == Lt || b == Le)) || (a == Gt && (b == Gt || b == Ge))
             || (a == DotDot && (b == Dot || b == Eq)))
  {
  }

  /** Whatever glues is punctuation, and so is what it glues to. */
  lemma GluePunct(a: TokenKind, b: TokenKind)
    requires GlueKind(a, b).Some?
    ensures IsPunct(a) && IsPunct(b) && IsPunct(GlueKind(a, b).value)
  {
  }

  /** Every binary operator followed by `=` glues to its compound assignment. */
  lemma BinOpGluesWithEq(op: BinOpToken)
    ensures GlueKind(BinOp(op), Eq) == Some(BinOpEq(op))
    ensures SplitDoubleToken(BinOpEq(op)) == Some((BinOp(op), Eq))
  {
  }

  /** The kinds that are not compound are not split, among them `..=`, `<<`
      and `>>`. */
  lemma SplitOnlyCompound(k: TokenKind)
    ensures SplitDoubleToken(k).Some? <==>
      k in {Le, EqEq, Ne, Ge, AndAnd, OrOr, DotDot, DotDotDot, DoubleColon, RArrow, LArrow, FatArrow} || k.BinOpEq?
    ensures SplitDoubleToken(DotDotEq).None? && SplitDoubleToken(BinOp(Shl)).None? && SplitDoubleToken(BinOp(Shr)).None?
  {
  }

  /** `is_punct` fails exactly for delimiters, literals, comments, identifiers and `Eof`. */
  lemma PunctClassification(k: TokenKind)
    ensures !IsPunct(k) <==> k.OpenDelim? || k.CloseDelim? || k.Literal? || k.Comment? || k.Ident? || k == Eof
  {
  }

  /** A pair glues only if it is one of the entries of the table. */
  lemma GlueTable(a: TokenKind, b: TokenKind)
    ensures GlueKind(a, b).Some? <==>
      (a == Eq && (b == Eq || b == Gt))
      || (a == Lt && (b == Eq || b == Lt || b == Le || b == BinOp(Minus)))
      || (a == Gt && (b == Eq || b == Gt || b == Ge))
      || (a == Not && b == Eq)
      || (a.BinOp? && b == Eq)
      || (a == BinOp(And) && b == BinOp(And))
      || (a == BinOp(Or) && b == BinOp(Or))
      || (a == BinOp(Minus) && b == Gt)
      || (a == Dot && (b == Dot || b == DotDot))
      || (a == DotDot && (b == Dot || b == Eq))
      || (a == Colon && b == Colon)
  {
  }
}
