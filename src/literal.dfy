/** The literal kinds the raw lexer reports (`lex::literal`). */
module LexLiteral {

  datatype Base = Binary | Octal | Decimal | Hex

  /** `base as u32`: the enum's discriminants 2, 8, 10 and 16. */
  function Radix(b: Base): (r: nat)
    ensures r in {2, 8, 10, 16}
    ensures b == Binary <==> r == 2
    ensures b == Octal <==> r == 8
    ensures b == Decimal <==> r == 10
  {
    match b
    case Binary => 2
    case Octal => 8
    case Decimal => 10
    case Hex => 16
  }

  /** The bases the raw lexer reports only after a two-character prefix,
      and whose digits the parser's reader checks. */
  predicate Prefixed(b: Base) {
    b == Binary || b == Octal
  }

  datatype LiteralKind = Int(base: Base) | Float(base: Base) | Char | Str
}
