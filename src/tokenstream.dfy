/** Token trees (`ast::tokenstream`): a stream is a sequence of trees, and a
    tree is a single token or a delimited group holding a stream of its own. */
module AstTokenStream {
  import opened SourceIdx
  import AT = AstToken

  /** How a token stands to the token after it: separated by whitespace (or
      last), followed at once by punctuation, or followed at once by anything
      else. */
  datatype Spacing = Alone | Joint | JointHidden

  /** The spacing after the open and after the close delimiter of a group. */
  datatype GroupSpacing = GroupSpacing(open: Spacing, close: Spacing)

  datatype TokenTree =
    | SingleToken(token: AT.Token, spacing: Spacing)
    | TokenGroup(span: GroupSrcIdx, groupSpacing: GroupSpacing, delim: AT.Delimiter, stream: TokenStream)

  /** The Rust code shares the trees of a stream through an `Rc`; here a
      stream is its trees. */
  datatype TokenStream = TokenStream(trees: seq<TokenTree>)
}
