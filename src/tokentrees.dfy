/** The token-tree builder of the parser (`parse::tokentrees`): it pulls
    tokens from the string reader, glues adjacent punctuation, records how
    each token is spaced from the next, and nests the tokens between matching
    delimiters into groups.

    The builder keeps one token of lookahead. Its state, as far as the result
    depends on it, is the character index the reader's cursor stands at and
    the buffered token (`State`). Each method of `TokenTreesReader` is proved
    against a function of that state: `NextSpec` for `next_token`, `TreesSpec`
    for `parse_token_trees` (whose loop is `LoopSpec`) and `OpenDelimSpec` for
    `parse_tt_open_delim`. A run that stops in the reader is `Halted` and
    stops the builder as well. */
module ParseTokenTrees {
  import opened Std
  import opened SourceIdx
  import opened AstTokenStream
  import AT = AstToken
  import LT = LexToken
  import PL = ParseLex

  /** Where the builder stands: the cursor's character index and the
      buffered token. */
  datatype State = State(pos: nat, token: AT.Token)

  /** The state of a builder over `inp`: the index is in the source, and a
      buffered `Eof` was read at its end. */
  predicate Wf(inp: PL.Input, st: State) {
    st.pos <= |inp.src| && (st.token.kind == AT.Eof ==> st.pos == |inp.src|)
  }

  /** The measure every step of the builder decreases: two per character
      left, and one more while the buffered token is not `Eof`. */
  function Rank(inp: PL.Input, st: State): nat
    requires st.pos <= |inp.src|
  {
    2 * (|inp.src| - st.pos) + if st.token.kind == AT.Eof then 0 else 1
  }

  /** The spacing `next_token` gives the buffered token when the next token
      follows it without whitespace and is not glued to it. */
  function SpacingOf(next: AT.Token): (s: Spacing)
    ensures s == Joint <==> AT.IsPunct(next.kind)
    ensures s == Alone <==> next.kind == AT.Eof
  {
    if AT.IsPunct(next.kind) then Joint
    else if next.kind == AT.Eof then Alone
    else JointHidden
  }

  // next_token

  /** What `next_token` returns, and the state it leaves. */
  datatype Next = Next(token: AT.Token, spacing: Spacing, after: State)

  /** `next_token(glue)`: the buffered token is returned with its spacing and
      the next token is buffered in its place; with `glue`, every token that
      follows without whitespace and glues to the buffered one is first
      glued onto it. */
  function NextSpec(inp: PL.Input, st: State, glue: bool): (r: PL.Read<Next>)
    requires PL.Lexes(inp) && PL.Fits(inp) && st.pos <= |inp.src|
    ensures r.Read? ==> Wf(inp, r.value.after) && st.pos <= r.value.after.pos
    ensures r.Read? ==> Rank(inp, r.value.after) <= 2 * (|inp.src| - st.pos)
    decreases |inp.src| - st.pos
  {
    match PL.ReadSpec(inp, st.pos)
    case Halted(h) => PL.Halted(h)
    case Read((lexeme, j)) =>
      if lexeme.spaced then
        PL.Read(Next(st.token, Alone, State(j, lexeme.token)))
      else if glue && AT.Glue(st.token, lexeme.token).Some? then
        AT.GluePunct(st.token.kind, lexeme.token.kind);
        NextSpec(inp, State(j, AT.Glue(st.token, lexeme.token).value), glue)
      else
        PL.Read(Next(st.token, SpacingOf(lexeme.token), State(j, lexeme.token)))
  }

  // parse_token_trees and parse_tt_open_delim

  /** What `parse_token_trees` returns: the spacing after the token it
      started on, the stream, whether it ended where it should (`res`), and
      the state it leaves. */
  datatype Trees = Trees(spacing: Spacing, stream: TokenStream, ok: bool, after: State)

  /** What `parse_tt_open_delim` returns, and the state it leaves. */
  datatype Opened = Opened(tree: Option<TokenTree>, after: State)

  /** The token `parse_token_trees` stops on when it succeeds: a close
      delimiter inside a group, `Eof` at the top level. */
  predicate Ends(st: State, inGroup: bool) {
    if inGroup then st.token.kind.CloseDelim? else st.token.kind == AT.Eof
  }

  /** How `parse_token_trees` stops: on a close delimiter or `Eof`, which
      it succeeds on as `Ends` says; inside a group it fails only at `Eof`,
      and at the top level a failure is a stray close delimiter or a group
      left open at `Eof`. */
  predicate Stops(after: State, inGroup: bool, ok: bool) {
    (after.token.kind.CloseDelim? || after.token.kind == AT.Eof)
    && (ok ==> Ends(after, inGroup))
    && (inGroup ==> (ok <==> Ends(after, true)))
  }

  /** `parse_token_trees(starts_in_group)`: the buffered token (the dummy or
      an open delimiter) is stepped over, and the trees up to a close
      delimiter or `Eof` are collected. */
  function TreesSpec(inp: PL.Input, st: State, inGroup: bool): (r: PL.Read<Trees>)
    requires PL.Lexes(inp) && PL.Fits(inp) && Wf(inp, st) && st.token.kind != AT.Eof
    ensures r.Read? ==> Wf(inp, r.value.after) && Rank(inp, r.value.after) < Rank(inp, st)
    ensures r.Read? ==> Stops(r.value.after, inGroup, r.value.ok)
    decreases Rank(inp, st), 1
  {
    match NextSpec(inp, st, false)
    case Halted(h) => PL.Halted(h)
    case Read(n) => LoopSpec(inp, n.after, inGroup, n.spacing, [])
  }

  /** The loop of `parse_token_trees`, with the trees `buf` collected so far. */
  function LoopSpec(inp: PL.Input, st: State, inGroup: bool, openSpacing: Spacing, buf: seq<TokenTree>): (r: PL.Read<Trees>)
    requires PL.Lexes(inp) && PL.Fits(inp) && Wf(inp, st)
    ensures r.Read? ==> Wf(inp, r.value.after) && Rank(inp, r.value.after) <= Rank(inp, st)
    ensures r.Read? ==> r.value.spacing == openSpacing
    ensures r.Read? ==> Stops(r.value.after, inGroup, r.value.ok)
    decreases Rank(inp, st), 3
  {
    if st.token.kind.OpenDelim? then
      match OpenDelimSpec(inp, st, st.token.kind.delim)
      case Halted(h) => PL.Halted(h)
      case Read(o) =>
        if o.tree.None? then PL.Read(Trees(openSpacing, TokenStream(buf), false, o.after))
        else LoopSpec(inp, o.after, inGroup, openSpacing, buf + [o.tree.value])
    else if st.token.kind.CloseDelim? then
      PL.Read(Trees(openSpacing, TokenStream(buf), inGroup, st))
    else if st.token.kind == AT.Eof then
      PL.Read(Trees(openSpacing, TokenStream(buf), !inGroup, st))
    else
      match NextSpec(inp, st, true)
      case Halted(h) => PL.Halted(h)
      case Read(n) => LoopSpec(inp, n.after, inGroup, openSpacing, buf + [SingleToken(n.token, n.spacing)])
  }

  /** `parse_tt_open_delim(d)`, on the open delimiter `d`: the group's trees
      are parsed; a failure there is passed on; a matching close delimiter
      is consumed, while a mismatched one is left buffered and the group is
      closed `Alone`. */
  function OpenDelimSpec(inp: PL.Input, st: State, d: AT.Delimiter): (r: PL.Read<Opened>)
    requires PL.Lexes(inp) && PL.Fits(inp) && Wf(inp, st) && st.token.kind == AT.OpenDelim(d)
    ensures r.Read? ==> Wf(inp, r.value.after) && Rank(inp, r.value.after) < Rank(inp, st)
    ensures r.Read? && r.value.tree.Some? ==>
      r.value.tree.value.TokenGroup? && r.value.tree.value.delim == d
      && r.value.tree.value.span.open == st.token.span
    ensures r.Read? && r.value.tree.None? ==> r.value.after.token.kind == AT.Eof
    decreases Rank(inp, st), 2
  {
    match TreesSpec(inp, st, true)
    case Halted(h) => PL.Halted(h)
    case Read(t) =>
      if !t.ok then PL.Read(Opened(None, t.after))
      else
        var span := FromPair(st.token.span, t.after.token.span);
        if t.after.token.kind == AT.CloseDelim(d) then
          match NextSpec(inp, t.after, false)
          case Halted(h) => PL.Halted(h)
          case Read(n) => PL.Read(Opened(Some(TokenGroup(span, GroupSpacing(t.spacing, n.spacing), d, t.stream)), n.after))
        else
          // A mismatched close delimiter; the arms for `Eof` and for any
          // other token cannot be reached, since the group's trees ended well.
          PL.Read(Opened(Some(TokenGroup(span, GroupSpacing(t.spacing, Alone), d, t.stream)), t.after))
  }

  /** `parse_all_token_trees` on a reader whose cursor stands at `i`: the
      top-level trees, read with the dummy token buffered. A success has
      read the whole source. */
  function AllSpec(inp: PL.Input, i: nat): (r: PL.Read<Trees>)
    requires PL.Lexes(inp) && PL.Fits(inp) && i <= |inp.src|
    ensures r.Read? && r.value.ok ==> r.value.after.token.kind == AT.Eof && r.value.after.pos == |inp.src|
  {
    TreesSpec(inp, State(i, AT.Dummy()), false)
  }

  /** The input `parse_token_trees` of the `lex` module reads. */
  function SourceInput(source: string, start: BytePos, tables: LT.UnicodeData): (inp: PL.Input)
    ensures inp.src == source && inp.start == start
  {
    PL.Input(source, start, tables, PL.Lexer(tables))
  }

  /** The raw lexer of a source input is the lexer crate's. */
  lemma SourceInputLexes(source: string, start: BytePos, tables: LT.UnicodeData)
    ensures PL.Lexes(SourceInput(source, start, tables))
  {
  }

  /** `parse_token_trees` of the `lex` module: the stream when the top level
      ended well, `None` otherwise. */
  function SourceSpec(source: string, start: BytePos, tables: LT.UnicodeData): (r: PL.Read<Option<TokenStream>>)
    requires start.value + Utf8Len(source) < U32_LIMIT
  {
    SourceInputLexes(source, start, tables);
    match AllSpec(SourceInput(source, start, tables), 0)
    case Halted(h) => PL.Halted(h)
    case Read(t) => PL.Read(if t.ok then Some(t.stream) else None)
  }

  // Properties of next_token.

  /** Without glueing, `next_token` returns the buffered token unchanged
      and buffers the reader's next token in its place; the spacing is
      `Alone` after whitespace and otherwise set by the next token. */
  lemma NextWithoutGlue(inp: PL.Input, st: State)
    requires PL.Lexes(inp) && PL.Fits(inp) && st.pos <= |inp.src|
    ensures match PL.ReadSpec(inp, st.pos)
      case Halted(h) => NextSpec(inp, st, false) == PL.Halted(h)
      case Read((lexeme, j)) =>
        NextSpec(inp, st, false)
        == PL.Read(Next(st.token, if lexeme.spaced then Alone else SpacingOf(lexeme.token), State(j, lexeme.token)))
  {
  }

  /** The spacing `next_token` returns tells what follows the returned
      token: `Joint` only punctuation, `JointHidden` only a token that is
      neither punctuation nor `Eof`, and `Eof` always leaves it `Alone`.
      With glueing, a token not `Alone` does not glue to the next one. */
  lemma {:induction false} NextSpacing(inp: PL.Input, st: State, glue: bool)
    requires PL.Lexes(inp) && PL.Fits(inp) && st.pos <= |inp.src|
    ensures var r := NextSpec(inp, st, glue);
      r.Read? ==>
        (r.value.spacing == Joint ==> AT.IsPunct(r.value.after.token.kind))
        && (r.value.spacing == JointHidden ==>
              !AT.IsPunct(r.value.after.token.kind) && r.value.after.token.kind != AT.Eof)
        && (r.value.after.token.kind == AT.Eof ==> r.value.spacing == Alone)
        && (glue && r.value.spacing != Alone ==> AT.Glue(r.value.token, r.value.after.token).None?)
    decreases |inp.src| - st.pos
  {
    match PL.ReadSpec(inp, st.pos) {
      case Halted(_) =>
      case Read((lexeme, j)) =>
        if !lexeme.spaced && glue && AT.Glue(st.token, lexeme.token).Some? {
          AT.GluePunct(st.token.kind, lexeme.token.kind);
          NextSpacing(inp, State(j, AT.Glue(st.token, lexeme.token).value), glue);
        }
    }
  }

  /** Glueing only joins punctuation: `next_token` returns the buffered
      token itself, or with glueing a punctuation token glued onto a
      punctuation token, whose span covers the buffered token's. */
  lemma {:induction false} NextGlued(inp: PL.Input, st: State, glue: bool)
    requires PL.Lexes(inp) && PL.Fits(inp) && st.pos <= |inp.src|
    ensures var r := NextSpec(inp, st, glue);
      r.Read? ==>
        r.value.token == st.token
        || (glue && AT.IsPunct(st.token.kind) && AT.IsPunct(r.value.token.kind)
            && (WellFormed(st.token.span) ==>
                  WellFormed(r.value.token.span) && Covers(r.value.token.span, st.token.span)))
    decreases |inp.src| - st.pos
  {
    match PL.ReadSpec(inp, st.pos) {
      case Halted(_) =>
      case Read((lexeme, j)) =>
        if !lexeme.spaced && glue && AT.Glue(st.token, lexeme.token).Some? {
          AT.GluePunct(st.token.kind, lexeme.token.kind);
          if WellFormed(st.token.span) {
            CombineCovers(st.token.span, lexeme.token.span);
          }
          NextGlued(inp, State(j, AT.Glue(st.token, lexeme.token).value), glue);
        }
    }
  }

  /** A delimiter that is not of the `Invisible` kind. */
  predicate Visible(t: AT.Token) {
    t.kind.OpenDelim? || t.kind.CloseDelim? ==> t.kind.delim != AT.Invisible
  }

  /** The token `next_token` buffers is never an invisible delimiter. */
  lemma {:induction false} NextVisible(inp: PL.Input, st: State, glue: bool)
    requires PL.Lexes(inp) && PL.Fits(inp) && st.pos <= |inp.src|
    ensures var r := NextSpec(inp, st, glue);
      r.Read? ==> Visible(r.value.after.token)
    decreases |inp.src| - st.pos
  {
    PL.ReadNeverInvisible(inp, st.pos);
    match PL.ReadSpec(inp, st.pos) {
      case Halted(_) =>
      case Read((lexeme, j)) =>
        if !lexeme.spaced && glue && AT.Glue(st.token, lexeme.token).Some? {
          AT.GluePunct(st.token.kind, lexeme.token.kind);
          NextVisible(inp, State(j, AT.Glue(st.token, lexeme.token).value), glue);
        }
    }
  }

  // Properties of parse_token_trees and parse_tt_open_delim.

  /** The loop stops on a close delimiter or on `Eof` and leaves it
      buffered; it succeeds exactly on a close delimiter inside a group and
      on `Eof` at the top level. */
  lemma LoopStops(inp: PL.Input, st: State, inGroup: bool, openSpacing: Spacing, buf: seq<TokenTree>)
    requires PL.Lexes(inp) && PL.Fits(inp) && Wf(inp, st)
    requires st.token.kind.CloseDelim? || st.token.kind == AT.Eof
    ensures LoopSpec(inp, st, inGroup, openSpacing, buf)
      == PL.Read(Trees(openSpacing, TokenStream(buf), inGroup == st.token.kind.CloseDelim?, st))
  {
  }

  /** A group closed by its own delimiter consumes it with `next_token`
      without glueing: the close spacing is the one given to that
      delimiter, and the group's span pairs the two delimiters' spans. */
  lemma MatchedClose(inp: PL.Input, st: State, d: AT.Delimiter)
    requires PL.Lexes(inp) && PL.Fits(inp) && Wf(inp, st) && st.token.kind == AT.OpenDelim(d)
    requires TreesSpec(inp, st, true).Read? && TreesSpec(inp, st, true).value.after.token.kind == AT.CloseDelim(d)
    ensures var t := TreesSpec(inp, st, true).value;
      var close := t.after.token;
      t.ok
      && match NextSpec(inp, t.after, false)
         case Halted(h) => OpenDelimSpec(inp, st, d) == PL.Halted(h)
         case Read(n) =>
           n.token == close
           && OpenDelimSpec(inp, st, d)
              == PL.Read(Opened(Some(TokenGroup(GroupSrcIdx(st.token.span, close.span), GroupSpacing(t.spacing, n.spacing), d, t.stream)),
                                n.after))
  {
    var t := TreesSpec(inp, st, true).value;
    LoopStops(inp, t.after, true, t.spacing, t.stream.trees);
    NextWithoutGlue(inp, t.after);
  }

  /** A group whose trees ended well on another close delimiter is still
      built, with close spacing `Alone`, and that delimiter stays buffered
      for the enclosing loop. */
  lemma MismatchedClose(inp: PL.Input, st: State, d: AT.Delimiter)
    requires PL.Lexes(inp) && PL.Fits(inp) && Wf(inp, st) && st.token.kind == AT.OpenDelim(d)
    requires TreesSpec(inp, st, true).Read? && TreesSpec(inp, st, true).value.ok
    requires TreesSpec(inp, st, true).value.after.token.kind != AT.CloseDelim(d)
    ensures var t := TreesSpec(inp, st, true).value;
      t.after.token.kind.CloseDelim?
      && OpenDelimSpec(inp, st, d)
         == PL.Read(Opened(Some(TokenGroup(GroupSrcIdx(st.token.span, t.after.token.span), GroupSpacing(t.spacing, Alone), d, t.stream)),
                           t.after))
  {
  }

  /** A token kind that can stand alone in a stream: delimiters open and
      close groups, and `Eof` ends the top level. */
  predicate Leaf(k: AT.TokenKind) {
    !k.OpenDelim? && !k.CloseDelim? && k != AT.Eof
  }

  /** At every depth of `trees`, single tokens are leaves and groups are
      not delimited invisibly. */
  predicate Shaped(trees: seq<TokenTree>) {
    forall tree <- trees :: ShapedTree(tree)
  }

  predicate ShapedTree(tree: TokenTree) {
    match tree
    case SingleToken(t, _) => Leaf(t.kind)
    case TokenGroup(_, _, d, s) => d != AT.Invisible && Shaped(s.trees)
  }

  lemma ShapedAppend(buf: seq<TokenTree>, tree: TokenTree)
    requires Shaped(buf) && ShapedTree(tree)
    ensures Shaped(buf + [tree])
  {
  }

  /** The trees `parse_token_trees` returns are shaped, and the token it
      leaves buffered is visible. */
  lemma {:induction false} TreesShaped(inp: PL.Input, st: State, inGroup: bool)
    requires PL.Lexes(inp) && PL.Fits(inp) && Wf(inp, st) && st.token.kind != AT.Eof
    ensures var r := TreesSpec(inp, st, inGroup);
      r.Read? ==> Shaped(r.value.stream.trees) && Visible(r.value.after.token)
    decreases Rank(inp, st), 1
  {
    NextVisible(inp, st, false);
    match NextSpec(inp, st, false) {
      case Halted(_) =>
      case Read(n) => LoopShaped(inp, n.after, inGroup, n.spacing, []);
    }
  }

  /** From a visible token, the loop adds only shaped trees to a shaped
      `buf`, and leaves a visible token buffered. */
  lemma {:induction false} LoopShaped(inp: PL.Input, st: State, inGroup: bool, openSpacing: Spacing, buf: seq<TokenTree>)
    requires PL.Lexes(inp) && PL.Fits(inp) && Wf(inp, st) && Visible(st.token) && Shaped(buf)
    ensures var r := LoopSpec(inp, st, inGroup, openSpacing, buf);
      r.Read? ==> Shaped(r.value.stream.trees) && Visible(r.value.after.token)
    decreases Rank(inp, st), 3
  {
    if st.token.kind.OpenDelim? {
      var d := st.token.kind.delim;
      OpenShaped(inp, st, d);
      match OpenDelimSpec(inp, st, d) {
        case Halted(_) =>
        case Read(o) =>
          if o.tree.Some? {
            ShapedAppend(buf, o.tree.value);
            LoopShaped(inp, o.after, inGroup, openSpacing, buf + [o.tree.value]);
          }
      }
    } else if !st.token.kind.CloseDelim? && st.token.kind != AT.Eof {
      NextGlued(inp, st, true);
      NextVisible(inp, st, true);
      match NextSpec(inp, st, true) {
        case Halted(_) =>
        case Read(n) =>
          ShapedAppend(buf, SingleToken(n.token, n.spacing));
          LoopShaped(inp, n.after, inGroup, openSpacing, buf + [SingleToken(n.token, n.spacing)]);
      }
    }
  }

  /** The group `parse_tt_open_delim` builds on a visible delimiter is
      shaped, and the token it leaves buffered is visible. */
  lemma {:induction false} OpenShaped(inp: PL.Input, st: State, d: AT.Delimiter)
    requires PL.Lexes(inp) && PL.Fits(inp) && Wf(inp, st) && st.token.kind == AT.OpenDelim(d) && d != AT.Invisible
    ensures var r := OpenDelimSpec(inp, st, d);
      r.Read? ==> Visible(r.value.after.token) && (r.value.tree.Some? ==> ShapedTree(r.value.tree.value))
    decreases Rank(inp, st), 2
  {
    TreesShaped(inp, st, true);
    match TreesSpec(inp, st, true) {
      case Halted(_) =>
      case Read(t) =>
        if t.ok && t.after.token.kind == AT.CloseDelim(d) {
          NextVisible(inp, t.after, false);
        }
    }
  }

  /** A stop the reader can come to: never a slice off a character
      boundary, and no failed line lookup in a source that starts at
      position 0. */
  predicate ReaderHalt(inp: PL.Input, h: PL.Halt) {
    h != PL.SlicePanic && (inp.start.value == 0 ==> h != PL.LineLookupPanic)
  }

  /** `next_token` stops only where the reader does. */
  lemma {:induction false} NextHalts(inp: PL.Input, st: State, glue: bool)
    requires PL.Lexes(inp) && PL.Fits(inp) && st.pos <= |inp.src|
    ensures var r := NextSpec(inp, st, glue);
      r.Halted? ==> ReaderHalt(inp, r.halt)
    decreases |inp.src| - st.pos
  {
    PL.ReadOnBoundaries(inp, st.pos);
    match PL.ReadSpec(inp, st.pos) {
      case Halted(_) =>
      case Read((lexeme, j)) =>
        if !lexeme.spaced && glue && AT.Glue(st.token, lexeme.token).Some? {
          AT.GluePunct(st.token.kind, lexeme.token.kind);
          NextHalts(inp, State(j, AT.Glue(st.token, lexeme.token).value), glue);
        }
    }
  }

  /** `parse_token_trees` stops only where the reader does. */
  lemma {:induction false} TreesHalts(inp: PL.Input, st: State, inGroup: bool)
    requires PL.Lexes(inp) && PL.Fits(inp) && Wf(inp, st) && st.token.kind != AT.Eof
    ensures var r := TreesSpec(inp, st, inGroup);
      r.Halted? ==> ReaderHalt(inp, r.halt)
    decreases Rank(inp, st), 1
  {
    NextHalts(inp, st, false);
    match NextSpec(inp, st, false) {
      case Halted(_) =>
      case Read(n) => LoopHalts(inp, n.after, inGroup, n.spacing, []);
    }
  }

  /** The loop of `parse_token_trees` stops only where the reader does. */
  lemma {:induction false} LoopHalts(inp: PL.Input, st: State, inGroup: bool, openSpacing: Spacing, buf: seq<TokenTree>)
    requires PL.Lexes(inp) && PL.Fits(inp) && Wf(inp, st)
    ensures var r := LoopSpec(inp, st, inGroup, openSpacing, buf);
      r.Halted? ==> ReaderHalt(inp, r.halt)
    decreases Rank(inp, st), 3
  {
    if st.token.kind.OpenDelim? {
      var d := st.token.kind.delim;
      OpenHalts(inp, st, d);
      match OpenDelimSpec(inp, st, d) {
        case Halted(_) =>
        case Read(o) =>
          if o.tree.Some? {
            LoopHalts(inp, o.after, inGroup, openSpacing, buf + [o.tree.value]);
          }
      }
    } else if !st.token.kind.CloseDelim? && st.token.kind != AT.Eof {
      NextHalts(inp, st, true);
      match NextSpec(inp, st, true) {
        case Halted(_) =>
        case Read(n) => LoopHalts(inp, n.after, inGroup, openSpacing, buf + [SingleToken(n.token, n.spacing)]);
      }
    }
  }

  /** `parse_tt_open_delim` stops only where the reader does. */
  lemma {:induction false} OpenHalts(inp: PL.Input, st: State, d: AT.Delimiter)
    requires PL.Lexes(inp) && PL.Fits(inp) && Wf(inp, st) && st.token.kind == AT.OpenDelim(d)
    ensures var r := OpenDelimSpec(inp, st, d);
      r.Halted? ==> ReaderHalt(inp, r.halt)
    decreases Rank(inp, st), 2
  {
    TreesHalts(inp, st, true);
    match TreesSpec(inp, st, true) {
      case Halted(_) =>
      case Read(t) =>
        if t.ok && t.after.token.kind == AT.CloseDelim(d) {
          NextHalts(inp, t.after, false);
        }
    }
  }

  /** Building the trees of a whole source stops only where the reader
      does: a `todo!()` of the raw lexer, a panic of the unescaper, or, in a
      source that does not start at position 0, the line lookup. */
  lemma SourceHalts(source: string, start: BytePos, tables: LT.UnicodeData)
    requires start.value + Utf8Len(source) < U32_LIMIT
    ensures var r := SourceSpec(source, start, tables);
      r.Halted? ==> ReaderHalt(SourceInput(source, start, tables), r.halt)
  {
    SourceInputLexes(source, start, tables);
    TreesHalts(SourceInput(source, start, tables), State(0, AT.Dummy()), false);
  }

  /** Every stream the top level returns is shaped. */
  lemma AllShaped(inp: PL.Input, i: nat)
    requires PL.Lexes(inp) && PL.Fits(inp) && i <= |inp.src|
    ensures var r := AllSpec(inp, i);
      r.Read? ==> Shaped(r.value.stream.trees)
  {
    TreesShaped(inp, State(i, AT.Dummy()), false);
  }

  /** An empty source is the empty stream, and the top level ends well on
      the `Eof` at the source's start position. */
  lemma EmptySource(inp: PL.Input)
    requires PL.Lexes(inp) && PL.Fits(inp) && inp.src == []
    ensures AllSpec(inp, 0)
      == PL.Read(Trees(Alone, TokenStream([]), true, State(0, AT.Token(AT.Eof, WithRootCtxt(inp.start, inp.start)))))
  {
    var eof := AT.Token(AT.Eof, WithRootCtxt(inp.start, inp.start));
    assert PL.ReadSpec(inp, 0) == PL.Read((PL.Lexeme(eof, false), 0)) by {
      PL.ReadAtEnd(inp);
      assert PL.At(inp, 0) == inp.start;
    }
    NextWithoutGlue(inp, State(0, AT.Dummy()));
    LoopStops(inp, State(0, eof), false, Alone, []);
  }

  // Failure is passed on.

  /** A group left open at `Eof` fails the loop around it, at any depth,
      and that loop stops on the same `Eof`. */
  lemma OpenFailureFailsLoop(inp: PL.Input, st: State, inGroup: bool, openSpacing: Spacing, buf: seq<TokenTree>)
    requires PL.Lexes(inp) && PL.Fits(inp) && Wf(inp, st) && st.token.kind.OpenDelim?
    requires OpenDelimSpec(inp, st, st.token.kind.delim).Read?
    requires OpenDelimSpec(inp, st, st.token.kind.delim).value.tree.None?
    ensures var o := OpenDelimSpec(inp, st, st.token.kind.delim).value;
      o.after.token.kind == AT.Eof
      && LoopSpec(inp, st, inGroup, openSpacing, buf) == PL.Read(Trees(openSpacing, TokenStream(buf), false, o.after))
  {
  }

  /** The groups left open once the close delimiter `d` is met: every group
      up to the innermost one of kind `d` is closed. */
  function CloseTo(open: seq<AT.Delimiter>, d: AT.Delimiter): (rest: seq<AT.Delimiter>)
    requires d in open
    ensures |rest| < |open| && rest == open[..|rest|]
  {
    if open[|open| - 1] == d then open[..|open| - 1] else CloseTo(open[..|open| - 1], d)
  }

  /** Delimiter balance of the reader's tokens, as a stack of open groups:
      `k` is the kind of the token read before index `j`, and `open` holds
      the groups open before it. The tokens are balanced when no close
      delimiter comes without an open group of its kind and no group is
      left open at `Eof`. */
  function Balance(inp: PL.Input, k: AT.TokenKind, j: nat, open: seq<AT.Delimiter>): PL.Read<bool>
    requires PL.Lexes(inp) && PL.Fits(inp) && j <= |inp.src|
    decreases 2 * (|inp.src| - j) + if k == AT.Eof then 0 else 1
  {
    if k == AT.Eof then PL.Read(open == [])
    else if k.CloseDelim? && k.delim !in open then PL.Read(false)
    else
      var rest := if k.OpenDelim? then open + [k.delim] else if k.CloseDelim? then CloseTo(open, k.delim) else open;
      match PL.ReadSpec(inp, j)
      case Halted(h) => PL.Halted(h)
      case Read((lexeme, j2)) => Balance(inp, lexeme.token.kind, j2, rest)
  }

  /** `next_token` steps over leaves only: glueing joins punctuation, so
      the balance after the buffered token is the balance after the token
      it leaves buffered. */
  lemma {:induction false} NextBalance(inp: PL.Input, st: State, glue: bool, open: seq<AT.Delimiter>)
    requires PL.Lexes(inp) && PL.Fits(inp) && st.pos <= |inp.src| && Leaf(st.token.kind)
    ensures var r := NextSpec(inp, st, glue);
      r.Read? ==> Balance(inp, st.token.kind, st.pos, open) == Balance(inp, r.value.after.token.kind, r.value.after.pos, open)
    decreases |inp.src| - st.pos
  {
    match PL.ReadSpec(inp, st.pos) {
      case Halted(_) =>
      case Read((lexeme, j)) =>
        if !lexeme.spaced && glue && AT.Glue(st.token, lexeme.token).Some? {
          var g := AT.Glue(st.token, lexeme.token).value;
          AT.GluePunct(st.token.kind, lexeme.token.kind);
          AT.PunctClassification(lexeme.token.kind);
          AT.PunctClassification(g.kind);
          assert Balance(inp, lexeme.token.kind, j, open) == Balance(inp, g.kind, j, open);
          NextBalance(inp, State(j, g), glue, open);
        }
    }
  }

  /** The loop of `parse_token_trees` with the groups `open` around it
      (none at the top level): a failure means the tokens are not balanced;
      a success at the top level means they are; and a success inside a
      group leaves the balance where the group's close delimiter stands. */
  lemma {:induction false} LoopBalance(inp: PL.Input, st: State, inGroup: bool, openSpacing: Spacing, buf: seq<TokenTree>, open: seq<AT.Delimiter>)
    requires PL.Lexes(inp) && PL.Fits(inp) && Wf(inp, st) && (inGroup <==> open != [])
    ensures var r := LoopSpec(inp, st, inGroup, openSpacing, buf);
      r.Read? ==>
        Balance(inp, st.token.kind, st.pos, open)
        == if !r.value.ok then PL.Read(false)
           else if inGroup then Balance(inp, r.value.after.token.kind, r.value.after.pos, open)
           else PL.Read(true)
    decreases Rank(inp, st), 3
  {
    if st.token.kind.OpenDelim? {
      var d := st.token.kind.delim;
      OpenBalance(inp, st, d, open);
      match OpenDelimSpec(inp, st, d) {
        case Halted(_) =>
        case Read(o) =>
          if o.tree.Some? {
            LoopBalance(inp, o.after, inGroup, openSpacing, buf + [o.tree.value], open);
          }
      }
    } else if !st.token.kind.CloseDelim? && st.token.kind != AT.Eof {
      NextBalance(inp, st, true, open);
      match NextSpec(inp, st, true) {
        case Halted(_) =>
        case Read(n) => LoopBalance(inp, n.after, inGroup, openSpacing, buf + [SingleToken(n.token, n.spacing)], open);
      }
    }
  }

  /** `parse_tt_open_delim` on `d` with the groups `open` around it: it
      fails only on tokens that are not balanced, and a group it builds
      leaves the balance where it stops. */
  lemma {:induction false} OpenBalance(inp: PL.Input, st: State, d: AT.Delimiter, open: seq<AT.Delimiter>)
    requires PL.Lexes(inp) && PL.Fits(inp) && Wf(inp, st) && st.token.kind == AT.OpenDelim(d)
    ensures var r := OpenDelimSpec(inp, st, d);
      r.Read? ==>
        Balance(inp, st.token.kind, st.pos, open)
        == if r.value.tree.None? then PL.Read(false) else Balance(inp, r.value.after.token.kind, r.value.after.pos, open)
    decreases Rank(inp, st), 2
  {
    NextWithoutGlue(inp, st);
    match NextSpec(inp, st, false) {
      case Halted(_) =>
      case Read(n) =>
        LoopBalance(inp, n.after, true, n.spacing, [], open + [d]);
        match TreesSpec(inp, st, true) {
          case Halted(_) =>
          case Read(t) =>
            if t.ok {
              if t.after.token.kind == AT.CloseDelim(d) {
                CloseMatchedBalance(inp, t.after, d, open);
              } else {
                CloseMismatchedBalance(inp, t.after, d, open);
              }
            }
        }
    }
  }

  /** The close delimiter of the innermost open group closes just that
      group, and the balance goes on from the token `next_token` buffers
      after it. */
  lemma CloseMatchedBalance(inp: PL.Input, st: State, d: AT.Delimiter, open: seq<AT.Delimiter>)
    requires PL.Lexes(inp) && PL.Fits(inp) && Wf(inp, st) && st.token.kind == AT.CloseDelim(d)
    ensures var r := NextSpec(inp, st, false);
      r.Read? ==> Balance(inp, st.token.kind, st.pos, open + [d]) == Balance(inp, r.value.after.token.kind, r.value.after.pos, open)
  {
    var inner := open + [d];
    assert inner[..|inner| - 1] == open;
    NextWithoutGlue(inp, st);
  }

  /** A close delimiter of another kind than the innermost open group is
      balanced as if that group were not open. */
  lemma CloseMismatchedBalance(inp: PL.Input, st: State, d: AT.Delimiter, open: seq<AT.Delimiter>)
    requires PL.Lexes(inp) && PL.Fits(inp) && Wf(inp, st)
    requires st.token.kind.CloseDelim? && st.token.kind.delim != d
    ensures Balance(inp, st.token.kind, st.pos, open + [d]) == Balance(inp, st.token.kind, st.pos, open)
  {
    var inner := open + [d];
    assert inner[..|inner| - 1] == open;
    if st.token.kind.delim in open {
      assert CloseTo(inner, st.token.kind.delim) == CloseTo(open, st.token.kind.delim);
    }
  }

  /** The top level ends well exactly when the reader's tokens are
      balanced: a run that stops at `Eof` fails exactly when some close
      delimiter found no open group of its kind or some group was left
      open. */
  lemma AllBalance(inp: PL.Input, i: nat)
    requires PL.Lexes(inp) && PL.Fits(inp) && i <= |inp.src|
    ensures var r := AllSpec(inp, i);
      r.Read? ==> Balance(inp, AT.Dummy().kind, i, []) == PL.Read(r.value.ok)
  {
    var st := State(i, AT.Dummy());
    NextBalance(inp, st, false, []);
    match NextSpec(inp, st, false) {
      case Halted(_) =>
      case Read(n) => LoopBalance(inp, n.after, false, n.spacing, [], []);
    }
  }

  /** `next_token` without glueing, where the cursor stands on a
      one-character token of kind `kind` with no whitespace before it:
      that token is buffered, one character further on. */
  lemma NextOnOneChar(inp: PL.Input, st: State, kind: AT.TokenKind, after: State)
    requires PL.Lexes(inp) && PL.Fits(inp) && st.pos < |inp.src|
    requires LT.OneChar(inp.src[st.pos]).Some? && PL.MapKind(LT.OneChar(inp.src[st.pos]).value) == kind
    requires after == State(st.pos + 1, AT.Token(kind, WithRootCtxt(PL.At(inp, st.pos), PL.At(inp, st.pos + 1))))
    ensures NextSpec(inp, st, false).Read? && NextSpec(inp, st, false).value.after == after
  {
    PL.ReadOneChar(inp, st.pos);
    NextWithoutGlue(inp, st);
  }

  /** `next_token` without glueing at the end of the source: `Eof` is
      buffered there, and the returned token is `Alone`. */
  lemma NextOnEnd(inp: PL.Input, st: State, after: State)
    requires PL.Lexes(inp) && PL.Fits(inp) && st.pos == |inp.src|
    requires after == State(st.pos, AT.Token(AT.Eof, WithRootCtxt(PL.At(inp, st.pos), PL.At(inp, st.pos))))
    ensures NextSpec(inp, st, false) == PL.Read(Next(st.token, Alone, after))
  {
    PL.ReadAtEnd(inp);
    NextWithoutGlue(inp, st);
  }

  /** A group left open: the source `(` gives no stream. */
  lemma UnclosedGroupFails(start: BytePos, tables: LT.UnicodeData)
    requires start.value + Utf8Len("(") < U32_LIMIT
    ensures SourceSpec("(", start, tables) == PL.Read(None)
  {
    var inp := SourceInput("(", start, tables);
    SourceInputLexes("(", start, tables);
    var st0 := State(0, AT.Dummy());
    var st1 := State(1, AT.Token(AT.OpenDelim(AT.Parenthesis), WithRootCtxt(PL.At(inp, 0), PL.At(inp, 1))));
    var end := PL.At(inp, 1);
    var st2 := State(1, AT.Token(AT.Eof, WithRootCtxt(end, end)));
    NextOnOneChar(inp, st0, AT.OpenDelim(AT.Parenthesis), st1);
    var n0 := NextSpec(inp, st0, false).value;
    NextOnEnd(inp, st1, st2);
    assert TreesSpec(inp, st1, true) == PL.Read(Trees(Alone, TokenStream([]), false, st2)) by {
      LoopStops(inp, st2, true, Alone, []);
    }
    OpenFailureFailsLoop(inp, st1, false, n0.spacing, []);
    assert AllSpec(inp, 0) == PL.Read(Trees(n0.spacing, TokenStream([]), false, st2));
  }

  /** In the source `(}`, the parenthesis group ends on the brace and is
      built, leaving the brace buffered. */
  lemma StrayCloseGroup(inp: PL.Input, st1: State, st2: State)
    requires PL.Lexes(inp) && PL.Fits(inp) && inp.src == "(}"
    requires st1 == State(1, AT.Token(AT.OpenDelim(AT.Parenthesis), WithRootCtxt(PL.At(inp, 0), PL.At(inp, 1))))
    requires st2 == State(2, AT.Token(AT.CloseDelim(AT.Brace), WithRootCtxt(PL.At(inp, 1), PL.At(inp, 2))))
    ensures var r := OpenDelimSpec(inp, st1, AT.Parenthesis);
      r.Read? && r.value.tree.Some? && r.value.after == st2
  {
    NextOnOneChar(inp, st1, AT.CloseDelim(AT.Brace), st2);
    var n1 := NextSpec(inp, st1, false).value;
    assert TreesSpec(inp, st1, true) == PL.Read(Trees(n1.spacing, TokenStream([]), true, st2)) by {
      LoopStops(inp, st2, true, n1.spacing, []);
    }
    MismatchedClose(inp, st1, AT.Parenthesis);
  }

  /** A close delimiter of another kind ends the group but is then stray at
      the top level: the source `(}` gives no stream. */
  lemma StrayCloseFails(start: BytePos, tables: LT.UnicodeData)
    requires start.value + Utf8Len("(}") < U32_LIMIT
    ensures SourceSpec("(}", start, tables) == PL.Read(None)
  {
    var inp := SourceInput("(}", start, tables);
    SourceInputLexes("(}", start, tables);
    var st0 := State(0, AT.Dummy());
    var st1 := State(1, AT.Token(AT.OpenDelim(AT.Parenthesis), WithRootCtxt(PL.At(inp, 0), PL.At(inp, 1))));
    var st2 := State(2, AT.Token(AT.CloseDelim(AT.Brace), WithRootCtxt(PL.At(inp, 1), PL.At(inp, 2))));
    NextOnOneChar(inp, st0, AT.OpenDelim(AT.Parenthesis), st1);
    var n0 := NextSpec(inp, st0, false).value;
    StrayCloseGroup(inp, st1, st2);
    var group := OpenDelimSpec(inp, st1, AT.Parenthesis).value.tree.value;
    assert LoopSpec(inp, st1, false, n0.spacing, []) == PL.Read(Trees(n0.spacing, TokenStream([group]), false, st2)) by {
      assert [] + [group] == [group];
      LoopStops(inp, st2, false, n0.spacing, [group]);
    }
  }

  class TokenTreesReader {
    const reader: PL.StringReader
    /** The buffered token. */
    var token: AT.Token

    function Source(): PL.Input {
      reader.Source()
    }

    ghost function Current(): State
      reads this, reader.cursor
    {
      State(reader.cursor.pos, token)
    }

    ghost predicate Valid()
      reads this, reader, reader.cursor
    {
      reader.Valid() && Wf(Source(), Current())
    }

    /** The builder of `parse_all_token_trees`, with the dummy token buffered. */
    constructor (stringReader: PL.StringReader)
      requires stringReader.Valid()
      ensures reader == stringReader && token == AT.Dummy() && Valid()
    {
      reader := stringReader;
      token := AT.Dummy();
    }

    /** `next_token`. */
    method NextToken(glue: bool) returns (r: PL.Read<(AT.Token, Spacing)>)
      requires Valid()
      modifies this, reader, reader.cursor
      ensures match NextSpec(Source(), old(Current()), glue)
        case Halted(h) => r == PL.Halted(h)
        case Read(n) => r == PL.Read((n.token, n.spacing)) && Valid() && Current() == n.after
    {
      ghost var st0 := Current();
      var spacing: Spacing, nextTok: AT.Token;
      while true
        invariant reader.Valid() && Wf(Source(), Current())
        invariant NextSpec(Source(), st0, glue) == NextSpec(Source(), Current(), glue)
        decreases |reader.src| - reader.cursor.pos
      {
        // The reader's state at the start of this round.
        ghost var st := Current();
        var lexeme := reader.NextToken();
        if lexeme.Halted? {
          return PL.Halted(lexeme.halt);
        }
        var next := lexeme.value.token;
        if lexeme.value.spaced {
          spacing, nextTok := Alone, next;
          break;
        }
        var notGlued := false;
        if glue {
          var glued := AT.Glue(token, next);
          if glued.Some? {
            AT.GluePunct(token.kind, next.kind);
            token := glued.value;
          } else {
            notGlued := true;
          }
        }
        if !glue || notGlued {
          spacing, nextTok := SpacingOf(next), next;
          break;
        }
      }
      var thisTok := token;
      token := nextTok;
      r := PL.Read((thisTok, spacing));
    }

    /** `parse_token_trees`. */
    method ParseTokenTrees(inGroup: bool) returns (r: PL.Read<(Spacing, TokenStream, bool)>)
      requires Valid() && token.kind != AT.Eof
      modifies this, reader, reader.cursor
      ensures match TreesSpec(Source(), old(Current()), inGroup)
        case Halted(h) => r == PL.Halted(h)
        case Read(t) => r == PL.Read((t.spacing, t.stream, t.ok)) && Valid() && Current() == t.after
      decreases Rank(Source(), Current()), 1
    {
      ghost var st0 := Current();
      var first := NextToken(false);
      if first.Halted? {
        return PL.Halted(first.halt);
      }
      var openSpacing := first.value.1;
      ghost var st1 := Current();
      var buf: seq<TokenTree> := [];
      while true
        invariant Valid() && Rank(Source(), Current()) < Rank(Source(), st0)
        invariant LoopSpec(Source(), st1, inGroup, openSpacing, []) == LoopSpec(Source(), Current(), inGroup, openSpacing, buf)
        decreases Rank(Source(), Current())
      {
        if token.kind.OpenDelim? {
          var tree := ParseTtOpenDelim(token.kind.delim);
          if tree.Halted? {
            return PL.Halted(tree.halt);
          }
          if tree.value.None? {
            return PL.Read((openSpacing, TokenStream(buf), false));
          }
          buf := buf + [tree.value.value];
        } else if token.kind.CloseDelim? {
          return PL.Read((openSpacing, TokenStream(buf), inGroup));
        } else if token.kind == AT.Eof {
          return PL.Read((openSpacing, TokenStream(buf), !inGroup));
        } else {
          var next := NextToken(true);
          if next.Halted? {
            return PL.Halted(next.halt);
          }
          buf := buf + [SingleToken(next.value.0, next.value.1)];
        }
      }
    }

    /** `parse_tt_open_delim`. */
    method ParseTtOpenDelim(d: AT.Delimiter) returns (r: PL.Read<Option<TokenTree>>)
      requires Valid() && token.kind == AT.OpenDelim(d)
      modifies this, reader, reader.cursor
      ensures match OpenDelimSpec(Source(), old(Current()), d)
        case Halted(h) => r == PL.Halted(h)
        case Read(o) => r == PL.Read(o.tree) && Valid() && Current() == o.after
      decreases Rank(Source(), Current()), 2
    {
      var startSpan := token.span;
      var trees := ParseTokenTrees(true);
      if trees.Halted? {
        return PL.Halted(trees.halt);
      }
      var (openSpacing, tts, ok) := trees.value;
      if !ok {
        return PL.Read(None);
      }
      var groupSpan := FromPair(startSpan, token.span);
      var closeSpacing := Alone;
      if token.kind == AT.CloseDelim(d) {
        var close := NextToken(false);
        if close.Halted? {
          return PL.Halted(close.halt);
        }
        closeSpacing := close.value.1;
      }
      r := PL.Read(Some(TokenGroup(groupSpan, GroupSpacing(openSpacing, closeSpacing), d, tts)));
    }

    /** `parse_all_token_trees`: the top-level stream and whether it ended at
        `Eof`. */
    static method ParseAllTokenTrees(stringReader: PL.StringReader) returns (r: PL.Read<(TokenStream, bool)>)
      requires stringReader.Valid()
      modifies stringReader, stringReader.cursor
      ensures match AllSpec(stringReader.Source(), old(stringReader.cursor.pos))
        case Halted(h) => r == PL.Halted(h)
        case Read(t) => r == PL.Read((t.stream, t.ok))
    {
      var builder := new TokenTreesReader(stringReader);
      var trees := builder.ParseTokenTrees(false);
      if trees.Halted? {
        return PL.Halted(trees.halt);
      }
      var (_, stream, ok) := trees.value;
      r := PL.Read((stream, ok));
    }
  }

  /** `parse_token_trees` of the `lex` module, without the shebang step. */
  method ParseSource(source: string, start: BytePos, tables: LT.UnicodeData) returns (r: PL.Read<Option<TokenStream>>)
    requires start.value + Utf8Len(source) < U32_LIMIT
    ensures r == SourceSpec(source, start, tables)
  {
    var stringReader := new PL.StringReader(source, start, tables);
    var trees := TokenTreesReader.ParseAllTokenTrees(stringReader);
    if trees.Halted? {
      return PL.Halted(trees.halt);
    }
    var (stream, ok) := trees.value;
    r := PL.Read(if ok then Some(stream) else None);
  }
}
