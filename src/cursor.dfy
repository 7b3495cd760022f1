/** The forward-only character scanner of the raw lexer (`lex::cursor`). */
module LexCursor {
  import opened Std

  /** What the peek functions return past the end of the input. */
  const EOF_CHAR: char := '\0'

  /** The character `k` places ahead in `s`, or `EOF_CHAR` when `s` is shorter. */
  function Peek(s: string, k: nat): (c: char)
    ensures k < |s| ==> c == s[k]
    ensures k >= |s| ==> c == EOF_CHAR
  {
    if k < |s| then s[k] else EOF_CHAR
  }

  /** The length of the longest prefix of `s` whose characters all satisfy `f`. */
  function TakeWhileLen(s: string, f: char -> bool): (n: nat)
    ensures n <= |s|
  {
    if s == [] || !f(s[0]) then 0 else 1 + TakeWhileLen(s[1..], f)
  }

  /** `take_while` takes only characters satisfying `f`, and stops at the
      end of the input or at the first character that does not. */
  lemma {:induction false} TakeWhileLenMaximal(s: string, f: char -> bool)
    ensures forall i :: 0 <= i < TakeWhileLen(s, f) ==> f(s[i])
    ensures TakeWhileLen(s, f) == |s| || !f(s[TakeWhileLen(s, f)])
  {
    if s != [] && f(s[0]) {
      TakeWhileLenMaximal(s[1..], f);
      assert forall i :: 1 <= i < TakeWhileLen(s, f) ==> s[i] == s[1..][i - 1];
    }
  }

  class Cursor {
    /** The input the `Chars` iterator walks over. */
    const src: string
    /** Where the iterator stands in `src`; it still holds `src[pos..]`. */
    var pos: nat
    /** The byte length of the input at the last reset. */
    var remainingLen: nat
    /** Where the iterator stood at creation or at the last reset. */
    ghost var resetAt: nat

    ghost predicate Valid()
      reads this
    {
      resetAt <= pos <= |src| && remainingLen == Utf8Len(src[resetAt..])
    }

    /** What the iterator still holds. */
    ghost function Chars(): string
      reads this
      requires Valid()
    {
      src[pos..]
    }

    /** `Cursor::new`. */
    constructor (input: string)
      ensures Valid() && src == input && pos == 0 && resetAt == 0
    {
      src := input;
      pos := 0;
      remainingLen := Utf8Len(input);
      resetAt := 0;
    }

    /** `take_char`: removes and returns the first remaining character. */
    method TakeChar() returns (r: Option<char>)
      requires Valid()
      modifies this
      ensures Valid() && resetAt == old(resetAt)
      ensures r.None? <==> old(pos) == |src|
      ensures r.None? ==> pos == old(pos)
      ensures r.Some? ==> r.value == src[old(pos)] && pos == old(pos) + 1
    {
      if pos == |src| {
        r := None;
      } else {
        r := Some(src[pos]);
        pos := pos + 1;
      }
    }

    /** `take_while`: takes characters as long as `f` holds of the next one. */
    method TakeWhile(f: char -> bool)
      requires Valid()
      modifies this
      ensures Valid() && resetAt == old(resetAt)
      ensures pos == old(pos) + TakeWhileLen(src[old(pos)..], f)
    {
      ghost var p0 := pos;
      while f(PeekFirstChar()) && !IsEof()
        invariant Valid() && resetAt == old(resetAt) && p0 <= pos
        invariant TakeWhileLen(src[p0..], f) == pos - p0 + TakeWhileLen(src[pos..], f)
        decreases |src| - pos
      {
        assert src[pos..][1..] == src[pos + 1..];
        var _ := TakeChar();
      }
    }

    /** `is_eof`. */
    function IsEof(): (b: bool)
      reads this
      requires Valid()
      ensures b <==> Utf8Len(Chars()) == 0
    {
      pos == |src|
    }

    /** `peek_first_char`. */
    function PeekFirstChar(): (c: char)
      reads this
      requires Valid()
      ensures c == Peek(Chars(), 0)
    {
      Peek(src, pos)
    }

    /** `peek_second_char`. */
    function PeekSecondChar(): (c: char)
      reads this
      requires Valid()
      ensures c == Peek(Chars(), 1)
    {
      Peek(src, pos + 1)
    }

    /** `peek_third_char`. */
    function PeekThirdChar(): (c: char)
      reads this
      requires Valid()
      ensures c == Peek(Chars(), 2)
    {
      Peek(src, pos + 2)
    }

    /** `pos_in_token`: the bytes taken since creation or the last reset,
        cast to `u32` (so kept modulo 2^32). */
    function PosInToken(): (n: nat)
      reads this
      requires Valid()
      ensures n == Utf8Len(src[resetAt..pos]) % 0x1_0000_0000
    {
      Utf8LenSplit(src[resetAt..], pos - resetAt);
      assert src[resetAt..][..pos - resetAt] == src[resetAt..pos];
      (remainingLen - Utf8Len(src[pos..])) % 0x1_0000_0000
    }

    /** `reset_pos_in_token`: nothing is taken, the count starts again. */
    method ResetPosInToken()
      requires Valid()
      modifies this
      ensures Valid() && pos == old(pos) && resetAt == pos
      ensures PosInToken() == 0
    {
      remainingLen := Utf8Len(src[pos..]);
      resetAt := pos;
    }
  }
}
