/** The few pieces of Rust's standard library that the lexer relies on:
    `Option`, `Result`, `char::len_utf8`, `str::len`, `char::is_ascii` and
    `char::to_digit`. Strings are sequences of Unicode scalar values; their
    length in bytes is the length of their UTF-8 encoding. */
module Std {

  datatype Option<T> = None | Some(value: T)

  datatype Result<T, E> = Ok(value: T) | Err(error: E)

  /** `char::len_utf8`: the number of bytes UTF-8 uses for `c`. */
  function LenUtf8(c: char): (n: nat)
    ensures 1 <= n <= 4
    ensures n == 1 <==> c as int < 0x80
  {
    if c as int < 0x80 then 1
    else if c as int < 0x800 then 2
    else if c as int < 0x10000 then 3
    else 4
  }

  /** `str::len`: the number of bytes of the UTF-8 encoding of `s`. */
  function Utf8Len(s: string): (n: nat)
    ensures n >= |s|
    ensures s == [] <==> n == 0
  {
    if s == [] then 0 else LenUtf8(s[0]) + Utf8Len(s[1..])
  }

  lemma {:induction false} Utf8LenAppend(a: string, b: string)
    ensures Utf8Len(a + b) == Utf8Len(a) + Utf8Len(b)
  {
    if a == [] {
      assert a + b == b;
    } else {
      assert (a + b)[1..] == a[1..] + b;
      Utf8LenAppend(a[1..], b);
    }
  }

  /** Splitting a string at a character index splits its byte length. */
  lemma Utf8LenSplit(s: string, k: nat)
    requires k <= |s|
    ensures Utf8Len(s) == Utf8Len(s[..k]) + Utf8Len(s[k..])
  {
    assert s == s[..k] + s[k..];
    Utf8LenAppend(s[..k], s[k..]);
  }

  /** The bytes of a prefix are those of a shorter prefix and of the
      characters between the two. */
  lemma Utf8LenPrefixes(s: string, i: nat, j: nat)
    requires i <= j <= |s|
    ensures Utf8Len(s[..j]) == Utf8Len(s[..i]) + Utf8Len(s[i..j])
  {
    assert s[..j][..i] == s[..i];
    assert s[..j][i..] == s[i..j];
    Utf8LenSplit(s[..j], i);
  }

  /** The index of the character that begins at byte `b` of `s`, when `b` is
      a character boundary of `s` (its end included); `None` otherwise. A
      byte index into a `str` is valid exactly when this is `Some`. */
  function CharIndex(s: string, b: nat): (r: Option<nat>)
    ensures r.Some? ==> r.value <= |s| && Utf8Len(s[..r.value]) == b
  {
    if b == 0 then Some(0)
    else if s == [] || b < LenUtf8(s[0]) then None
    else
      match CharIndex(s[1..], b - LenUtf8(s[0]))
      case None => None
      case Some(i) =>
        assert s[..i + 1][1..] == s[1..][..i];
        Some(i + 1)
  }

  /** Every character index is found again from its byte offset. */
  lemma {:induction false} CharIndexOfBoundary(s: string, k: nat)
    requires k <= |s|
    ensures CharIndex(s, Utf8Len(s[..k])) == Some(k)
  {
    if k > 0 {
      assert s[..k][1..] == s[1..][..k - 1];
      CharIndexOfBoundary(s[1..], k - 1);
    }
  }

  /** `&s[lo..hi]` on byte indices: `None` where Rust panics, that is when
      either index is not a character boundary or `lo > hi`. */
  function ByteSlice(s: string, lo: nat, hi: nat): (r: Option<string>)
    ensures r.Some? ==> lo <= hi && Utf8Len(r.value) == hi - lo
  {
    match (CharIndex(s, lo), CharIndex(s, hi))
    case (Some(i), Some(j)) =>
      if i <= j then
        Utf8LenPrefixes(s, i, j);
        Some(s[i..j])
      else None
    case _ => None
  }

  /** Slicing between the byte offsets of two character indices gives the
      characters between them. */
  lemma ByteSliceOfBoundaries(s: string, i: nat, j: nat)
    requires i <= j <= |s|
    ensures ByteSlice(s, Utf8Len(s[..i]), Utf8Len(s[..j])) == Some(s[i..j])
  {
    CharIndexOfBoundary(s, i);
    CharIndexOfBoundary(s, j);
  }

  /** All-ASCII text has one byte per character. */
  lemma {:induction false} Utf8LenAscii(s: string)
    requires forall i :: 0 <= i < |s| ==> IsAscii(s[i])
    ensures Utf8Len(s) == |s|
  {
    if s != [] {
      Utf8LenAscii(s[1..]);
    }
  }

  /** `char::is_ascii`. */
  predicate IsAscii(c: char) {
    c as int < 0x80
  }

  predicate IsAsciiDigit(c: char) {
    '0' <= c <= '9'
  }

  predicate IsAsciiHexDigit(c: char) {
    '0' <= c <= '9' || 'a' <= c <= 'f' || 'A' <= c <= 'F'
  }

  /** `char::to_digit(radix)`: the value of `c` as a digit of `radix`, if it is one. */
  function ToDigit(c: char, radix: nat): (r: Option<nat>)
    requires 2 <= radix <= 36
    ensures r.Some? ==> r.value < radix
    ensures radix <= 10 ==> (r.Some? <==> '0' <= c && c as int < '0' as int + radix)
    ensures radix == 16 ==> (r.Some? <==> IsAsciiHexDigit(c))
  {
    var v: int :=
      if '0' <= c <= '9' then c as int - '0' as int
      else if 'a' <= c <= 'z' then c as int - 'a' as int + 10
      else if 'A' <= c <= 'Z' then c as int - 'A' as int + 10
      else 36;
    if v < radix then Some(v) else None
  }
}
