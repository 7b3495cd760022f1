/** Byte positions and source spans (`source_idx`). */
module SourceIdx {

  const U32_LIMIT: int := 0x1_0000_0000

  /** A Rust `u32`. */
  type u32 = x: int | 0 <= x < 0x1_0000_0000

  /** The context of the root (non-expanded) source. */
  const ROOT_CTXT: u32 := 0

  /** An interned string. The Rust code's `Symbol` is a unit struct; here a
      symbol keeps the string it was made from, so that a literal's symbol
      can be stated as its text (every caller passes the token's text). */
  datatype Symbol = Symbol(text: string)

  /** `Symbol::get_or_store`. */
  function GetOrStore(s: string): (sym: Symbol)
    ensures sym.text == s
  {
    Symbol(s)
  }

  /** A byte offset into the current source buffer. */
  datatype BytePos = BytePos(value: u32)

  /** `BytePos + BytePos`, a plain `u32` addition; overflow is excluded. */
  function Add(a: BytePos, b: BytePos): (r: BytePos)
    requires a.value + b.value < U32_LIMIT
    ensures r.value == a.value + b.value
  {
    BytePos(a.value + b.value)
  }

  /** `BytePos - BytePos`, a plain `u32` subtraction; underflow is excluded. */
  function Sub(a: BytePos, b: BytePos): (r: BytePos)
    requires b.value <= a.value
    ensures r.value == a.value - b.value
  {
    BytePos(a.value - b.value)
  }

  lemma AddThenSub(a: BytePos, b: BytePos)
    requires a.value + b.value < U32_LIMIT
    ensures Sub(Add(a, b), b) == a
  {
  }

  /** `BytePos::from_usize`: `val as u32` keeps the low 32 bits. */
  function FromUsize(v: nat): (r: BytePos)
    ensures v < U32_LIMIT ==> r.value == v
    ensures r.value < U32_LIMIT && (r.value - v) % U32_LIMIT == 0
  {
    BytePos(v % U32_LIMIT)
  }

  /** `BytePos::to_usize`. */
  function ToUsize(p: BytePos): (v: nat)
    ensures v < U32_LIMIT
  {
    p.value
  }

  lemma ToUsizeFromUsize(v: nat)
    requires v < U32_LIMIT
    ensures ToUsize(FromUsize(v)) == v
  {
  }

  lemma FromUsizeToUsize(p: BytePos)
    ensures FromUsize(ToUsize(p)) == p
  {
  }

  /** A half-open byte range `lo..hi` with its expansion context. */
  datatype SrcData = SrcData(lo: u32, hi: u32, ctxt: u32)

  const DUMMY_SRC_DATA: SrcData := SrcData(0, 0, 0)

  predicate WellFormed(sd: SrcData) {
    sd.lo <= sd.hi
  }

  /** `a` covers every byte that `b` covers. */
  predicate Covers(a: SrcData, b: SrcData) {
    a.lo <= b.lo && b.hi <= a.hi
  }

  /** `SrcData::with_root_ctxt`. */
  function WithRootCtxt(lo: BytePos, hi: BytePos): (sd: SrcData)
    ensures sd.lo == lo.value && sd.hi == hi.value
    ensures sd.ctxt == ROOT_CTXT
  {
    SrcData(lo.value, hi.value, ROOT_CTXT)
  }

  /** `SrcData::combine`: the smallest range covering both, in the left
      operand's context. */
  function Combine(a: SrcData, b: SrcData): (r: SrcData)
    ensures r.lo <= a.lo && r.lo <= b.lo && (r.lo == a.lo || r.lo == b.lo)
    ensures r.hi >= a.hi && r.hi >= b.hi && (r.hi == a.hi || r.hi == b.hi)
    ensures r.ctxt == a.ctxt
  {
    SrcData(if a.lo <= b.lo then a.lo else b.lo, if a.hi >= b.hi then a.hi else b.hi, a.ctxt)
  }

  lemma CombineCovers(a: SrcData, b: SrcData)
    requires WellFormed(a) && WellFormed(b)
    ensures WellFormed(Combine(a, b))
    ensures Covers(Combine(a, b), a) && Covers(Combine(a, b), b)
  {
  }

  lemma CombineIdempotent(a: SrcData)
    ensures Combine(a, a) == a
  {
  }

  /** The left context wins, so the union commutes exactly when the contexts agree. */
  lemma CombineCommutes(a: SrcData, b: SrcData)
    ensures Combine(a, b) == Combine(b, a) <==> a.ctxt == b.ctxt
  {
  }

  lemma CombineAssociative(a: SrcData, b: SrcData, c: SrcData)
    ensures Combine(Combine(a, b), c) == Combine(a, Combine(b, c))
  {
  }

  /** The spans of a group's open and close delimiters, kept apart. */
  datatype GroupSrcIdx = GroupSrcIdx(open: SrcData, close: SrcData)

  /** `GroupSrcIdx::from_pair` stores both spans unchanged; it does not union them. */
  function FromPair(open: SrcData, close: SrcData): (g: GroupSrcIdx)
    ensures g.open == open && g.close == close
  {
    GroupSrcIdx(open, close)
  }
}
