/**
  The two registration primitives of the fancy-letter table and the fold that
  applies a list of registrations in order, later writes overriding earlier ones.

  The table is a map from one code point to one code point. registerRange
  creates its keys and values with `String.fromCodePoint`, which rejects
  anything outside 0..0x10FFFF with a RangeError; reg copies object literals
  whose keys and values are one-letter string literals.
 */
module Glyphs {
  import opened Wrappers

  const MaxCodePoint: int := 0x10FFFF

  predicate IsCodePoint(c: int) {
    0 <= c <= MaxCodePoint
  }

  /** A Unicode code point, as `String.fromCodePoint` accepts it (surrogates included). */
  type CodePoint = c: int | IsCodePoint(c)

  /** The lookup table: fancy code point to replacement code point. */
  type GlyphMap = map<CodePoint, CodePoint>

  /** The RangeError `String.fromCodePoint` throws, carrying the rejected number. */
  datatype RangeError = InvalidCodePoint(value: int)

  /** One registration call of the table's construction. */
  datatype Registration =
    | Range(start: int, end: int, asciiStart: int)   // registerRange(start, end, asciiStart)
    | Pairs(table: GlyphMap)                          // reg({ key: value, ... })

  /** True when registerRange(start, end, asciiStart) completes without throwing. */
  predicate RangeIsValid(start: int, end: int, asciiStart: int) {
    end < start
    || (IsCodePoint(start) && IsCodePoint(end)
        && IsCodePoint(asciiStart) && IsCodePoint(asciiStart + (end - start)))
  }

  /**
    The loop of registerRange from iteration `i` on: write `start + i` to
    `asciiStart + i`, then continue with `i + 1`, until `i` passes `end - start`.
    The key is converted before the value, so an invalid key is reported first.
   */
  function RegisterRangeFrom(m: GlyphMap, start: int, end: int, asciiStart: int, i: nat)
    : (r: Result<GlyphMap, RangeError>)
    decreases end - start + 1 - i
    ensures r.Success? <==>
              (i > end - start
               || (IsCodePoint(start + i) && IsCodePoint(end)
                   && IsCodePoint(asciiStart + i) && IsCodePoint(asciiStart + (end - start))))
    ensures r.Failure? ==> !IsCodePoint(r.error.value)
    ensures r.Success? ==> forall k: CodePoint :: k in r.value <==> k in m || start + i <= k <= end
    ensures r.Success? ==>
              forall k: CodePoint :: start + i <= k <= end ==> r.value[k] == asciiStart + (k - start)
    ensures r.Success? ==>
              forall k: CodePoint :: k in m && !(start + i <= k <= end) ==> r.value[k] == m[k]
  {
    if i > end - start then Success(m)
    else if !IsCodePoint(start + i) then Failure(InvalidCodePoint(start + i))
    else if !IsCodePoint(asciiStart + i) then Failure(InvalidCodePoint(asciiStart + i))
    else RegisterRangeFrom(m[start + i := asciiStart + i], start, end, asciiStart, i + 1)
  }

  /**
    registerRange(start, end, asciiStart): key `start + i` gets value
    `asciiStart + i` for every `0 <= i <= end - start`; every other key keeps its value.
   */
  function RegisterRange(m: GlyphMap, start: int, end: int, asciiStart: int)
    : (r: Result<GlyphMap, RangeError>)
    ensures r.Success? <==> RangeIsValid(start, end, asciiStart)
    ensures r.Failure? ==> !IsCodePoint(r.error.value)
    ensures end < start ==> r == Success(m)
    ensures r.Success? ==> forall k: CodePoint :: k in r.value <==> k in m || start <= k <= end
    ensures r.Success? ==>
              forall k: CodePoint :: start <= k <= end ==> r.value[k] == asciiStart + (k - start)
    ensures r.Success? ==>
              forall k: CodePoint :: k in m && !(start <= k <= end) ==> r.value[k] == m[k]
  {
    RegisterRangeFrom(m, start, end, asciiStart, 0)
  }

  /**
    reg(o): every own key of the object literal `o` is copied into the table.
    An object literal has distinct keys, so the order of the `for…in` walk
    does not matter.
   */
  function Reg(m: GlyphMap, o: GlyphMap): (r: GlyphMap)
    ensures forall k :: k in r <==> k in m || k in o
    ensures forall k :: k in o ==> r[k] == o[k]
    ensures forall k :: k in m && k !in o ==> r[k] == m[k]
  {
    m + o
  }

  /**
    The object literal a valid registerRange call amounts to, built key by
    key from `end` down: `start + i` maps to `asciiStart + i`.
   */
  function RangeObject(start: int, end: int, asciiStart: int): GlyphMap
    requires RangeIsValid(start, end, asciiStart)
    decreases end - start
  {
    if end < start then map[]
    else RangeObject(start, end - 1, asciiStart)[end := asciiStart + (end - start)]
  }

  /** The range's object literal has exactly the keys `start..end`, key `k` holding `asciiStart + (k - start)`. */
  lemma {:induction false} RangeObjectContents(start: int, end: int, asciiStart: int)
    requires RangeIsValid(start, end, asciiStart)
    ensures forall k :: k in RangeObject(start, end, asciiStart) <==> start <= k <= end
    ensures forall k :: k in RangeObject(start, end, asciiStart) ==>
              RangeObject(start, end, asciiStart)[k] == asciiStart + (k - start)
    decreases end - start
  {
    if start <= end {
      RangeObjectContents(start, end - 1, asciiStart);
    }
  }

  /** A registerRange call that does not throw has the effect of reg on its range's object literal. */
  lemma RegisterRangeIsReg(m: GlyphMap, start: int, end: int, asciiStart: int)
    requires RangeIsValid(start, end, asciiStart)
    ensures RegisterRange(m, start, end, asciiStart) == Success(Reg(m, RangeObject(start, end, asciiStart)))
  {
    RangeObjectContents(start, end, asciiStart);
    var r := RegisterRange(m, start, end, asciiStart).value;
    var o := RangeObject(start, end, asciiStart);
    assert forall k :: k in r <==> k in Reg(m, o);
    assert r == Reg(m, o);
  }

  /** True when the registration can be performed without a RangeError. */
  predicate IsValid(e: Registration) {
    match e
    case Range(start, end, asciiStart) => RangeIsValid(start, end, asciiStart)
    case Pairs(_) => true
  }

  /** The keys a registration writes. */
  predicate Covers(e: Registration, c: int) {
    match e
    case Range(start, end, _) => start <= c <= end
    case Pairs(table) => c in table
  }

  /** The value a registration writes under a key it covers. */
  function Written(e: Registration, c: int): int
    requires Covers(e, c)
  {
    match e
    case Range(start, _, asciiStart) => asciiStart + (c - start)
    case Pairs(table) => table[c]
  }

  /** Performs one registration on the table. */
  function Register(m: GlyphMap, e: Registration): (r: Result<GlyphMap, RangeError>)
    ensures r.Success? <==> IsValid(e)
    ensures r.Success? ==> forall k: CodePoint :: k in r.value <==> k in m || Covers(e, k)
    ensures r.Success? ==> forall k: CodePoint :: Covers(e, k) ==> r.value[k] == Written(e, k)
    ensures r.Success? ==> forall k: CodePoint :: k in m && !Covers(e, k) ==> r.value[k] == m[k]
  {
    match e
    case Range(start, end, asciiStart) => RegisterRange(m, start, end, asciiStart)
    case Pairs(table) => Success(Reg(m, table))
  }

  /**
    Runs the registrations in order on an initially empty table, as the module
    body does at load time. A RangeError aborts the module, so no partial
    table survives it.
   */
  function Build(es: seq<Registration>): (r: Result<GlyphMap, RangeError>)
    ensures r.Success? <==> forall i :: 0 <= i < |es| ==> IsValid(es[i])
  {
    if |es| == 0 then Success(map[])
    else
      match Build(es[..|es| - 1])
      case Failure(err) => Failure(err)
      case Success(m) => Register(m, es[|es| - 1])
  }

  /**
    Reference semantics of "later registrations overwrite earlier ones": the
    index of the last registration that writes `c`, if any does.
   */
  function LastWriter(es: seq<Registration>, c: int): (r: Option<nat>)
    ensures r.Some? ==>
              && r.value < |es|
              && Covers(es[r.value], c)
              && forall j :: r.value < j < |es| ==> !Covers(es[j], c)
    ensures r.None? ==> forall j :: 0 <= j < |es| ==> !Covers(es[j], c)
  {
    if |es| == 0 then None
    else if Covers(es[|es| - 1], c) then Some(|es| - 1)
    else LastWriter(es[..|es| - 1], c)
  }

  /**
    The folded table agrees with the reference semantics: a code point is a key
    exactly when some registration writes it, and its value is the one the
    last such registration writes.
   */
  lemma {:induction false} BuildIsLastWriteWins(es: seq<Registration>, c: CodePoint)
    requires Build(es).Success?
    ensures match LastWriter(es, c)
            case None => c !in Build(es).value
            case Some(j) => c in Build(es).value && Build(es).value[c] == Written(es[j], c)
  {
    if |es| > 0 {
      var prefix := es[..|es| - 1];
      assert forall i :: 0 <= i < |prefix| ==> prefix[i] == es[i];
      BuildIsLastWriteWins(prefix, c);
      if !Covers(es[|es| - 1], c) {
        assert LastWriter(es, c) == LastWriter(prefix, c);
      }
    }
  }

  /** A key whose last writer is registration `j` holds the value `j` writes. */
  lemma WrittenLastWins(es: seq<Registration>, j: nat, c: CodePoint)
    requires Build(es).Success?
    requires j < |es| && Covers(es[j], c)
    requires forall k :: j < k < |es| ==> !Covers(es[k], c)
    ensures c in Build(es).value && Build(es).value[c] == Written(es[j], c)
  {
    BuildIsLastWriteWins(es, c);
  }

  /** A code point that no registration writes is not a key. */
  lemma NeverWrittenIsAbsent(es: seq<Registration>, c: CodePoint)
    requires Build(es).Success?
    requires forall k :: 0 <= k < |es| ==> !Covers(es[k], c)
    ensures c !in Build(es).value
  {
    BuildIsLastWriteWins(es, c);
  }

  /** Registration `i` writes only code points inside the interval `bs[i]`. */
  ghost predicate StaysInBlocks(es: seq<Registration>, bs: seq<(int, int)>) {
    && |es| == |bs|
    && forall i, c :: 0 <= i < |es| && Covers(es[i], c) ==> bs[i].0 <= c <= bs[i].1
  }

  /** No two of the intervals share a point. */
  ghost predicate DisjointBlocks(bs: seq<(int, int)>) {
    forall i, k :: 0 <= i < k < |bs| ==> bs[i].1 < bs[k].0 || bs[k].1 < bs[i].0
  }

  /** When registrations keep to disjoint blocks, no code point is written twice. */
  lemma BlockedWritersAreUnique(es: seq<Registration>, bs: seq<(int, int)>)
    requires StaysInBlocks(es, bs) && DisjointBlocks(bs)
    ensures forall i, k, c :: 0 <= i < k < |es| && Covers(es[i], c) ==> !Covers(es[k], c)
  {
  }

  /**
    When registrations keep to disjoint blocks, registration `j` alone decides
    the built table inside block `j`: a code point there is a key exactly when
    `j` writes it, and it holds what `j` writes.
   */
  lemma {:induction false} BuiltBlockDecides(es: seq<Registration>, bs: seq<(int, int)>, j: nat, c: CodePoint)
    requires Build(es).Success?
    requires StaysInBlocks(es, bs) && DisjointBlocks(bs)
    requires j < |bs| && bs[j].0 <= c <= bs[j].1
    ensures c in Build(es).value <==> Covers(es[j], c)
    ensures c in Build(es).value ==> Build(es).value[c] == Written(es[j], c)
  {
    BuildIsLastWriteWins(es, c);
    match LastWriter(es, c)
    case None =>
    case Some(k) =>
      assert bs[k].0 <= c <= bs[k].1;
      assert k == j;
  }

  /** A code point outside every block of registrations that keep to their blocks is never a key. */
  lemma BuiltOutsideBlocks(es: seq<Registration>, bs: seq<(int, int)>, c: CodePoint)
    requires Build(es).Success?
    requires StaysInBlocks(es, bs)
    requires forall j :: 0 <= j < |bs| ==> !(bs[j].0 <= c <= bs[j].1)
    ensures c !in Build(es).value
  {
    NeverWrittenIsAbsent(es, c);
  }
}
