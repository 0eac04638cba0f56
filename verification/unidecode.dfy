/**
  fancyToAscii: every code point of the input that is a key of the table is
  replaced by its value; every other code point is copied unchanged.

  The input is the sequence of code points a `for…of` walk over the string
  yields, and the output is the sequence of code points of the returned string.
 */
module Unidecode {
  import opened Glyphs
  import opened GlyphTable

  /** The replacement for one code point: the table's value, or the code point itself. */
  function Replacement(t: GlyphMap, c: CodePoint): CodePoint {
    if c in t then t[c] else c
  }

  /** A JavaScript value as `map[ch]` yields it: `undefined` for a missing key, or a string. */
  datatype JsValue = Undefined | Str(text: seq<CodePoint>)

  /** The table as JavaScript holds it, from one-code-point keys to string values. */
  type StringTable = map<CodePoint, seq<CodePoint>>

  /** Property access `map[ch]`. */
  function Get(st: StringTable, c: CodePoint): JsValue {
    if c in st then Str(st[c]) else Undefined
  }

  /** `undefined` and the empty string are falsy; every other string is truthy. */
  predicate Truthy(v: JsValue) {
    v.Str? && |v.text| > 0
  }

  /** `v || fallback` for a lookup result and a string fallback. */
  function Or(v: JsValue, fallback: seq<CodePoint>): seq<CodePoint> {
    if Truthy(v) then v.text else fallback
  }

  /** The table with each value as the one-code-point string the module stores. */
  function AsStrings(t: GlyphMap): StringTable {
    map c | c in t :: [t[c]]
  }

  /**
    When every value is a non-empty string, `||` takes its fallback exactly
    when `ch` is not a key: `map[ch] || ch` yields the value for a key and
    `ch` for a non-key.
   */
  lemma OrFallsBackExactlyWhenAbsent(st: StringTable, c: CodePoint)
    requires forall k :: k in st ==> |st[k]| > 0
    ensures !Truthy(Get(st, c)) <==> c !in st
    ensures c in st ==> Or(Get(st, c), [c]) == st[c]
    ensures c !in st ==> Or(Get(st, c), [c]) == [c]
  {
  }

  /** An empty value is falsy, so `map[ch] || ch` falls back to `ch` even though `ch` is a key. */
  lemma EmptyValueFallsBack(st: StringTable, c: CodePoint)
    requires c in st && st[c] == []
    ensures Or(Get(st, c), [c]) == [c]
  {
  }

  /**
    `map[ch] || ch` on the string-valued table is the one-code-point string
    of `Replacement`: every value the module stores is a single letter, so
    never empty.
   */
  lemma LookupIsReplacement(t: GlyphMap, c: CodePoint)
    ensures Or(Get(AsStrings(t), c), [c]) == [Replacement(t, c)]
  {
    OrFallsBackExactlyWhenAbsent(AsStrings(t), c);
  }

  /** The normaliser, parametrised by its table. */
  function Normalize(t: GlyphMap, s: seq<CodePoint>): (r: seq<CodePoint>)
    ensures |r| == |s|
  {
    if |s| == 0 then [] else [Replacement(t, s[0])] + Normalize(t, s[1..])
  }

  /**
    The loop of fancyToAscii over a given table: for each code point `ch`,
    `out` grows by `map[ch] || ch`.
   */
  method NormalizeWith(t: GlyphMap, str: seq<CodePoint>) returns (out: seq<CodePoint>)
    ensures |out| == |str|
    ensures forall i :: 0 <= i < |str| && str[i] in t ==> out[i] == t[str[i]]
    ensures forall i :: 0 <= i < |str| && str[i] !in t ==> out[i] == str[i]
    ensures out == Normalize(t, str)
  {
    var st := AsStrings(t);
    out := [];
    var i := 0;
    while i < |str|
      invariant 0 <= i <= |str|
      invariant |out| == i
      invariant forall k :: 0 <= k < i ==> out[k] == Replacement(t, str[k])
    {
      var ch := str[i];
      LookupIsReplacement(t, ch);
      out := out + Or(Get(st, ch), [ch]);
      i := i + 1;
    }
    NormalizeIsPointwise(t, str);
  }

  /** fancyToAscii: the loop run over the fancy-letter table. */
  method FancyToAscii(str: seq<CodePoint>) returns (out: seq<CodePoint>)
    ensures |out| == |str|
    ensures forall i :: 0 <= i < |str| && str[i] in Table ==> out[i] == Table[str[i]]
    ensures forall i :: 0 <= i < |str| && str[i] !in Table ==> out[i] == str[i]
    ensures out == Normalize(Table, str)
  {
    out := NormalizeWith(Table, str);
  }

  /** Position `i` of the output depends on position `i` of the input only. */
  lemma {:induction false} NormalizeIsPointwise(t: GlyphMap, s: seq<CodePoint>)
    ensures forall i :: 0 <= i < |s| ==> Normalize(t, s)[i] == Replacement(t, s[i])
  {
    if |s| > 0 {
      NormalizeIsPointwise(t, s[1..]);
    }
  }

  /** The normaliser distributes over concatenation: it works code point by code point. */
  lemma {:induction false} NormalizeAppend(t: GlyphMap, a: seq<CodePoint>, b: seq<CodePoint>)
    ensures Normalize(t, a + b) == Normalize(t, a) + Normalize(t, b)
  {
    if |a| == 0 {
      assert a + b == b;
    } else {
      assert (a + b)[0] == a[0];
      assert (a + b)[1..] == a[1..] + b;
      NormalizeAppend(t, a[1..], b);
    }
  }

  /**
    Every value that is itself a key maps to itself. A key may still map to a
    different key, as long as that key is fixed.
   */
  ghost predicate ValuesSettled(t: GlyphMap) {
    forall c :: c in t && t[c] in t ==> t[t[c]] == t[c]
  }

  /** A text is left unchanged exactly when each of its code points is unmapped or mapped to itself. */
  lemma NormalizeFixedPoint(t: GlyphMap, s: seq<CodePoint>)
    ensures Normalize(t, s) == s <==> forall i :: 0 <= i < |s| ==> s[i] !in t || t[s[i]] == s[i]
  {
    NormalizeIsPointwise(t, s);
    if forall i :: 0 <= i < |s| ==> s[i] !in t || t[s[i]] == s[i] {
      assert forall i :: 0 <= i < |s| ==> Normalize(t, s)[i] == s[i];
    }
  }

  /**
    Normalising twice is the same as normalising once, on every text, exactly
    when every value that is itself a key maps to itself.
   */
  lemma NormalizeIdempotentIff(t: GlyphMap)
    ensures (forall s: seq<CodePoint> :: Normalize(t, Normalize(t, s)) == Normalize(t, s))
            <==> ValuesSettled(t)
  {
    if ValuesSettled(t) {
      forall s: seq<CodePoint> ensures Normalize(t, Normalize(t, s)) == Normalize(t, s) {
        NormalizeIsPointwise(t, s);
        NormalizeIsPointwise(t, Normalize(t, s));
      }
    } else {
      var c :| c in t && t[c] in t && t[t[c]] != t[c];
      NormalizeIsPointwise(t, [c]);
      NormalizeIsPointwise(t, Normalize(t, [c]));
      assert Normalize(t, Normalize(t, [c]))[0] != Normalize(t, [c])[0];
      assert Normalize(t, Normalize(t, [c])) != Normalize(t, [c]);
    }
  }

  /**
    Every value of the fancy-letter table that is itself a key maps to
    itself: values are ASCII letters, and the only ASCII keys, s and x, are
    fixed. 𝓈 (U+1D4C8) maps to s, which is a key, and s maps to s.
   */
  lemma TableValuesSettled()
    ensures ValuesSettled(Table)
  {
    TableValuesAreLetters();
    TableAsciiKeys();
  }

  /** fancyToAscii is idempotent. */
  lemma FancyToAsciiIdempotent(s: seq<CodePoint>)
    ensures Normalize(Table, Normalize(Table, s)) == Normalize(Table, s)
  {
    TableValuesSettled();
    NormalizeIdempotentIff(Table);
  }

  /** Plain ASCII text passes through unchanged. */
  lemma AsciiIsUnchanged(s: seq<CodePoint>)
    requires forall i :: 0 <= i < |s| ==> IsAscii(s[i])
    ensures Normalize(Table, s) == s
  {
    TableAsciiKeys();
    NormalizeFixedPoint(Table, s);
  }

  /**
    Every code point the normaliser changes is a key of the table, and it is
    replaced by an ASCII letter; every other code point is copied.
   */
  lemma ChangesAreLetters(s: seq<CodePoint>)
    ensures forall i :: 0 <= i < |s| ==>
              var o := Normalize(Table, s)[i];
              o == s[i] || (s[i] in Table && IsAsciiLetter(o))
  {
    NormalizeIsPointwise(Table, s);
    TableValuesAreLetters();
  }
}
