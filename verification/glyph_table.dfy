/**
  The concrete fancy-letter table, registered in the order of
  utils/unidecode.js, and the facts about it that the normaliser relies on.
 */
module GlyphTable {
  import opened Glyphs

  /**
    The mathematical script literal as the module writes it. B, E, F, H, I, L,
    M, R, e, g and o are absent, as Unicode leaves their slots unassigned; Z
    (U+1D4B5) is absent too, although Unicode assigns it.
   */
  const ScriptLetters: GlyphMap := map[
      0x1D49C := 0x41, 0x1D49E := 0x43, 0x1D49F := 0x44, 0x1D4A2 := 0x47, 0x1D4A5 := 0x4A, 0x1D4A6 := 0x4B,
      0x1D4A9 := 0x4E, 0x1D4AA := 0x4F, 0x1D4AB := 0x50, 0x1D4AC := 0x51, 0x1D4AE := 0x53, 0x1D4AF := 0x54,
      0x1D4B0 := 0x55, 0x1D4B1 := 0x56, 0x1D4B2 := 0x57, 0x1D4B3 := 0x58, 0x1D4B4 := 0x59, 0x1D4B6 := 0x61,
      0x1D4B7 := 0x62, 0x1D4B8 := 0x63, 0x1D4B9 := 0x64, 0x1D4BB := 0x66, 0x1D4BD := 0x68, 0x1D4BE := 0x69,
      0x1D4BF := 0x6A, 0x1D4C0 := 0x6B, 0x1D4C1 := 0x6C, 0x1D4C2 := 0x6D, 0x1D4C3 := 0x6E, 0x1D4C5 := 0x70,
      0x1D4C6 := 0x71, 0x1D4C7 := 0x72, 0x1D4C8 := 0x73, 0x1D4C9 := 0x74, 0x1D4CA := 0x75, 0x1D4CB := 0x76,
      0x1D4CC := 0x77, 0x1D4CD := 0x78, 0x1D4CE := 0x79, 0x1D4CF := 0x7A]

  /**
    The script literal with the missing capital Z (U+1D4B5) added. It is not
    part of the module body: it is what the literal evidently means to say.
   */
  const ScriptLettersCorrected: GlyphMap := ScriptLetters[0x1D4B5 := 0x5A]

  /**
    The slots of the script block that Unicode leaves unassigned, because those
    letters were encoded earlier as letterlike symbols: B E F H I L M R e g o.
   */
  predicate IsScriptHole(c: int) {
    || c == 0x1D49D || c == 0x1D4A0 || c == 0x1D4A1 || c == 0x1D4A3 || c == 0x1D4A4 || c == 0x1D4A7
    || c == 0x1D4A8 || c == 0x1D4AD || c == 0x1D4BA || c == 0x1D4BC || c == 0x1D4C4
  }

  /** The letter that slot `c` of the script block stands for: capitals from U+1D49C, small letters from U+1D4B6. */
  function ScriptLetterOf(c: int): int {
    if c < 0x1D4B6 then 0x41 + (c - 0x1D49C) else 0x61 + (c - 0x1D4B6)
  }

  /**
    A script literal covers exactly the assigned slots of U+1D49C..U+1D4CF,
    each mapped to the letter of its slot.
   */
  ghost predicate CoversAssignedScript(t: GlyphMap) {
    && (forall c :: c in t ==> 0x1D49C <= c <= 0x1D4CF && !IsScriptHole(c) && t[c] == ScriptLetterOf(c))
    && (forall c: CodePoint :: 0x1D49C <= c <= 0x1D4CF && !IsScriptHole(c) ==> c in t)
  }

  /** Mathematical double-struck small letters a..z. */
  const DoubleStruckSmall: GlyphMap := map[
      0x1D552 := 0x61, 0x1D553 := 0x62, 0x1D554 := 0x63, 0x1D555 := 0x64, 0x1D556 := 0x65, 0x1D557 := 0x66,
      0x1D558 := 0x67, 0x1D559 := 0x68, 0x1D55A := 0x69, 0x1D55B := 0x6A, 0x1D55C := 0x6B, 0x1D55D := 0x6C,
      0x1D55E := 0x6D, 0x1D55F := 0x6E, 0x1D560 := 0x6F, 0x1D561 := 0x70, 0x1D562 := 0x71, 0x1D563 := 0x72,
      0x1D564 := 0x73, 0x1D565 := 0x74, 0x1D566 := 0x75, 0x1D567 := 0x76, 0x1D568 := 0x77, 0x1D569 := 0x78,
      0x1D56A := 0x79, 0x1D56B := 0x7A]

  /**
    Small capitals; g and q have no entry, and the plain letters s (0x73) and
    x (0x78) are registered as themselves.
   */
  const SmallCapitals: GlyphMap := map[
      0x1D00 := 0x61, 0x299 := 0x62, 0x1D04 := 0x63, 0x1D05 := 0x64, 0x1D07 := 0x65, 0x493 := 0x66,
      0x29C := 0x68, 0x26A := 0x69, 0x1D0A := 0x6A, 0x1D0B := 0x6B, 0x29F := 0x6C, 0x1D0D := 0x6D,
      0x274 := 0x6E, 0x1D0F := 0x6F, 0x1D18 := 0x70, 0x280 := 0x72, 0x73 := 0x73, 0x1D1B := 0x74,
      0x1D1C := 0x75, 0x1D20 := 0x76, 0x1D21 := 0x77, 0x78 := 0x78, 0x28F := 0x79, 0x1D22 := 0x7A]

  /** Circled Latin small letters a..z. */
  const CircledSmall: GlyphMap := map[
      0x24D0 := 0x61, 0x24D1 := 0x62, 0x24D2 := 0x63, 0x24D3 := 0x64, 0x24D4 := 0x65, 0x24D5 := 0x66,
      0x24D6 := 0x67, 0x24D7 := 0x68, 0x24D8 := 0x69, 0x24D9 := 0x6A, 0x24DA := 0x6B, 0x24DB := 0x6C,
      0x24DC := 0x6D, 0x24DD := 0x6E, 0x24DE := 0x6F, 0x24DF := 0x70, 0x24E0 := 0x71, 0x24E1 := 0x72,
      0x24E2 := 0x73, 0x24E3 := 0x74, 0x24E4 := 0x75, 0x24E5 := 0x76, 0x24E6 := 0x77, 0x24E7 := 0x78,
      0x24E8 := 0x79, 0x24E9 := 0x7A]

  /** Circled Latin capital letters A..Z. */
  const CircledCapital: GlyphMap := map[
      0x24B6 := 0x41, 0x24B7 := 0x42, 0x24B8 := 0x43, 0x24B9 := 0x44, 0x24BA := 0x45, 0x24BB := 0x46,
      0x24BC := 0x47, 0x24BD := 0x48, 0x24BE := 0x49, 0x24BF := 0x4A, 0x24C0 := 0x4B, 0x24C1 := 0x4C,
      0x24C2 := 0x4D, 0x24C3 := 0x4E, 0x24C4 := 0x4F, 0x24C5 := 0x50, 0x24C6 := 0x51, 0x24C7 := 0x52,
      0x24C8 := 0x53, 0x24C9 := 0x54, 0x24CA := 0x55, 0x24CB := 0x56, 0x24CC := 0x57, 0x24CD := 0x58,
      0x24CE := 0x59, 0x24CF := 0x5A]

  /**
    The circled-letter object literal, small letters then capitals; its two
    halves have disjoint keys, so their union is the literal itself.
   */
  const CircledLetters: GlyphMap := CircledSmall + CircledCapital

  /**
    The registration calls of the module body, in source order. The four
    object literals passed to reg are parameters, so that facts about the
    shape of the sequence are proved without unfolding those tables.
   */
  function RegistrationSequence(script: GlyphMap, doubleStruckSmall: GlyphMap,
                                smallCapitals: GlyphMap, circled: GlyphMap): seq<Registration>
  {
    [ Range(0x1D400, 0x1D419, 0x41), Range(0x1D41A, 0x1D433, 0x61),   // bold
      Range(0x1D434, 0x1D44D, 0x41), Range(0x1D44E, 0x1D467, 0x61),   // italic
      Range(0x1D468, 0x1D481, 0x41), Range(0x1D482, 0x1D49B, 0x61),   // bold italic
      Pairs(script),                                                  // script
      Range(0x1D4D0, 0x1D4E9, 0x41), Range(0x1D4EA, 0x1D503, 0x61),   // bold script
      Range(0x1D504, 0x1D51D, 0x41), Range(0x1D51E, 0x1D537, 0x61),   // fraktur
      Range(0x1D56C, 0x1D585, 0x41), Range(0x1D586, 0x1D59F, 0x61),   // bold fraktur
      Range(0x1D538, 0x1D551, 0x41), Pairs(doubleStruckSmall),        // double-struck
      Range(0x1D5A0, 0x1D5B9, 0x41), Range(0x1D5BA, 0x1D5D3, 0x61),   // sans-serif
      Range(0x1D5D4, 0x1D5ED, 0x41), Range(0x1D5EE, 0x1D607, 0x61),   // sans-serif bold
      Range(0x1D608, 0x1D621, 0x41), Range(0x1D622, 0x1D63B, 0x61),   // sans-serif italic
      Range(0x1D63C, 0x1D655, 0x41), Range(0x1D656, 0x1D66F, 0x61),   // sans-serif bold italic
      Range(0x1D670, 0x1D689, 0x41), Range(0x1D68A, 0x1D6A3, 0x61),   // monospace
      Range(0xFF21, 0xFF3A, 0x41), Range(0xFF41, 0xFF5A, 0x61),       // fullwidth
      Pairs(smallCapitals),                                           // small capitals
      Pairs(circled)                                                  // circled letters
    ]
  }

  const Registrations: seq<Registration> :=
    RegistrationSequence(ScriptLetters, DoubleStruckSmall, SmallCapitals, CircledLetters)

  /** The table as it stands once the module body has run. */
  const Table: GlyphMap :=
    (SequenceIsValid(ScriptLetters, DoubleStruckSmall, SmallCapitals, CircledLetters);
     Build(Registrations).value)

  /** The registration calls with the corrected script literal in place of the one the module writes. */
  const RegistrationsCorrected: seq<Registration> :=
    RegistrationSequence(ScriptLettersCorrected, DoubleStruckSmall, SmallCapitals, CircledLetters)

  /** The table the corrected registration calls would build. */
  const TableCorrected: GlyphMap :=
    (SequenceIsValid(ScriptLettersCorrected, DoubleStruckSmall, SmallCapitals, CircledLetters);
     Build(RegistrationsCorrected).value)

  /**
    The code-point block each registration writes into, in registration order:
    the range itself, or an interval holding all keys of an object literal.
   */
  const Blocks: seq<(int, int)> := [
    (0x1D400, 0x1D419), (0x1D41A, 0x1D433),
    (0x1D434, 0x1D44D), (0x1D44E, 0x1D467),
    (0x1D468, 0x1D481), (0x1D482, 0x1D49B),
    (0x1D49C, 0x1D4CF),
    (0x1D4D0, 0x1D4E9), (0x1D4EA, 0x1D503),
    (0x1D504, 0x1D51D), (0x1D51E, 0x1D537),
    (0x1D56C, 0x1D585), (0x1D586, 0x1D59F),
    (0x1D538, 0x1D551), (0x1D552, 0x1D56B),
    (0x1D5A0, 0x1D5B9), (0x1D5BA, 0x1D5D3),
    (0x1D5D4, 0x1D5ED), (0x1D5EE, 0x1D607),
    (0x1D608, 0x1D621), (0x1D622, 0x1D63B),
    (0x1D63C, 0x1D655), (0x1D656, 0x1D66F),
    (0x1D670, 0x1D689), (0x1D68A, 0x1D6A3),
    (0xFF21, 0xFF3A), (0xFF41, 0xFF5A),
    (0x73, 0x1D22),
    (0x24B6, 0x24E9)
  ]

  /** The explicit registrations sit at these positions; all others are ranges. */
  predicate IsPairsPosition(i: int) {
    i == 6 || i == 14 || i == 27 || i == 28
  }

  /** Twenty-nine calls; reg takes the four literals at fixed positions, and every other call is a range. */
  lemma SequenceLayout(script: GlyphMap, doubleStruckSmall: GlyphMap,
                       smallCapitals: GlyphMap, circled: GlyphMap)
    ensures var rs := RegistrationSequence(script, doubleStruckSmall, smallCapitals, circled);
            && |rs| == |Blocks| == 29
            && rs[6] == Pairs(script) && rs[14] == Pairs(doubleStruckSmall)
            && rs[27] == Pairs(smallCapitals) && rs[28] == Pairs(circled)
            && (forall i :: 0 <= i < |rs| && !IsPairsPosition(i) ==> rs[i].Range?)
  {
  }

  lemma SequenceRangesMatchBlocksLow(script: GlyphMap, doubleStruckSmall: GlyphMap,
                                     smallCapitals: GlyphMap, circled: GlyphMap)
    ensures var rs := RegistrationSequence(script, doubleStruckSmall, smallCapitals, circled);
            forall i :: 0 <= i < 15 && rs[i].Range? ==>
              rs[i].start == Blocks[i].0 && rs[i].end == Blocks[i].1
  {
  }

  lemma SequenceRangesMatchBlocksHigh(script: GlyphMap, doubleStruckSmall: GlyphMap,
                                      smallCapitals: GlyphMap, circled: GlyphMap)
    ensures var rs := RegistrationSequence(script, doubleStruckSmall, smallCapitals, circled);
            forall i :: 15 <= i < |rs| && rs[i].Range? ==>
              rs[i].start == Blocks[i].0 && rs[i].end == Blocks[i].1
  {
  }

  /** Each range registration writes exactly its block. */
  lemma SequenceRangesMatchBlocks(script: GlyphMap, doubleStruckSmall: GlyphMap,
                                  smallCapitals: GlyphMap, circled: GlyphMap)
    ensures var rs := RegistrationSequence(script, doubleStruckSmall, smallCapitals, circled);
            forall i :: 0 <= i < |rs| && i < |Blocks| && rs[i].Range? ==>
              rs[i].start == Blocks[i].0 && rs[i].end == Blocks[i].1
  {
    SequenceRangesMatchBlocksLow(script, doubleStruckSmall, smallCapitals, circled);
    SequenceRangesMatchBlocksHigh(script, doubleStruckSmall, smallCapitals, circled);
  }

  /** Every range spans one alphabet: 26 code points, written to `A..Z` or `a..z`. */
  lemma SequenceRangesTargetLetters(script: GlyphMap, doubleStruckSmall: GlyphMap,
                                    smallCapitals: GlyphMap, circled: GlyphMap)
    ensures var rs := RegistrationSequence(script, doubleStruckSmall, smallCapitals, circled);
            forall i :: 0 <= i < |rs| && rs[i].Range? ==>
              && rs[i].end - rs[i].start == 25
              && (rs[i].asciiStart == 0x41 || rs[i].asciiStart == 0x61)
  {
  }

  /** No registration call of the sequence throws. */
  lemma SequenceIsValid(script: GlyphMap, doubleStruckSmall: GlyphMap,
                        smallCapitals: GlyphMap, circled: GlyphMap)
    ensures var rs := RegistrationSequence(script, doubleStruckSmall, smallCapitals, circled);
            forall i :: 0 <= i < |rs| ==> IsValid(rs[i])
  {
    SequenceLayout(script, doubleStruckSmall, smallCapitals, circled);
    SequenceRangesMatchBlocks(script, doubleStruckSmall, smallCapitals, circled);
    SequenceRangesTargetLetters(script, doubleStruckSmall, smallCapitals, circled);
    BlocksAreCodePoints();
  }

  /** `A..Z` or `a..z`. */
  predicate IsAsciiLetter(c: int) {
    0x41 <= c <= 0x5A || 0x61 <= c <= 0x7A
  }

  /** A code point of the ASCII block. */
  predicate IsAscii(c: int) {
    0 <= c < 0x80
  }

  /** A registration writes ASCII letters only. */
  ghost predicate WritesLetters(e: Registration) {
    forall c :: Covers(e, c) ==> IsAsciiLetter(Written(e, c))
  }

  /** The only ASCII keys a registration writes are s and x, each to itself. */
  ghost predicate FixesAscii(e: Registration) {
    forall c :: Covers(e, c) && IsAscii(c) ==> (c == 0x73 || c == 0x78) && Written(e, c) == c
  }

  /** Every value of an object literal is an ASCII letter. */
  ghost predicate LetterValues(t: GlyphMap) {
    forall c :: c in t ==> IsAsciiLetter(t[c])
  }

  /** The only ASCII keys of an object literal are s and x, each mapped to itself. */
  ghost predicate AsciiFixed(t: GlyphMap) {
    forall c :: c in t && IsAscii(c) ==> (c == 0x73 || c == 0x78) && t[c] == c
  }

  /** All keys of an object literal lie in `lo..hi`. */
  ghost predicate KeysWithin(t: GlyphMap, lo: int, hi: int) {
    forall c :: c in t ==> lo <= c <= hi
  }

  /**
    The object literal passed at registration `i` has letter values, no
    ASCII key other than a fixed s or x, and keys inside block `i`.
   */
  ghost predicate LiteralShaped(t: GlyphMap, i: nat)
    requires i < |Blocks|
  {
    LetterValues(t) && AsciiFixed(t) && KeysWithin(t, Blocks[i].0, Blocks[i].1)
  }

  /** The facts about the four object literals that the sequence lemmas need. */
  ghost predicate LiteralsWellShaped(script: GlyphMap, doubleStruckSmall: GlyphMap,
                                     smallCapitals: GlyphMap, circled: GlyphMap)
  {
    && LiteralShaped(script, 6) && LiteralShaped(doubleStruckSmall, 14)
    && LiteralShaped(smallCapitals, 27) && LiteralShaped(circled, 28)
  }

  /** With well-shaped literals, every registration writes ASCII letters only. */
  lemma SequenceWritesLetters(script: GlyphMap, doubleStruckSmall: GlyphMap,
                              smallCapitals: GlyphMap, circled: GlyphMap)
    requires LiteralsWellShaped(script, doubleStruckSmall, smallCapitals, circled)
    ensures var rs := RegistrationSequence(script, doubleStruckSmall, smallCapitals, circled);
            forall i :: 0 <= i < |rs| ==> WritesLetters(rs[i])
  {
    SequenceLayout(script, doubleStruckSmall, smallCapitals, circled);
    SequenceRangesTargetLetters(script, doubleStruckSmall, smallCapitals, circled);
  }

  /**
    With well-shaped literals, the only ASCII keys written are s and x, each
    to itself: every range lies above the ASCII block.
   */
  lemma SequenceFixesAscii(script: GlyphMap, doubleStruckSmall: GlyphMap,
                           smallCapitals: GlyphMap, circled: GlyphMap)
    requires LiteralsWellShaped(script, doubleStruckSmall, smallCapitals, circled)
    ensures var rs := RegistrationSequence(script, doubleStruckSmall, smallCapitals, circled);
            forall i :: 0 <= i < |rs| ==> FixesAscii(rs[i])
  {
    SequenceWithinBlocks(script, doubleStruckSmall, smallCapitals, circled);
    SequenceLayout(script, doubleStruckSmall, smallCapitals, circled);
    BlocksAboveAscii();
  }

  /** With well-shaped literals, registration `i` writes only inside block `i`. */
  lemma SequenceWithinBlocks(script: GlyphMap, doubleStruckSmall: GlyphMap,
                             smallCapitals: GlyphMap, circled: GlyphMap)
    requires LiteralsWellShaped(script, doubleStruckSmall, smallCapitals, circled)
    ensures StaysInBlocks(RegistrationSequence(script, doubleStruckSmall, smallCapitals, circled), Blocks)
  {
    SequenceLayout(script, doubleStruckSmall, smallCapitals, circled);
    SequenceRangesMatchBlocks(script, doubleStruckSmall, smallCapitals, circled);
  }

  lemma BlocksAreCodePoints()
    ensures forall i :: 0 <= i < |Blocks| ==> IsCodePoint(Blocks[i].0) && IsCodePoint(Blocks[i].1)
  {
  }

  /** Only the small-capitals block reaches into ASCII. */
  lemma BlocksAboveAscii()
    ensures forall i :: 0 <= i < |Blocks| && i != 27 ==> 0x80 <= Blocks[i].0
  {
  }

  lemma EarlyBlocksAreDisjoint()
    ensures forall i, k :: 0 <= i < k < 15 ==>
              Blocks[i].1 < Blocks[k].0 || Blocks[k].1 < Blocks[i].0
  {
  }

  lemma LateBlocksAreDisjoint()
    ensures forall i, k :: 15 <= i < k < |Blocks| ==>
              Blocks[i].1 < Blocks[k].0 || Blocks[k].1 < Blocks[i].0
  {
  }

  lemma EarlyAndLateBlocksAreDisjoint()
    ensures forall i, k :: 0 <= i < 15 <= k < |Blocks| ==>
              Blocks[i].1 < Blocks[k].0 || Blocks[k].1 < Blocks[i].0
  {
  }

  /** No two blocks share a code point. */
  lemma BlocksAreDisjoint()
    ensures DisjointBlocks(Blocks)
  {
    EarlyBlocksAreDisjoint();
    LateBlocksAreDisjoint();
    EarlyAndLateBlocksAreDisjoint();
  }

  /** A literal whose keys all lie above the ASCII block has no ASCII key. */
  lemma AboveAsciiIsFixed(t: GlyphMap, lo: int, hi: int)
    requires KeysWithin(t, lo, hi) && 0x80 <= lo
    ensures AsciiFixed(t)
  {
  }

  /** Two literals with letter values and bounded keys join into one. */
  lemma JoinedLetters(a: GlyphMap, b: GlyphMap, lo: int, mid: int, hi: int)
    requires lo <= mid <= hi
    requires LetterValues(a) && KeysWithin(a, mid, hi)
    requires LetterValues(b) && KeysWithin(b, lo, mid)
    ensures LetterValues(a + b) && KeysWithin(a + b, lo, hi)
  {
  }

  /** The script literal misses an assigned slot: 𝒵 (U+1D4B5). */
  lemma ScriptLettersMissZ()
    ensures 0x1D4B5 !in ScriptLetters && !IsScriptHole(0x1D4B5)
    ensures !CoversAssignedScript(ScriptLetters)
  {
    var z: CodePoint := 0x1D4B5;
    assert z !in ScriptLetters;
  }

  /** No key of the script literal is an unassigned slot. */
  lemma ScriptLettersAvoidHoles()
    ensures forall c :: c in ScriptLetters ==> !IsScriptHole(c)
  {
    forall c | IsScriptHole(c)
      ensures c !in ScriptLetters
    {
    }
  }

  /** Every key of the script literal maps to the letter of its slot. */
  lemma ScriptLettersMatchSlots()
    ensures forall c :: c in ScriptLetters ==> ScriptLetters[c] == ScriptLetterOf(c)
  {
    forall c | c in ScriptLetters
      ensures ScriptLetters[c] == ScriptLetterOf(c)
    {
      if c < 0x1D4B6 {
      } else {
      }
    }
  }

  lemma ScriptLettersAreLetters()
    ensures LetterValues(ScriptLetters)
  {
  }

  lemma ScriptLettersWithinBlock()
    ensures KeysWithin(ScriptLetters, 0x1D49C, 0x1D4CF)
  {
  }

  lemma ScriptLettersAreShaped()
    ensures LiteralShaped(ScriptLetters, 6)
  {
    ScriptLettersAreLetters();
    ScriptLettersWithinBlock();
    AboveAsciiIsFixed(ScriptLetters, 0x1D49C, 0x1D4CF);
  }

  /** Every key of the corrected script literal is an assigned slot, mapped to its letter. */
  lemma ScriptLettersCorrectedAreAssigned()
    ensures forall c :: c in ScriptLettersCorrected ==>
              0x1D49C <= c <= 0x1D4CF && !IsScriptHole(c) && ScriptLettersCorrected[c] == ScriptLetterOf(c)
  {
    ScriptLettersWithinBlock();
    ScriptLettersAvoidHoles();
    ScriptLettersMatchSlots();
  }

  /** Every assigned slot of the script block is a key of the corrected script literal. */
  lemma AssignedAreScriptLettersCorrected()
    ensures forall c: CodePoint :: 0x1D49C <= c <= 0x1D4CF && !IsScriptHole(c) ==> c in ScriptLettersCorrected
  {
    forall c: CodePoint | 0x1D49C <= c <= 0x1D4CF && !IsScriptHole(c)
      ensures c in ScriptLettersCorrected
    {
      if c < 0x1D4A9 {
      } else if c < 0x1D4B6 {
      } else if c < 0x1D4C3 {
      } else {
      }
    }
  }

  /** The corrected script literal covers every assigned slot of the script block, and nothing else. */
  lemma ScriptLettersCorrectedCoverAssigned()
    ensures CoversAssignedScript(ScriptLettersCorrected)
  {
    ScriptLettersCorrectedAreAssigned();
    AssignedAreScriptLettersCorrected();
  }

  /** Adding 𝒵 keeps the script literal's shape: Z is a letter and U+1D4B5 lies in the script block. */
  lemma ScriptLettersCorrectedAreShaped()
    ensures LiteralShaped(ScriptLettersCorrected, 6)
  {
    ScriptLettersAreShaped();
  }

  lemma DoubleStruckSmallAreLetters()
    ensures LetterValues(DoubleStruckSmall)
  {
  }

  lemma DoubleStruckSmallWithinBlock()
    ensures KeysWithin(DoubleStruckSmall, 0x1D552, 0x1D56B)
  {
  }

  lemma DoubleStruckSmallIsShaped()
    ensures LiteralShaped(DoubleStruckSmall, 14)
  {
    DoubleStruckSmallAreLetters();
    DoubleStruckSmallWithinBlock();
    AboveAsciiIsFixed(DoubleStruckSmall, 0x1D552, 0x1D56B);
  }

  lemma SmallCapitalsAreLetters()
    ensures LetterValues(SmallCapitals)
  {
  }

  lemma SmallCapitalsWithinBlock()
    ensures KeysWithin(SmallCapitals, 0x73, 0x1D22)
  {
  }

  lemma SmallCapitalsFixAscii()
    ensures AsciiFixed(SmallCapitals)
  {
    forall c | c in SmallCapitals && IsAscii(c)
      ensures c == 0x73 || c == 0x78
    {
    }
  }

  lemma SmallCapitalsAreShaped()
    ensures LiteralShaped(SmallCapitals, 27)
  {
    SmallCapitalsAreLetters();
    SmallCapitalsWithinBlock();
    SmallCapitalsFixAscii();
  }

  lemma CircledSmallAreLetters()
    ensures LetterValues(CircledSmall)
  {
  }

  lemma CircledSmallWithinBlock()
    ensures KeysWithin(CircledSmall, 0x24D0, 0x24E9)
  {
  }

  lemma CircledCapitalAreLetters()
    ensures LetterValues(CircledCapital)
  {
  }

  lemma CircledCapitalWithinBlock()
    ensures KeysWithin(CircledCapital, 0x24B6, 0x24CF)
  {
  }

  lemma CircledLettersAreShaped()
    ensures LiteralShaped(CircledLetters, 28)
  {
    CircledSmallAreLetters();
    CircledSmallWithinBlock();
    CircledCapitalAreLetters();
    CircledCapitalWithinBlock();
    JoinedLetters(CircledSmall, CircledCapital, 0x24B6, 0x24D0, 0x24E9);
    AboveAsciiIsFixed(CircledLetters, 0x24B6, 0x24E9);
  }

  lemma LiteralsAreWellShaped()
    ensures LiteralsWellShaped(ScriptLetters, DoubleStruckSmall, SmallCapitals, CircledLetters)
  {
    ScriptLettersAreShaped();
    DoubleStruckSmallIsShaped();
    SmallCapitalsAreShaped();
    CircledLettersAreShaped();
  }

  /** A table built from letter-writing registrations maps to letters only. */
  lemma BuiltValuesAreLetters(es: seq<Registration>)
    requires Build(es).Success?
    requires forall i :: 0 <= i < |es| ==> WritesLetters(es[i])
    ensures LetterValues(Build(es).value)
  {
    forall c | c in Build(es).value {
      BuildIsLastWriteWins(es, c);
    }
  }

  /** A table built from ASCII-fixing registrations has only s and x as ASCII keys, fixed. */
  lemma BuiltAsciiFixed(es: seq<Registration>)
    requires Build(es).Success?
    requires forall i :: 0 <= i < |es| ==> FixesAscii(es[i])
    ensures AsciiFixed(Build(es).value)
  {
    forall c | c in Build(es).value && IsAscii(c) {
      BuildIsLastWriteWins(es, c);
    }
  }

  /** The construction completes and yields the table. */
  lemma TableIsBuilt()
    ensures Build(Registrations).Success?
    ensures Table == Build(Registrations).value
  {
    SequenceIsValid(ScriptLetters, DoubleStruckSmall, SmallCapitals, CircledLetters);
  }

  /** Every value of the table is an ASCII letter. */
  lemma TableValuesAreLetters()
    ensures LetterValues(Table)
  {
    TableIsBuilt();
    LiteralsAreWellShaped();
    SequenceWritesLetters(ScriptLetters, DoubleStruckSmall, SmallCapitals, CircledLetters);
    BuiltValuesAreLetters(Registrations);
  }

  /** The only ASCII keys of the table are s and x, and each maps to itself. */
  lemma TableAsciiKeys()
    ensures AsciiFixed(Table)
  {
    TableIsBuilt();
    LiteralsAreWellShaped();
    SequenceFixesAscii(ScriptLetters, DoubleStruckSmall, SmallCapitals, CircledLetters);
    BuiltAsciiFixed(Registrations);
  }

  /** Each registration of the module body writes only inside its own block. */
  lemma RegistrationsStayInBlocks()
    ensures StaysInBlocks(Registrations, Blocks)
  {
    LiteralsAreWellShaped();
    SequenceWithinBlocks(ScriptLetters, DoubleStruckSmall, SmallCapitals, CircledLetters);
  }

  /** No code point is registered by two different calls, so no write is ever overridden. */
  lemma NoKeyRegisteredTwice()
    ensures forall i, k, c :: 0 <= i < k < |Registrations| && Covers(Registrations[i], c) ==>
              !Covers(Registrations[k], c)
  {
    RegistrationsStayInBlocks();
    BlocksAreDisjoint();
    BlockedWritersAreUnique(Registrations, Blocks);
  }

  /** A code point written by registration `j` maps to exactly what `j` writes. */
  lemma TableLookup(j: nat, c: CodePoint)
    requires j < |Registrations| && Covers(Registrations[j], c)
    ensures c in Table && Table[c] == Written(Registrations[j], c)
  {
    TableIsBuilt();
    NoKeyRegisteredTwice();
    WrittenLastWins(Registrations, j, c);
  }

  /** The keys of the table are exactly the code points some registration writes. */
  lemma TableKeys(c: CodePoint)
    ensures c in Table <==> exists j :: 0 <= j < |Registrations| && Covers(Registrations[j], c)
  {
    TableIsBuilt();
    BuildIsLastWriteWins(Registrations, c);
  }

  /**
    Inside block `j`, registration `j` alone decides the table: a code point
    there is a key exactly when `j` writes it, and then holds what `j` writes.
   */
  lemma BlockDecides(j: nat, c: CodePoint)
    requires j < |Blocks| && Blocks[j].0 <= c <= Blocks[j].1
    ensures c in Table <==> Covers(Registrations[j], c)
    ensures c in Table ==> Table[c] == Written(Registrations[j], c)
  {
    TableIsBuilt();
    RegistrationsStayInBlocks();
    BlocksAreDisjoint();
    BuiltBlockDecides(Registrations, Blocks, j, c);
  }

  /** A code point outside every block is not a key of the table. */
  lemma OutsideBlocksIsAbsent(c: CodePoint)
    requires forall j :: 0 <= j < |Blocks| ==> !(Blocks[j].0 <= c <= Blocks[j].1)
    ensures c !in Table
  {
    TableIsBuilt();
    RegistrationsStayInBlocks();
    BuiltOutsideBlocks(Registrations, Blocks, c);
  }

  /** Each corrected registration call keeps to its own block. */
  lemma RegistrationsCorrectedStayInBlocks()
    ensures StaysInBlocks(RegistrationsCorrected, Blocks)
  {
    ScriptLettersCorrectedAreShaped();
    DoubleStruckSmallIsShaped();
    SmallCapitalsAreShaped();
    CircledLettersAreShaped();
    SequenceWithinBlocks(ScriptLettersCorrected, DoubleStruckSmall, SmallCapitals, CircledLetters);
  }

  /**
    In the corrected table, the script block holds exactly the corrected
    script literal.
   */
  lemma CorrectedScriptBlockDecides(c: CodePoint)
    requires 0x1D49C <= c <= 0x1D4CF
    ensures c in TableCorrected <==> c in ScriptLettersCorrected
    ensures c in TableCorrected ==> TableCorrected[c] == ScriptLettersCorrected[c]
  {
    SequenceIsValid(ScriptLettersCorrected, DoubleStruckSmall, SmallCapitals, CircledLetters);
    SequenceLayout(ScriptLettersCorrected, DoubleStruckSmall, SmallCapitals, CircledLetters);
    RegistrationsCorrectedStayInBlocks();
    BlocksAreDisjoint();
    BuiltBlockDecides(RegistrationsCorrected, Blocks, 6, c);
  }
}
