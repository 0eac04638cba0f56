/**
  Worked examples of fancyToAscii on concrete text, one per family of
  decorative letters, plus code points that pass through untouched.

  Each example is stated for any table that makes the needed replacements
  (`…With`), and then for the fancy-letter table itself, whose replacements
  are established separately (`…Replacements`, from the registration entries
  in `…Entries`). Keeping the large table out of the quantified statements
  keeps every proof small.
 */
module Samples {
  import opened Glyphs
  import opened GlyphTable
  import opened Unidecode

  lemma BoldEntry()
    ensures Registrations[0] == Range(0x1D400, 0x1D419, 0x41)
  {
  }

  lemma FrakturEntries()
    ensures Registrations[9] == Range(0x1D504, 0x1D51D, 0x41)
    ensures Registrations[10] == Range(0x1D51E, 0x1D537, 0x61)
  {
  }

  lemma FullwidthEntries()
    ensures Registrations[25] == Range(0xFF21, 0xFF3A, 0x41)
    ensures Registrations[26] == Range(0xFF41, 0xFF5A, 0x61)
  {
  }

  lemma LiteralEntries()
    ensures Registrations[6] == Pairs(ScriptLetters)
    ensures Registrations[27] == Pairs(SmallCapitals)
  {
  }

  /** Space and `!` are not keys, like every ASCII code point other than s and x. */
  lemma PunctuationReplacements()
    ensures Replacement(Table, 0x20) == 0x20
    ensures Replacement(Table, 0x21) == 0x21
  {
    TableAsciiKeys();
  }

  lemma BoldReplacements()
    ensures Replacement(Table, 0x1D400) == 0x41
    ensures Replacement(Table, 0x1D401) == 0x42
    ensures Replacement(Table, 0x1D402) == 0x43
  {
    BoldEntry();
    BlockDecides(0, 0x1D400);
    BlockDecides(0, 0x1D401);
    BlockDecides(0, 0x1D402);
  }

  lemma BoldCapitalsWith(t: GlyphMap)
    requires Replacement(t, 0x1D400) == 0x41
    requires Replacement(t, 0x1D401) == 0x42
    requires Replacement(t, 0x1D402) == 0x43
    ensures Normalize(t, [0x1D400, 0x1D401, 0x1D402]) == [0x41, 0x42, 0x43]
  {
    NormalizeIsPointwise(t, [0x1D400, 0x1D401, 0x1D402]);
  }

  /** Mathematical bold 𝐀𝐁𝐂 (U+1D400..U+1D402) becomes "ABC". */
  lemma BoldCapitals()
    ensures Normalize(Table, [0x1D400, 0x1D401, 0x1D402]) == [0x41, 0x42, 0x43]
  {
    BoldReplacements();
    BoldCapitalsWith(Table);
  }

  lemma FullwidthReplacements()
    ensures Replacement(Table, 0xFF28) == 0x48
    ensures Replacement(Table, 0xFF45) == 0x65
    ensures Replacement(Table, 0xFF4C) == 0x6C
    ensures Replacement(Table, 0xFF4F) == 0x6F
  {
    FullwidthEntries();
    BlockDecides(25, 0xFF28);
    BlockDecides(26, 0xFF45);
    BlockDecides(26, 0xFF4C);
    BlockDecides(26, 0xFF4F);
  }

  lemma FullwidthHelloWith(t: GlyphMap)
    requires Replacement(t, 0xFF28) == 0x48
    requires Replacement(t, 0xFF45) == 0x65
    requires Replacement(t, 0xFF4C) == 0x6C
    requires Replacement(t, 0xFF4F) == 0x6F
    ensures Normalize(t, [0xFF28, 0xFF45, 0xFF4C, 0xFF4C, 0xFF4F]) == [0x48, 0x65, 0x6C, 0x6C, 0x6F]
  {
    NormalizeIsPointwise(t, [0xFF28, 0xFF45, 0xFF4C, 0xFF4C, 0xFF4F]);
  }

  /** Fullwidth "Ｈｅｌｌｏ" (U+FF28 U+FF45 U+FF4C U+FF4C U+FF4F) becomes "Hello". */
  lemma FullwidthHello()
    ensures Normalize(Table, [0xFF28, 0xFF45, 0xFF4C, 0xFF4C, 0xFF4F]) == [0x48, 0x65, 0x6C, 0x6C, 0x6F]
  {
    FullwidthReplacements();
    FullwidthHelloWith(Table);
  }

  lemma SmallCapitalsEntries()
    ensures 0x29C in SmallCapitals && SmallCapitals[0x29C] == 0x68
    ensures 0x1D07 in SmallCapitals && SmallCapitals[0x1D07] == 0x65
    ensures 0x29F in SmallCapitals && SmallCapitals[0x29F] == 0x6C
    ensures 0x1D0F in SmallCapitals && SmallCapitals[0x1D0F] == 0x6F
  {
  }

  lemma SmallCapitalsReplacements()
    ensures Replacement(Table, 0x29C) == 0x68
    ensures Replacement(Table, 0x1D07) == 0x65
    ensures Replacement(Table, 0x29F) == 0x6C
    ensures Replacement(Table, 0x1D0F) == 0x6F
  {
    LiteralEntries();
    SmallCapitalsEntries();
    BlockDecides(27, 0x29C);
    BlockDecides(27, 0x1D07);
    BlockDecides(27, 0x29F);
    BlockDecides(27, 0x1D0F);
  }

  lemma SmallCapitalsHelloWith(t: GlyphMap)
    requires Replacement(t, 0x29C) == 0x68
    requires Replacement(t, 0x1D07) == 0x65
    requires Replacement(t, 0x29F) == 0x6C
    requires Replacement(t, 0x1D0F) == 0x6F
    ensures Normalize(t, [0x29C, 0x1D07, 0x29F, 0x29F, 0x1D0F]) == [0x68, 0x65, 0x6C, 0x6C, 0x6F]
  {
    NormalizeIsPointwise(t, [0x29C, 0x1D07, 0x29F, 0x29F, 0x1D0F]);
  }

  /** Small capitals "ʜᴇʟʟᴏ" (U+029C U+1D07 U+029F U+029F U+1D0F) becomes "hello". */
  lemma SmallCapitalsHello()
    ensures Normalize(Table, [0x29C, 0x1D07, 0x29F, 0x29F, 0x1D0F]) == [0x68, 0x65, 0x6C, 0x6C, 0x6F]
  {
    SmallCapitalsReplacements();
    SmallCapitalsHelloWith(Table);
  }

  lemma FrakturReplacements()
    ensures Replacement(Table, 0x1D511) == 0x4E
    ensures Replacement(Table, 0x1D509) == 0x46
    ensures Replacement(Table, 0x1D52C) == 0x6F
    ensures Replacement(Table, 0x1D51E) == 0x61
    ensures Replacement(Table, 0x1D52B) == 0x6E
    ensures Replacement(Table, 0x1D520) == 0x63
    ensures Replacement(Table, 0x1D536) == 0x79
  {
    FrakturEntries();
    BlockDecides(9, 0x1D511);
    BlockDecides(9, 0x1D509);
    BlockDecides(10, 0x1D52C);
    BlockDecides(10, 0x1D51E);
    BlockDecides(10, 0x1D52B);
    BlockDecides(10, 0x1D520);
    BlockDecides(10, 0x1D536);
  }

  lemma NoFancyWith(t: GlyphMap)
    requires Replacement(t, 0x1D511) == 0x4E && Replacement(t, 0x1D52C) == 0x6F
    requires Replacement(t, 0x20) == 0x20 && Replacement(t, 0x21) == 0x21
    requires Replacement(t, 0x1D509) == 0x46 && Replacement(t, 0x1D51E) == 0x61
    requires Replacement(t, 0x1D52B) == 0x6E && Replacement(t, 0x1D520) == 0x63
    requires Replacement(t, 0x1D536) == 0x79
    ensures Normalize(t, [0x1D511, 0x1D52C, 0x20, 0x1D509, 0x1D51E, 0x1D52B, 0x1D520, 0x1D536, 0x21])
            == [0x4E, 0x6F, 0x20, 0x46, 0x61, 0x6E, 0x63, 0x79, 0x21]
  {
    NormalizeIsPointwise(t, [0x1D511, 0x1D52C, 0x20, 0x1D509, 0x1D51E, 0x1D52B, 0x1D520, 0x1D536, 0x21]);
  }

  /** Fraktur "𝔑𝔬 𝔉𝔞𝔫𝔠𝔶!" becomes "No Fancy!": the space and `!` are kept. */
  lemma NoFancy()
    ensures Normalize(Table, [0x1D511, 0x1D52C, 0x20, 0x1D509, 0x1D51E, 0x1D52B, 0x1D520, 0x1D536, 0x21])
            == [0x4E, 0x6F, 0x20, 0x46, 0x61, 0x6E, 0x63, 0x79, 0x21]
  {
    FrakturReplacements();
    PunctuationReplacements();
    NoFancyWith(Table);
  }

  lemma ScriptEntries()
    ensures 0x1D49C in ScriptLetters && ScriptLetters[0x1D49C] == 0x41
    ensures 0x1D49D !in ScriptLetters
    ensures 0x1D4B5 !in ScriptLetters
  {
  }

  /** Script capital 𝒜 (U+1D49C) becomes "A". */
  lemma ScriptCapitalA()
    ensures Replacement(Table, 0x1D49C) == 0x41
  {
    LiteralEntries();
    ScriptEntries();
    BlockDecides(6, 0x1D49C);
  }

  /**
    U+1D49D, the slot of script capital B inside the script block, is left
    out of the script literal and passes through.
   */
  lemma ScriptHoleB()
    ensures Replacement(Table, 0x1D49D) == 0x1D49D
  {
    LiteralEntries();
    ScriptEntries();
    BlockDecides(6, 0x1D49D);
  }

  /** Script capital 𝒵 (U+1D4B5) has no entry in the script literal and passes through unchanged. */
  lemma ScriptCapitalZ()
    ensures Replacement(Table, 0x1D4B5) == 0x1D4B5
  {
    LiteralEntries();
    ScriptEntries();
    BlockDecides(6, 0x1D4B5);
  }

  /** With the corrected script literal, 𝒵 (U+1D4B5) becomes "Z". */
  lemma ScriptCapitalZCorrected()
    ensures Replacement(TableCorrected, 0x1D4B5) == 0x5A
  {
    CorrectedScriptBlockDecides(0x1D4B5);
  }

  lemma LetterlikeOutsideBlocks()
    ensures forall j :: 0 <= j < |Blocks| ==> !(Blocks[j].0 <= 0x212C <= Blocks[j].1)
  {
  }

  /** ℬ (U+212C, the letterlike script capital B) lies outside every block and passes through. */
  lemma LetterlikeScriptB()
    ensures Replacement(Table, 0x212C) == 0x212C
  {
    LetterlikeOutsideBlocks();
    OutsideBlocksIsAbsent(0x212C);
  }
}
