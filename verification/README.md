# Fancy-letter normaliser, modelled in Dafny

`utils/unidecode.js` turns decorative Unicode letters into plain ASCII
letters. Examples are mathematical bold 𝐀, fraktur 𝔑, fullwidth Ｈ, small
capitals ʜ and circled ⓐ. At load time the module body fills one lookup
table, `map`, with two helpers:

- `registerRange(start, end, asciiStart)` maps each code point of a
  contiguous block to the matching letter;
- `reg(o)` copies the entries of an object literal.

`fancyToAscii(str)` then walks the input one code point at a time. Each
code point that is a key of the table is replaced by its value. Every
other code point is copied unchanged.

The model has five modules:

- `Wrappers` (`wrappers.dfy`): `Option` and `Result`.
- `Glyphs` (`glyphs.dfy`): code points, the two registration primitives,
  and the fold `Build` that runs a list of registrations in order. It also
  holds the reference semantics `LastWriter`, "the last registration that
  writes a key wins", and the lemma that the fold agrees with it.
- `GlyphTable` (`glyph_table.dfy`):
  - the four object literals and the 29 registration calls, in source order;
  - the table they build;
  - the facts about that table. Every value is an ASCII letter. The only
    ASCII keys are `s` and `x`, each mapped to itself. Each call writes
    inside its own block, and no two blocks overlap, so no registration
    ever overrides another.
  - apart from these, the corrected script literal and the table it would
    build (see "## Findings").
- `Unidecode` (`unidecode.dfy`):
  - `fancyToAscii` as a loop (`FancyToAscii`, over the generic
    `NormalizeWith`);
  - the pure normaliser `Normalize` that the loop computes;
  - the normaliser's properties: code point by code point, length
    preserving, distributing over concatenation, idempotent, and the
    identity on ASCII.
- `Samples` (`samples.dfy`): concrete inputs and the outputs the table
  gives them.

Modelling decisions:

- **Code points.** A code point is an `int` in `0..0x10FFFF`.
  `registerRange` creates its keys and values with `String.fromCodePoint`,
  which throws a `RangeError` outside that range. `RegisterRange` therefore
  returns a `Result`, and so does `Build`. A throw aborts the module body, so
  a failed construction carries no partial table. The pairs given to `reg`
  are one-letter string literals, so they are code points by construction.
- **Lookup.** `map[ch] || ch` is modelled as written: `Get` yields
  `undefined` or the value's string, and `Or` falls back when that is
  `undefined` or the empty string. `LookupIsReplacement` proves that this
  equals the one-code-point `Replacement` for every table whose values are
  single code points. A single code point never names a property that
  objects inherit.
- **Script capital Z.** The script literal at lines 49-59 has no entry for
  𝒵 (U+1D4B5), an assigned letter (see "## Findings"). `ScriptLetters`,
  `Registrations`, `Table` and `FancyToAscii` keep the code as written, so
  𝒵 passes through. The correction lives apart, in `ScriptLettersCorrected`
  (the literal plus `0x1D4B5 := 0x5A`), `RegistrationsCorrected` and
  `TableCorrected`.
- **Text.** The input text is the sequence of code points that `for…of`
  yields, and the output is the sequence of code points of the returned
  string.

## Model

| member | source | states |
|---|---|---|
| Glyphs.RegisterRangeFrom | utils/unidecode.js:18-20 | From iteration `i` on, the loop either stops with a RangeError naming an invalid code point, or succeeds exactly when the remaining keys and values are code points. On success the keys are the old keys plus `start+i..end`, each new key `k` holds `asciiStart + (k - start)`, and every other key keeps its value. |
| Glyphs.RegisterRange | utils/unidecode.js:17-21 | registerRange succeeds exactly when the range is empty or its first and last keys and values are code points. An empty range leaves the table as it was. Otherwise key `start+i` gets `asciiStart+i` for every `0 <= i <= end-start`, and nothing else changes. |
| Glyphs.Reg | utils/unidecode.js:24-26 | reg copies every key of the literal with its value and keeps every other key of the table. |
| Glyphs.RangeObjectContents | utils/unidecode.js:17-21 | The object literal equivalent to a valid registerRange call has exactly the keys `start..end`, and key `k` holds `asciiStart + (k - start)`. |
| Glyphs.RegisterRangeIsReg | utils/unidecode.js:17-26 | A registerRange call that does not throw has the same effect as reg on an object literal that maps `start+i` to `asciiStart+i`. That literal is built independently, key by key. |
| Glyphs.Register | utils/unidecode.js:17-26 | One registration call succeeds exactly when it is valid. The keys it covers get the values it writes, and every other key is unchanged. |
| Glyphs.Build | utils/unidecode.js:31-142 | Running the calls in order completes exactly when none of them throws. |
| Glyphs.LastWriter | utils/unidecode.js:31-142 | Reference semantics of overriding: the index returned writes the key and no later call writes it. None means that no call writes it. |
| Glyphs.BuildIsLastWriteWins | utils/unidecode.js:31-142 | The built table agrees with the reference. A code point is a key exactly when some call writes it, and it holds the value written by the last such call. |
| Glyphs.WrittenLastWins | utils/unidecode.js:31-142 | A key whose last writer is call `j` holds what `j` writes. |
| Glyphs.NeverWrittenIsAbsent | utils/unidecode.js:31-142 | A code point that no call writes is not a key. |
| Glyphs.BlockedWritersAreUnique | utils/unidecode.js:31-142 | Calls that keep to pairwise disjoint blocks never write the same code point twice. |
| Glyphs.BuiltBlockDecides | utils/unidecode.js:31-142 | With disjoint blocks, only call `j` decides the table inside block `j`, both for membership and for the value. |
| Glyphs.BuiltOutsideBlocks | utils/unidecode.js:31-142 | A code point outside every block is never a key. |
| GlyphTable.SequenceLayout | utils/unidecode.js:31-142 | There are 29 calls. reg is called with the script, double-struck small, small-capital and circled literals at positions 6, 14, 27 and 28, and every other call is a registerRange. |
| GlyphTable.SequenceRangesMatchBlocks | utils/unidecode.js:31-116 | Each registerRange call writes exactly its block. |
| GlyphTable.SequenceRangesTargetLetters | utils/unidecode.js:31-116 | Every registerRange call spans 26 code points and starts at `A` (0x41) or `a` (0x61), so it covers one alphabet. |
| GlyphTable.SequenceIsValid | utils/unidecode.js:31-142 | No registration call of the module body throws. |
| GlyphTable.SequenceWritesLetters | utils/unidecode.js:31-142 | Every call writes ASCII letters only. |
| GlyphTable.SequenceFixesAscii | utils/unidecode.js:31-142 | No call writes an ASCII key other than `s` or `x`, and those are written to themselves. |
| GlyphTable.SequenceWithinBlocks | utils/unidecode.js:31-142 | Call `i` writes only inside block `i`. |
| GlyphTable.BlocksAreDisjoint | utils/unidecode.js:31-142 | No two of the 29 blocks share a code point. |
| GlyphTable.ScriptLettersMissZ | utils/unidecode.js:49-59 | The script literal has no entry for 𝒵 U+1D4B5, which is not one of Unicode's holes, so it does not cover every assigned slot of the script block. |
| GlyphTable.ScriptLettersAvoidHoles | utils/unidecode.js:49-59 | No key of the script literal is one of the eleven unassigned slots of the script block. |
| GlyphTable.ScriptLettersMatchSlots | utils/unidecode.js:49-59 | Every key of the script literal maps to the letter of its slot: capitals from U+1D49C, small letters from U+1D4B6. |
| GlyphTable.ScriptLettersAreShaped | utils/unidecode.js:49-59 | The script literal maps to letters only, and its keys lie in U+1D49C..U+1D4CF, above ASCII. |
| GlyphTable.ScriptLettersCorrectedAreAssigned | utils/unidecode.js:49-59 | Every key of the corrected script literal is an assigned slot of U+1D49C..U+1D4CF, mapped to the letter of its slot. |
| GlyphTable.AssignedAreScriptLettersCorrected | utils/unidecode.js:49-59 | Every assigned slot of the script block is a key of the corrected script literal. |
| GlyphTable.ScriptLettersCorrectedCoverAssigned | utils/unidecode.js:49-59 | The corrected script literal covers exactly the assigned slots of the script block, each mapped to its letter. |
| GlyphTable.ScriptLettersCorrectedAreShaped | utils/unidecode.js:49-59 | The corrected script literal still maps to letters only, with keys in the script block. |
| GlyphTable.RegistrationsCorrectedStayInBlocks | utils/unidecode.js:31-142 | With the corrected script literal, each registration call still keeps to its own block. |
| GlyphTable.CorrectedScriptBlockDecides | utils/unidecode.js:31-142 | In the corrected table, a code point of the script block is a key exactly when the corrected script literal has it, with the same value. |
| GlyphTable.DoubleStruckSmallIsShaped | utils/unidecode.js:83-89 | The double-struck small literal maps to letters only, and its keys lie in U+1D552..U+1D56B. |
| GlyphTable.SmallCapitalsAreShaped | utils/unidecode.js:121-126 | The small-capitals literal maps to letters only. Its keys lie in 0x73..U+1D22, and its only ASCII keys are `s` and `x`, mapped to themselves. |
| GlyphTable.CircledLettersAreShaped | utils/unidecode.js:131-142 | The circled literal maps to letters only, and its keys lie in U+24B6..U+24E9. |
| GlyphTable.LiteralsAreWellShaped | utils/unidecode.js:49-142 | All four object literals have the shape above. |
| GlyphTable.TableIsBuilt | utils/unidecode.js:31-142 | The module body completes and produces the table. |
| GlyphTable.TableValuesAreLetters | utils/unidecode.js:31-142 | Every value of the table is an ASCII letter. |
| GlyphTable.TableAsciiKeys | utils/unidecode.js:121-126 | The only ASCII keys of the table are `s` and `x`, each mapped to itself. |
| GlyphTable.RegistrationsStayInBlocks | utils/unidecode.js:31-142 | Every call of the module body keeps to its block. |
| GlyphTable.NoKeyRegisteredTwice | utils/unidecode.js:31-142 | No code point is written by two calls, so the override rule is never exercised. |
| GlyphTable.TableLookup | utils/unidecode.js:31-142 | A code point written by call `j` is a key and holds what `j` writes. |
| GlyphTable.TableKeys | utils/unidecode.js:31-142 | The keys of the table are exactly the code points that some call writes. |
| GlyphTable.BlockDecides | utils/unidecode.js:31-142 | Inside block `j`, a code point is a key exactly when call `j` writes it, and then it holds what `j` writes. |
| GlyphTable.OutsideBlocksIsAbsent | utils/unidecode.js:31-142 | A code point outside every block is not a key. |
| Unidecode.OrFallsBackExactlyWhenAbsent | utils/unidecode.js:150 | When every value is a non-empty string, the fallback is taken exactly when `ch` is not a key, so the lookup yields the value for a key and `ch` for a non-key. |
| Unidecode.EmptyValueFallsBack | utils/unidecode.js:150 | An empty-string value is falsy, so the fallback to `ch` happens even for a key; the non-empty condition above is needed. |
| Unidecode.LookupIsReplacement | utils/unidecode.js:150 | On the table as stored, with one-code-point string values, the lookup with its fallback is the one-code-point string of the replacement. |
| Unidecode.Normalize | utils/unidecode.js:147-153 | The output has as many code points as the input. |
| Unidecode.NormalizeWith | utils/unidecode.js:148-152 | The loop appends the lookup with its fallback for each code point, and so emits, for each input code point, the table's value if the code point is a key and the code point itself otherwise. The result equals the pure normaliser. |
| Unidecode.FancyToAscii | utils/unidecode.js:147-153 | fancyToAscii replaces exactly the code points that are keys of the fancy-letter table, keeps every other one, and preserves the length in code points. |
| Unidecode.NormalizeIsPointwise | utils/unidecode.js:150 | Output position `i` is the table's value for input position `i` when that code point is a key, and the code point itself otherwise. |
| Unidecode.NormalizeAppend | utils/unidecode.js:149-151 | Normalising a concatenation is the concatenation of the normalised parts. |
| Unidecode.NormalizeFixedPoint | utils/unidecode.js:150 | A text is left unchanged exactly when each of its code points is either not a key or mapped to itself. |
| Unidecode.NormalizeIdempotentIff | utils/unidecode.js:147-153 | Normalising twice equals normalising once, on every text, exactly when every value that is itself a key maps to itself. A key may map to another key, as long as that key is fixed. |
| Unidecode.TableValuesSettled | utils/unidecode.js:31-142 | Every value of the fancy-letter table that is itself a key maps to itself. For this table those values are only `s` and `x`; 𝓈 U+1D4C8 maps to `s`, which is a small-capitals key mapped to itself. |
| Unidecode.FancyToAsciiIdempotent | utils/unidecode.js:147-153 | fancyToAscii applied to its own output changes nothing. |
| Unidecode.AsciiIsUnchanged | utils/unidecode.js:147-153 | Plain ASCII text passes through unchanged. |
| Unidecode.ChangesAreLetters | utils/unidecode.js:150 | Every code point the normaliser changes is a key of the table and becomes an ASCII letter. |
| Samples.BoldCapitals | utils/unidecode.js:31 | Mathematical bold U+1D400..U+1D402 becomes "ABC". |
| Samples.FullwidthHello | utils/unidecode.js:115-116 | Fullwidth "Ｈｅｌｌｏ" becomes "Hello". |
| Samples.SmallCapitalsHello | utils/unidecode.js:121-126 | "ʜᴇʟʟᴏ" becomes "hello". |
| Samples.NoFancy | utils/unidecode.js:70-71 | Fraktur "𝔑𝔬 𝔉𝔞𝔫𝔠𝔶!" becomes "No Fancy!". The space and `!` are kept. |
| Samples.PunctuationReplacements | utils/unidecode.js:150 | Space and `!` are replaced by themselves. |
| Samples.ScriptCapitalA | utils/unidecode.js:49-59 | Script 𝒜 (U+1D49C) becomes "A". |
| Samples.ScriptHoleB | utils/unidecode.js:49-59 | U+1D49D is inside the script block but absent from the script literal, so it passes through. |
| Samples.ScriptCapitalZ | utils/unidecode.js:49-59 | 𝒵 (U+1D4B5) has no entry in the script literal and passes through unchanged. |
| Samples.ScriptCapitalZCorrected | utils/unidecode.js:49-59 | With the corrected script literal, 𝒵 (U+1D4B5) would become "Z". |
| Samples.LetterlikeScriptB | utils/unidecode.js:147-153 | ℬ (U+212C) lies outside every block, so it passes through. |

## Left out

- `index.ts` is not part of this model. It is the plugin that applies
  `fancyToAscii` to channel and thread names, to the words the channel
  autocomplete matches, and to channel-search queries.
- UTF-16: the model works on code points. It does not model how `for…of`
  decodes surrogate pairs, nor the string's length in code units. That
  length shrinks when an astral letter such as 𝐀 becomes `A`.
- Reg: the model takes object literal keys to be single code points. That
  holds for every literal in the module. A multi-code-point key could never
  be matched by `fancyToAscii` anyway.
- RegisterRange: after a RangeError the model does not keep the partly
  filled table. The throw aborts the module body, so nothing can observe
  that table.
- Unassigned code points inside the registered ranges (for example
  U+1D455, where italic small h would be) are registered like any other,
  exactly as the code does. The Unicode letters that live elsewhere are
  not mapped, for example ℎ U+210E and ℬ U+212C.

## Findings

| source | as written | input that shows it | evidently intended | confidence | as-written member | corrected member |
|---|---|---|---|---|---|---|
| utils/unidecode.js:49-59 | The script literal lists the capitals A C D G J K N O P Q S T U V W X Y; there is no entry for 𝒵. | U+1D4B5 𝒵 (MATHEMATICAL SCRIPT CAPITAL Z, an assigned code point) passes through unchanged instead of becoming `Z`. | The literal leaves out only the eleven slots Unicode does not assign (B E F H I L M R e g o), so `"𝒵": "Z"` belongs in it. | high; not executed | GlyphTable.ScriptLettersMissZ, Samples.ScriptCapitalZ | GlyphTable.ScriptLettersCorrectedCoverAssigned, Samples.ScriptCapitalZCorrected |
