# SpellScanner core in Dafny

This project models the text, byte and bit logic of the spell scanner in
`plugin/src/SpellScanner.cpp`. That is the part of the SKSE plugin that walks
Skyrim's spell forms, decides which spells a player can learn, and writes the
kept spells as JSON for the learning-tree prompt. The game lookups around
this logic become plain parameters.

Modules:

- `Options`: the `Option` datatype.
- `Text`: C-locale character classes (`isxdigit`, `isdigit`, `tolower`).
  It also defines `std::string::substr` and `std::string::find` on `string`,
  proved against declarative `StartsWith` / `Contains`.
- `Utf8Sanitize`: `SanitizeToUTF8` as a byte loop. The loop is proved equal to
  a recursive specification, `Sanitized`, and the properties of the
  specification are proved as lemmas: no C1 control byte survives, the
  function is idempotent, the exact output length, and bytes 0xA0-0xFF kept
  in order.
- `FormIds`: FormIDs as 32-bit values.
  - `std::format("0x{:08X}", ...)` is modelled as the formatter.
  - The hex parser at the start of `GetSpellInfoByFormId` is the parser, and
    round trips are proved in both directions.
  - The index extraction of `GetPluginName` is related to the formatted text.
- `SpellFilters`: the filters of `ScanSpellsToJson`:
  - the skill-level ladder;
  - the `isNonPlayerSpell` editor-ID test, proved equal to a pattern table;
  - the name filters and the effect-name check;
  - the filter chain that decides whether a spell is skipped, filtered or
    listed.

## Model

| member | source | states |
|---|---|---|
| Utf8Sanitize.SanitizeToUtf8 | plugin/src/SpellScanner.cpp:15-45 | the byte loop's result is `Sanitized(input)`: ASCII copied, 0x80-0x9F replaced, 0xA0-0xFF copied, byte by byte in order |
| Utf8Sanitize.C1Replacement | plugin/src/SpellScanner.cpp:24-36 | every Windows-1252 control byte becomes 1 to 4 printable ASCII bytes (quotes, dashes, "...", "(TM)", otherwise "?") |
| Utf8Sanitize.SanitizedAppend | plugin/src/SpellScanner.cpp:20-42 | sanitising is per byte: the image of a concatenation is the concatenation of the images |
| Utf8Sanitize.SanitizedFreeOfC1 | plugin/src/SpellScanner.cpp:24-36 | no byte 0x80-0x9F remains in the output |
| Utf8Sanitize.SanitizedUnchanged | plugin/src/SpellScanner.cpp:20-41 | input without bytes 0x80-0x9F comes back unchanged |
| Utf8Sanitize.SanitizedIdempotent | plugin/src/SpellScanner.cpp:15-45 | sanitising twice gives the same as sanitising once |
| Utf8Sanitize.SanitizedLength | plugin/src/SpellScanner.cpp:33-34 | output length is input length plus 2 per 0x85 (ellipsis) and 3 per 0x99 (trademark); never shorter |
| Utf8Sanitize.SanitizedKeepsHighBytes | plugin/src/SpellScanner.cpp:37-41 | bytes 0xA0-0xFF pass through, in order, and every output byte is ASCII or 0xA0-0xFF |
| Utf8Sanitize.SanitizedSplitsUtf8Sequence | plugin/src/SpellScanner.cpp:12-41 | the valid UTF-8 ellipsis E2 80 A6 comes out as E2 3F A6: a continuation byte in 0x80-0x9F is replaced too |
| Text.LowerChar | plugin/src/SpellScanner.cpp:269 | `tolower` in the C locale turns A-Z into the matching a-z, leaves every other character as it is, and never returns an upper-case letter |
| Text.Lower | plugin/src/SpellScanner.cpp:268-269 | the `std::transform` with `::tolower` keeps the length and lowers each character in place |
| Text.LowerProperties | plugin/src/SpellScanner.cpp:268-269 | `tolower` over the editor ID keeps the length, changes only A-Z, leaves no upper-case letter, and is idempotent |
| Text.Substr | plugin/src/SpellScanner.cpp:275 | `substr(pos, count)` has `count` characters, or fewer when the text ends first, and they are the text's characters from `pos` on |
| Text.SubstrPrefix | plugin/src/SpellScanner.cpp:275 | `substr(0, n) == p` with n = the length of p holds exactly when the text starts with p |
| Text.FindFrom | plugin/src/SpellScanner.cpp:272 | the search from a position returns the first occurrence at or after it, or none when there is none |
| Text.Find | plugin/src/SpellScanner.cpp:272 | `find` is not `npos` exactly when the text contains the fragment, and then it gives the first occurrence |
| Text.FindAtZero | plugin/src/SpellScanner.cpp:302 | `find("mgr") == 0` holds exactly when the text starts with "mgr" |
| FormIds.DigitValue | plugin/src/SpellScanner.cpp:743 | a hex digit (either case) read in base 16 is a value below 16 |
| FormIds.UpperHexDigit | plugin/src/SpellScanner.cpp:412 | `{:X}` writes a value below 16 as an upper-case hex digit that reads back as the same value |
| FormIds.UpperHexDigitOfValue | plugin/src/SpellScanner.cpp:412 | reading an upper-case digit and writing it again gives the same digit |
| FormIds.HexDigits | plugin/src/SpellScanner.cpp:412 | the zero-padded `{:0wX}` field has exactly w upper-case hex digits |
| FormIds.FormatFormId | plugin/src/SpellScanner.cpp:607 | `0x{:08X}` is ten characters: "0x" and eight upper-case hex digits |
| FormIds.HexDigitsSplit | plugin/src/SpellScanner.cpp:412 | the zero-padded digits of a value split at any point into the digits of its high part and those of its low part |
| FormIds.CleanId | plugin/src/SpellScanner.cpp:724-733 | a "0x"/"0X" prefix is dropped, then the text is cut to eight characters |
| FormIds.ParseFormId | plugin/src/SpellScanner.cpp:721-747 | the parser loop returns `ParsedFormId`: None on a non-hex character or on empty digits (stoul throws), otherwise the value of the digits |
| FormIds.HexValue | plugin/src/SpellScanner.cpp:743 | `std::stoul(..., 16)` of w hex digits is a value below 16^w |
| FormIds.Pow16AtMostEight | plugin/src/SpellScanner.cpp:730-743 | at most eight digits give a value below 2^32, so the cut to eight digits keeps the result inside a 32-bit FormID |
| FormIds.HexValueOfDigits | plugin/src/SpellScanner.cpp:743 | reading the w formatted digits of x gives `LowDigits(x, w)`, the value of x's w lowest hex digits |
| FormIds.DigitsValue | plugin/src/SpellScanner.cpp:743 | the w formatted digits of a value below 16^w read back as that value |
| FormIds.CleanFormattedId | plugin/src/SpellScanner.cpp:724-733 | the parser's prefix removal and cut turn a formatted FormID into exactly its eight digits |
| FormIds.ParseFormatRoundTrip | plugin/src/SpellScanner.cpp:719-743 | every formatted FormID parses back to the same FormID |
| FormIds.DigitsOfHexValue | plugin/src/SpellScanner.cpp:743 | up to eight upper-case digits read as a value that formats back to the same digits |
| FormIds.FormatParseRoundTrip | plugin/src/SpellScanner.cpp:721-747 | "0x" with eight upper-case digits parses, and formatting the result gives the same text back |
| FormIds.ParsedFormIdIgnoresTail | plugin/src/SpellScanner.cpp:730-733 | once eight digits remain after the prefix, anything appended is cut off and does not change the result |
| FormIds.ModIndex | plugin/src/SpellScanner.cpp:227 | the uint8_t plugin index `(formId >> 24) & 0xFF` is the top byte of the FormID, below 0x100 |
| FormIds.LightIndex | plugin/src/SpellScanner.cpp:230 | the uint16_t light-plugin index `(formId >> 12) & 0xFFF` is below 0x1000 |
| FormIds.PluginSlotOf | plugin/src/SpellScanner.cpp:227-240 | only index 0xFE selects the light-plugin table, with a 12-bit index |
| FormIds.FormattedLeadingField | plugin/src/SpellScanner.cpp:227 | the first two formatted digits are the digits of the top byte `formId >> 24` |
| FormIds.FormattedMiddleField | plugin/src/SpellScanner.cpp:230 | formatted digits three to five are the low three digits of `formId >> 12` |
| FormIds.ModIndexIsLeadingDigits | plugin/src/SpellScanner.cpp:227 | the plugin index is the value of the first two formatted digits |
| FormIds.LightIndexIsMiddleDigits | plugin/src/SpellScanner.cpp:230 | the light index is the value of formatted digits three to five |
| FormIds.LightSlotIffFormattedFE | plugin/src/SpellScanner.cpp:229 | a FormID is looked up as a light plugin exactly when its formatted text starts with "0xFE" |
| SpellFilters.SkillLevelName | plugin/src/SpellScanner.cpp:213-220 | the level is the ladder entry at minimumSkill/25, capped at Master |
| SpellFilters.LevelRank | plugin/src/SpellScanner.cpp:213-220 | a rank within the ladder names that ladder entry |
| SpellFilters.SkillLevelMonotone | plugin/src/SpellScanner.cpp:213-220 | a higher minimum skill never gives a lower level, and every level is a ladder name |
| SpellFilters.IsNonPlayerSpell | plugin/src/SpellScanner.cpp:266-318 | the lambda flags an editor ID exactly when its lower-case form contains trap/altar/shrine/hazard/voice/lefthand/righthand/copy, starts with cr/dun/perk/power/test/mgr, starts with "mg" and two digits, or contains both blessing+spell or both teleport+pet |
| SpellFilters.NonPlayerChainMatches | plugin/src/SpellScanner.cpp:271-317 | the tests in the source's order accept a lower-case editor ID exactly when it matches one of the patterns of `NonPlayerPattern` |
| SpellFilters.NonPlayerSpellIgnoresCase | plugin/src/SpellScanner.cpp:268-269 | the test gives the same answer for an editor ID and for its lower-case form |
| SpellFilters.LooksLikeFormId | plugin/src/SpellScanner.cpp:339 | `length() >= 2` and `substr(0, 2)` equal to "0x" or "0X" holds exactly when the name starts with "0x" or "0X" |
| SpellFilters.AllHexOrSpace | plugin/src/SpellScanner.cpp:346-352 | the loop with `break` answers true exactly when every character is a hex digit or a space |
| SpellFilters.IsFilteredName | plugin/src/SpellScanner.cpp:339-357 | a name is filtered exactly when it starts with "0x"/"0X", or has six or more characters that are all hex digits or spaces |
| SpellFilters.FormattedFormIdIsPlaceholder | plugin/src/SpellScanner.cpp:337-342 | a spell named by its formatted FormID is always filtered |
| SpellFilters.ParsableIdIsPlaceholder | plugin/src/SpellScanner.cpp:344-357 | any name of six to eight characters that the FormID parser accepts is filtered |
| SpellFilters.IsValidEffectName | plugin/src/SpellScanner.cpp:396-397 | an effect name is valid exactly when it has at least three characters and does not start with "0x"/"0X" |
| SpellFilters.FormattedFormIdIsNoEffectName | plugin/src/SpellScanner.cpp:396-397 | no formatted FormID is a valid effect name |
| SpellFilters.HasValidEffect | plugin/src/SpellScanner.cpp:391-402 | the loop over effects skips null entries and answers true exactly when some effect has a valid name |
| SpellFilters.ClassifySpell | plugin/src/SpellScanner.cpp:321-407 | a spell is listed exactly when it passes every filter; it is skipped exactly when it is not a spell or lacks a name or editor ID, or when it passes the name and editor-ID filters but has no school; otherwise it is filtered |
| SpellFilters.ListedSpellHasRealNames | plugin/src/SpellScanner.cpp:335-407 | a listed spell is not named by a formatted FormID, and not by a parseable bare FormID of 6-8 characters; it also has an effect with a real name |

## Left out

- Game data is not modelled: `TESDataHandler`, form lookups, `GetFormEditorID`, `GetFullName`, `GetMagickSkill`, spell type and the load-order tables. The filter chain takes their answers as fields of `SpellFacts`.
- `GetPluginName`: the model shows which table is consulted and with which index (`PluginSlotOf`). It does not model the lookup itself or the "Unknown" fallbacks.
- A null entry in the spell array is not modelled. The scan skips it without counting it, so `ClassifySpell` starts from a non-null spell.
- The magicka-cost test `> 1000.0f` is a float computation by the game. It enters as the boolean `costAboveLimit`. Effectiveness and other float math is not modelled.
- `GetSchoolName`, `GetCastingTypeName` and `GetDeliveryName` are not modelled. They are enum-to-text tables of the game's types.
- JSON building, `ParseScanConfig`, `ParseFieldConfig`, logging, the clock and `GetSystemInstructions` are not modelled. They are I/O and library wrappers with no logic of their own to prove.
- `GetSpellInfoByFormId` beyond the parse, and the tome and spell-info scans, are not modelled. They are form lookups and JSON output.
- `PCH.h` is not modelled. It holds the precompiled-header includes, `using namespace std::literals` and the `logger` and `json` aliases.
- `SpellScanner.h` is not modelled. It declares the entry points. It also defines the `FieldConfig` and `ScanConfig` structs, whose fields choose the JSON output; those defaults matter only to the JSON building and config parsing left out above.
- The repair engine for the learning-tree graph is not part of this model. None of its source is among these files.
- FormIds.ParseFormId: `std::stoul` returns an `unsigned long` that is stored into a 32-bit FormID. The model reads the digits as an unbounded integer. This loses nothing, because after cutting there are at most eight digits, whose value is below 2^32 (`HexValue`, `Pow16AtMostEight`).
- FormIds: a FormID is an integer below 2^32, not a machine word. The shifts and masks of `GetPluginName` are written as division and remainder by powers of two, which is what they compute on unsigned values.
- Text.Lower: characters are classified as in the C locale. Only A-Z are lowered; non-ASCII bytes are unchanged. Text is a sequence of characters with no encoding. `SanitizeToUtf8` works on bytes.

## Notes

- `SanitizeToUTF8` is documented as producing valid UTF-8, but it does not:
  - It replaces bytes 0x80-0x9F even when they are continuation bytes of
    valid UTF-8, so "…" (E2 80 A6) becomes E2 3F A6
    (`SanitizedSplitsUtf8Sequence`).
  - It copies 0xA0-0xFF unchanged, so Windows-1252 text is not re-encoded.
- The hex-name filter also drops real names of six or more characters that
  use only the letters a-f and spaces, for example "Deface".
