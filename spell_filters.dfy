/** The classification logic of SpellScanner.cpp that needs no game data:
    the skill-level ladder, the editor-ID test for spells a player never
    learns, and the name and effect-name tests ScanSpellsToJson applies
    before a spell is listed. */
module SpellFilters {
  import opened Options
  import opened Text
  import opened FormIds

  // ---------------------------------------------------------------------
  // GetSkillLevelName
  // ---------------------------------------------------------------------

  const SkillLevels: seq<string> := ["Novice", "Apprentice", "Adept", "Expert", "Master"]

  /** GetSkillLevelName: one level per 25 points of minimum skill, capped at Master. */
  function SkillLevelName(minimumSkill: nat): (name: string)
    ensures name == SkillLevels[if minimumSkill / 25 < 4 then minimumSkill / 25 else 4]
  {
    if minimumSkill < 25 then "Novice"
    else if minimumSkill < 50 then "Apprentice"
    else if minimumSkill < 75 then "Adept"
    else if minimumSkill < 100 then "Expert"
    else "Master"
  }

  /** The position of a level name in the ladder (5 for any other text). */
  function LevelRank(name: string): (rank: nat)
    ensures rank < |SkillLevels| ==> SkillLevels[rank] == name
  {
    if name == "Novice" then 0
    else if name == "Apprentice" then 1
    else if name == "Adept" then 2
    else if name == "Expert" then 3
    else if name == "Master" then 4
    else 5
  }

  /** More skill never gives a lower level, and every result is a ladder name. */
  lemma SkillLevelMonotone(a: nat, b: nat)
    requires a <= b
    ensures LevelRank(SkillLevelName(a)) <= LevelRank(SkillLevelName(b)) < |SkillLevels|
  {
  }

  // ---------------------------------------------------------------------
  // isNonPlayerSpell
  // ---------------------------------------------------------------------

  /** The isNonPlayerSpell lambda of ScanSpellsToJson: the editor ID is
      lower-cased and then tested. It flags exactly the editor IDs whose
      lower-case form matches one of the patterns. */
  function IsNonPlayerSpell(editorId: string): (r: bool)
    ensures r <==> NonPlayerPattern(Lower(editorId))
  {
    NonPlayerChainMatches(Lower(editorId));
    NonPlayerChain(Lower(editorId))
  }

  /** The tests of isNonPlayerSpell on the lower-cased editor ID, in the
      source's order. */
  function NonPlayerChain(lower: string): bool {
    if Find(lower, "trap").Some? then true                      // trap spells
    else if Substr(lower, 0, 2) == "cr" then true               // creature abilities
    else if Find(lower, "altar").Some? then true                // altar blessings
    else if Find(lower, "shrine").Some? then true               // shrine blessings
    else if Find(lower, "blessing").Some? && Find(lower, "spell").Some? then true
    else if Substr(lower, 0, 3) == "dun" then true              // dungeon spells
    else if Substr(lower, 0, 4) == "perk" then true             // perk spells
    else if Find(lower, "hazard").Some? then true               // hazards
    else if Substr(lower, 0, 5) == "power" then true            // NPC powers
    else if Substr(lower, 0, 4) == "test" then true             // test spells
    else if |lower| >= 4 && Substr(lower, 0, 2) == "mg" && IsDigit(lower[2]) && IsDigit(lower[3])
    then true                                                   // college quest spells
    else if Find(lower, "mgr") == Some(0) then true
    else if Find(lower, "voice").Some? then true                // shout variants
    else if Find(lower, "teleport").Some? && Find(lower, "pet").Some? then true
    else if Find(lower, "lefthand").Some? then true             // hand variants
    else if Find(lower, "righthand").Some? then true
    else if Find(lower, "copy").Some? then true                 // _Copy variants
    else false
  }

  const NonPlayerFragments: seq<string> :=
    ["trap", "altar", "shrine", "hazard", "voice", "lefthand", "righthand", "copy"]

  const NonPlayerPrefixes: seq<string> := ["cr", "dun", "perk", "power", "test", "mgr"]

  /** The editor-ID patterns of non-player spells, stated as one disjunction
      over a lower-case editor ID. */
  predicate NonPlayerPattern(lower: string) {
    || (exists k :: 0 <= k < |NonPlayerFragments| && Contains(lower, NonPlayerFragments[k]))
    || (exists k :: 0 <= k < |NonPlayerPrefixes| && StartsWith(lower, NonPlayerPrefixes[k]))
    || (|lower| >= 4 && StartsWith(lower, "mg") && IsDigit(lower[2]) && IsDigit(lower[3]))
    || (Contains(lower, "blessing") && Contains(lower, "spell"))
    || (Contains(lower, "teleport") && Contains(lower, "pet"))
  }

  /** The chain of tests accepts exactly the strings that match one of the
      patterns. */
  lemma NonPlayerChainMatches(lower: string)
    ensures NonPlayerChain(lower) <==> NonPlayerPattern(lower)
  {
    SubstrPrefix(lower, "cr");
    SubstrPrefix(lower, "dun");
    SubstrPrefix(lower, "perk");
    SubstrPrefix(lower, "power");
    SubstrPrefix(lower, "test");
    SubstrPrefix(lower, "mg");
    FindAtZero(lower, "mgr");
    FragmentsSpelledOut(lower);
    PrefixesSpelledOut(lower);
  }

  /** Containing one of the listed fragments, spelled out one by one. */
  lemma FragmentsSpelledOut(lower: string)
    ensures (exists k :: 0 <= k < |NonPlayerFragments| && Contains(lower, NonPlayerFragments[k]))
        <==> (|| Contains(lower, "trap") || Contains(lower, "altar") || Contains(lower, "shrine")
              || Contains(lower, "hazard") || Contains(lower, "voice") || Contains(lower, "lefthand")
              || Contains(lower, "righthand") || Contains(lower, "copy"))
  {
    assert NonPlayerFragments[0] == "trap" && NonPlayerFragments[1] == "altar";
    assert NonPlayerFragments[2] == "shrine" && NonPlayerFragments[3] == "hazard";
    assert NonPlayerFragments[4] == "voice" && NonPlayerFragments[5] == "lefthand";
    assert NonPlayerFragments[6] == "righthand" && NonPlayerFragments[7] == "copy";
  }

  /** Starting with one of the listed prefixes, spelled out one by one. */
  lemma PrefixesSpelledOut(lower: string)
    ensures (exists k :: 0 <= k < |NonPlayerPrefixes| && StartsWith(lower, NonPlayerPrefixes[k]))
        <==> (|| StartsWith(lower, "cr") || StartsWith(lower, "dun") || StartsWith(lower, "perk")
              || StartsWith(lower, "power") || StartsWith(lower, "test") || StartsWith(lower, "mgr"))
  {
    assert NonPlayerPrefixes[0] == "cr" && NonPlayerPrefixes[1] == "dun";
    assert NonPlayerPrefixes[2] == "perk" && NonPlayerPrefixes[3] == "power";
    assert NonPlayerPrefixes[4] == "test" && NonPlayerPrefixes[5] == "mgr";
  }

  /** Case does not matter: an editor ID and its lower-case form are judged alike. */
  lemma NonPlayerSpellIgnoresCase(editorId: string)
    ensures IsNonPlayerSpell(Lower(editorId)) == IsNonPlayerSpell(editorId)
  {
    LowerProperties(editorId);
  }

  // ---------------------------------------------------------------------
  // Name filters of ScanSpellsToJson
  // ---------------------------------------------------------------------

  /** A name that starts like a FormID, "0x" or "0X". */
  function LooksLikeFormId(name: string): (r: bool)
    ensures r <==> StartsWith(name, "0x") || StartsWith(name, "0X")
  {
    SubstrPrefix(name, "0x");
    SubstrPrefix(name, "0X");
    |name| >= 2 && (Substr(name, 0, 2) == "0x" || Substr(name, 0, 2) == "0X")
  }

  predicate IsHexOrSpace(c: char) {
    IsHexDigit(c) || c == ' '
  }

  /** The names the scan drops: FormID-like, or six or more characters all of
      them hex digits or spaces. */
  predicate IsPlaceholderName(name: string) {
    LooksLikeFormId(name)
    || (|name| >= 6 && forall i :: 0 <= i < |name| ==> IsHexOrSpace(name[i]))
  }

  /** The allHex loop: stops at the first character that is neither a hex
      digit nor a space. */
  method AllHexOrSpace(name: string) returns (allHex: bool)
    ensures allHex <==> forall i :: 0 <= i < |name| ==> IsHexOrSpace(name[i])
  {
    allHex := true;
    var i := 0;
    while i < |name|
      invariant 0 <= i <= |name|
      invariant forall j :: 0 <= j < i ==> IsHexOrSpace(name[j])
    {
      if !IsHexDigit(name[i]) && name[i] != ' ' {
        allHex := false;
        break;
      }
      i := i + 1;
    }
  }

  /** Both name filters, in the source's order. */
  method IsFilteredName(name: string) returns (filtered: bool)
    ensures filtered == IsPlaceholderName(name)
  {
    if |name| >= 2 && (Substr(name, 0, 2) == "0x" || Substr(name, 0, 2) == "0X") {
      return true;
    }
    var allHex := AllHexOrSpace(name);
    filtered := allHex && |name| >= 6;
  }

  /** A spell named by its own formatted FormID is dropped. */
  lemma FormattedFormIdIsPlaceholder(id: FormId)
    ensures IsPlaceholderName(FormatFormId(id))
  {
    assert Substr(FormatFormId(id), 0, 2) == "0x";
  }

  /** Every name of six to eight characters that the FormID parser accepts is
      dropped by the name filters. */
  lemma ParsableIdIsPlaceholder(name: string)
    requires 6 <= |name| <= 8 && ParsedFormId(name).Some?
    ensures IsPlaceholderName(name)
  {
    if !LooksLikeFormId(name) {
      assert CleanId(name) == name;
    }
  }

  // ---------------------------------------------------------------------
  // Effect-name check of ScanSpellsToJson
  // ---------------------------------------------------------------------

  /** An effect name the scan accepts as real: one of three or more
      characters that does not start like a FormID; so no formatted FormID is
      a valid effect name. */
  function IsValidEffectName(effectName: string): (r: bool)
    ensures r <==> |effectName| >= 3 && !LooksLikeFormId(effectName)
  {
    |effectName| != 0 && |effectName| > 2
    && Substr(effectName, 0, 2) != "0x" && Substr(effectName, 0, 2) != "0X"
  }

  lemma FormattedFormIdIsNoEffectName(id: FormId)
    ensures !IsValidEffectName(FormatFormId(id))
  {
    assert Substr(FormatFormId(id), 0, 2) == "0x";
  }

  /** Some effect with a base effect carries a valid name; None stands for a
      null effect or a null base effect. */
  predicate HasValidEffectName(effectNames: seq<Option<string>>) {
    exists i :: 0 <= i < |effectNames| && effectNames[i].Some? && IsValidEffectName(effectNames[i].value)
  }

  /** The hasValidEffect loop over a spell's effects, which skips the null
      ones and stops at the first valid name. */
  method HasValidEffect(effectNames: seq<Option<string>>) returns (found: bool)
    ensures found == HasValidEffectName(effectNames)
  {
    found := false;
    var i := 0;
    while i < |effectNames|
      invariant 0 <= i <= |effectNames|
      invariant forall j :: 0 <= j < i ==> !(effectNames[j].Some? && IsValidEffectName(effectNames[j].value))
    {
      if effectNames[i].Some? {
        var effectName := effectNames[i].value;
        if IsValidEffectName(effectName) {
          found := true;
          break;
        }
      }
      i := i + 1;
    }
  }

  // ---------------------------------------------------------------------
  // The per-spell filter chain of ScanSpellsToJson
  // ---------------------------------------------------------------------

  /** What the scan reads from one spell form. The game computes isSpell
      (spellType is kSpell), hasSchool (the first effect's base effect has a
      magic skill other than kNone) and costAboveLimit (the magicka cost
      exceeds 1000.0f); they enter the model as given facts. */
  datatype SpellFacts = SpellFacts(
    isSpell: bool,
    name: string,
    editorId: Option<string>,
    hasSchool: bool,
    costAboveLimit: bool,
    effectNames: seq<Option<string>>)

  /** Skipped and Filtered are the two counters the scan logs. */
  datatype Verdict = Skipped | Filtered | Listed

  predicate HasUsableIdentity(spell: SpellFacts) {
    spell.isSpell && spell.name != [] && spell.editorId.Some? && spell.editorId.value != []
  }

  /** A spell the scan lists: every filter lets it through. */
  predicate PassesFilters(spell: SpellFacts) {
    HasUsableIdentity(spell)
    && !IsPlaceholderName(spell.name)
    && !IsNonPlayerSpell(spell.editorId.value)
    && spell.hasSchool
    && !spell.costAboveLimit
    && HasValidEffectName(spell.effectNames)
  }

  /** One iteration of the spell loop of ScanSpellsToJson, up to the point
      where the spell's JSON is built. */
  method ClassifySpell(spell: SpellFacts) returns (v: Verdict)
    ensures v == Listed <==> PassesFilters(spell)
    ensures v == Skipped <==>
      !HasUsableIdentity(spell)
      || (!IsPlaceholderName(spell.name) && !IsNonPlayerSpell(spell.editorId.value) && !spell.hasSchool)
  {
    if !spell.isSpell {
      return Skipped;
    }
    if spell.name == [] || spell.editorId.None? || spell.editorId.value == [] {
      return Skipped;
    }
    var nameFiltered := IsFilteredName(spell.name);
    if nameFiltered {
      return Filtered;
    }
    if IsNonPlayerSpell(spell.editorId.value) {
      return Filtered;
    }
    if !spell.hasSchool {
      return Skipped;
    }
    if spell.costAboveLimit {
      return Filtered;
    }
    var hasValidEffect := HasValidEffect(spell.effectNames);
    if !hasValidEffect {
      return Filtered;
    }
    v := Listed;
  }

  /** A listed spell is never named by a formatted FormID, nor by a bare
      FormID of six to eight digits, and it has an effect whose name is not
      FormID-like. */
  lemma ListedSpellHasRealNames(spell: SpellFacts, id: FormId)
    requires PassesFilters(spell)
    ensures spell.name != FormatFormId(id)
    ensures 6 <= |spell.name| <= 8 ==> ParsedFormId(spell.name).None?
    ensures exists i :: 0 <= i < |spell.effectNames| && spell.effectNames[i].Some?
                        && |spell.effectNames[i].value| >= 3 && !LooksLikeFormId(spell.effectNames[i].value)
  {
    FormattedFormIdIsPlaceholder(id);
    if 6 <= |spell.name| <= 8 && ParsedFormId(spell.name).Some? {
      ParsableIdIsPlaceholder(spell.name);
    }
  }
}
