/** FormIDs as SpellScanner.cpp handles them: written as "0x" and eight
    upper-case hex digits (std::format("0x{:08X}", formId)), read back by the
    hex parser at the start of GetSpellInfoByFormId, and split into a plugin
    index by GetPluginName.

    A FormID is an unsigned 32-bit value, modelled as an integer below 2^32.
    On such values `x >> k` is `x / 2^k` and `x & (2^k - 1)` is `x % 2^k`,
    which is how the shifts and masks of the source are written here. */
module FormIds {
  import opened Options
  import opened Sequences
  import opened Text

  /** RE::FormID, a 32-bit unsigned integer. */
  type FormId = x: int | 0 <= x < 0x1_0000_0000

  // ---------------------------------------------------------------------
  // Hex digits
  // ---------------------------------------------------------------------

  /** The value of one hex digit, as std::stoul reads it in base 16. */
  function DigitValue(c: char): (d: nat)
    requires IsHexDigit(c)
    ensures d < 16
  {
    if '0' <= c <= '9' then c as int - '0' as int
    else if 'a' <= c <= 'f' then c as int - 'a' as int + 10
    else c as int - 'A' as int + 10
  }

  predicate IsUpperHexDigit(c: char) {
    IsHexDigit(c) && !('a' <= c <= 'f')
  }

  /** The digit the {:X} format writes for a value below 16. */
  function UpperHexDigit(n: nat): (c: char)
    requires n < 16
    ensures IsUpperHexDigit(c) && DigitValue(c) == n
  {
    if n < 10 then (n + '0' as int) as char else (n - 10 + 'A' as int) as char
  }

  lemma UpperHexDigitOfValue(c: char)
    requires IsUpperHexDigit(c)
    ensures UpperHexDigit(DigitValue(c)) == c
  {
  }

  predicate AllHex(s: string) {
    forall i :: 0 <= i < |s| ==> IsHexDigit(s[i])
  }

  predicate AllUpperHex(s: string) {
    forall i :: 0 <= i < |s| ==> IsUpperHexDigit(s[i])
  }

  /** 16^w, the number of values w hex digits can write. */
  function Pow16(w: nat): (p: nat)
    ensures p >= 1
  {
    if w == 0 then 1 else 16 * Pow16(w - 1)
  }

  // ---------------------------------------------------------------------
  // Formatting: std::format("0x{:08X}", formId)
  // ---------------------------------------------------------------------

  /** The w lowest hex digits of x, most significant first, zero padded. */
  function HexDigits(x: nat, w: nat): (r: string)
    ensures |r| == w && AllUpperHex(r)
  {
    if w == 0 then [] else HexDigits(x / 16, w - 1) + [UpperHexDigit(x % 16)]
  }

  /** std::format("0x{:08X}", formId). */
  function FormatFormId(id: FormId): (r: string)
    ensures |r| == 10 && r[..2] == "0x" && AllUpperHex(r[2..])
  {
    "0x" + HexDigits(id, 8)
  }

  // ---------------------------------------------------------------------
  // Parsing: the start of GetSpellInfoByFormId
  // ---------------------------------------------------------------------

  /** std::stoul(digits, nullptr, 16): each digit multiplies the value read
      so far by 16; w digits give a value below 16^w. */
  function HexValue(digits: string): (v: nat)
    requires AllHex(digits)
    ensures v < Pow16(|digits|)
  {
    if digits == [] then 0
    else 16 * HexValue(digits[..|digits| - 1]) + DigitValue(digits[|digits| - 1])
  }

  /** Eight digits or fewer always fit in a FormID. */
  lemma {:induction false} Pow16AtMostEight(w: nat)
    requires w <= 8
    ensures Pow16(w) <= 0x1_0000_0000
    decreases 8 - w
  {
    if w < 8 {
      Pow16AtMostEight(w + 1);
    } else {
      assert Pow16(8) == 0x1_0000_0000;
    }
  }

  /** cleanId in GetSpellInfoByFormId: one leading "0x" or "0X" removed, then
      cut to at most eight characters. */
  function CleanId(formIdStr: string): (r: string)
    ensures |r| <= 8
    ensures StartsWith(formIdStr, "0x") || StartsWith(formIdStr, "0X")
            ==> r == formIdStr[2..][..if |formIdStr| - 2 > 8 then 8 else |formIdStr| - 2]
    ensures !(StartsWith(formIdStr, "0x") || StartsWith(formIdStr, "0X"))
            ==> r == formIdStr[..if |formIdStr| > 8 then 8 else |formIdStr|]
  {
    var stripped :=
      if |formIdStr| >= 2 && (Substr(formIdStr, 0, 2) == "0x" || Substr(formIdStr, 0, 2) == "0X")
      then formIdStr[2..] else formIdStr;
    if |stripped| > 8 then stripped[..8] else stripped
  }

  /** The FormID GetSpellInfoByFormId reads from formIdStr, or None where it
      returns "" (a character that is not a hex digit, or nothing left for
      std::stoul, which then throws). */
  function ParsedFormId(formIdStr: string): Option<FormId> {
    var clean := CleanId(formIdStr);
    if clean != [] && AllHex(clean) then
      Pow16AtMostEight(|clean|);
      Some(HexValue(clean))
    else None
  }

  /** The parsing prefix of GetSpellInfoByFormId. */
  method ParseFormId(formIdStr: string) returns (r: Option<FormId>)
    ensures r == ParsedFormId(formIdStr)
  {
    var cleanId := formIdStr;
    if |cleanId| >= 2 && (Substr(cleanId, 0, 2) == "0x" || Substr(cleanId, 0, 2) == "0X") {
      cleanId := cleanId[2..];
    }
    if |cleanId| > 8 {
      cleanId := cleanId[..8];  // the source logs a warning and truncates
    }
    for i := 0 to |cleanId|
      invariant forall j :: 0 <= j < i ==> IsHexDigit(cleanId[j])
    {
      if !IsHexDigit(cleanId[i]) {
        return None;
      }
    }
    if cleanId == [] {
      return None;  // std::stoul throws std::invalid_argument
    }
    Pow16AtMostEight(|cleanId|);
    r := Some(HexValue(cleanId));
  }

  // ---------------------------------------------------------------------
  // Division by powers of 16
  // ---------------------------------------------------------------------

  lemma {:induction false} MulAtLeast(n: int, k: int)
    requires n > 0 && k >= 1
    ensures n * k >= n
  {
    if k > 1 {
      MulAtLeast(n, k - 1);
      assert n * k == n * (k - 1) + n;
    }
  }

  /** Quotient and remainder are the only pair that rebuilds x. */
  lemma DivModUnique(x: int, n: int, a: int, b: int)
    requires n > 0 && 0 <= b < n && x == n * a + b
    ensures x / n == a && x % n == b
  {
    var q := x / n;
    var r := x % n;
    assert n * (q - a) == b - r;
    if q > a {
      MulAtLeast(n, q - a);
    } else if q < a {
      MulAtLeast(n, a - q);
    }
  }

  /** Dropping one digit, then p more, drops 16 * p; the remainders fit
      together the same way. */
  lemma DivModSixteen(x: nat, p: nat)
    requires p > 0
    ensures (x / 16) / p == x / (16 * p)
    ensures 16 * ((x / 16) % p) + x % 16 == x % (16 * p)
  {
    var q := x / 16;
    var a := q / p;
    var b := q % p;
    assert q == p * a + b;
    assert x == (16 * p) * a + (16 * b + x % 16);
    DivModUnique(x, 16 * p, a, 16 * b + x % 16);
  }

  // ---------------------------------------------------------------------
  // Round trips between the formatter and the parser
  // ---------------------------------------------------------------------

  lemma HexValueSnoc(digits: string, c: char)
    requires AllHex(digits) && IsHexDigit(c)
    ensures AllHex(digits + [c])
    ensures HexValue(digits + [c]) == 16 * HexValue(digits) + DigitValue(c)
  {
    var s := digits + [c];
    assert s[..|s| - 1] == digits;
  }

  /** The value of the w lowest hex digits of x. */
  function LowDigits(x: nat, w: nat): nat {
    if w == 0 then 0 else 16 * LowDigits(x / 16, w - 1) + x % 16
  }

  /** The w lowest digits are the remainder modulo 16^w. */
  lemma {:induction false} LowDigitsModulo(x: nat, w: nat)
    ensures LowDigits(x, w) == x % Pow16(w)
  {
    if w > 0 {
      LowDigitsModulo(x / 16, w - 1);
      DivModSixteen(x, Pow16(w - 1));
    }
  }

  /** Reading back w written digits gives the w lowest digits of the value. */
  lemma {:induction false} HexValueOfDigits(x: nat, w: nat)
    ensures HexValue(HexDigits(x, w)) == LowDigits(x, w)
  {
    if w > 0 {
      var d, c := HexDigits(x / 16, w - 1), UpperHexDigit(x % 16);
      HexValueOfDigits(x / 16, w - 1);
      HexValueSnoc(d, c);
      assert HexDigits(x, w) == d + [c];
    }
  }

  /** The parser's cleanId of a formatted FormID is its eight digits. */
  lemma CleanFormattedId(id: FormId)
    ensures CleanId(FormatFormId(id)) == HexDigits(id, 8)
  {
    assert Substr(FormatFormId(id), 0, 2) == "0x";
  }

  /** A value below 16^w is read back whole from its w written digits. */
  lemma DigitsValue(x: nat, w: nat)
    requires x < Pow16(w)
    ensures HexValue(HexDigits(x, w)) == x
  {
    HexValueOfDigits(x, w);
    LowDigitsModulo(x, w);
  }

  /** Formatting a FormID and parsing the text gives the FormID back. */
  lemma ParseFormatRoundTrip(id: FormId)
    ensures ParsedFormId(FormatFormId(id)) == Some(id)
  {
    CleanFormattedId(id);
    assert Pow16(8) == 0x1_0000_0000;
    DigitsValue(id, 8);
    assert AllHex(HexDigits(id, 8));
  }

  /** Up to eight upper-case digits are written back exactly as they were
      read: the 32-bit value loses no digit. */
  lemma {:induction false} DigitsOfHexValue(digits: string)
    requires AllUpperHex(digits)
    ensures AllHex(digits) && HexDigits(HexValue(digits), |digits|) == digits
  {
    if digits != [] {
      var init := digits[..|digits| - 1];
      var last := digits[|digits| - 1];
      DigitsOfHexValue(init);
      var v := HexValue(digits);
      DivModUnique(v, 16, HexValue(init), DigitValue(last));
      UpperHexDigitOfValue(last);
      assert digits == init + [last];
    }
  }

  /** The other direction of the round trip: "0x" and eight upper-case hex
      digits parse to a FormID that formats back to the same text. */
  lemma FormatParseRoundTrip(formIdStr: string)
    requires |formIdStr| == 10 && formIdStr[..2] == "0x" && AllUpperHex(formIdStr[2..])
    ensures ParsedFormId(formIdStr).Some?
    ensures FormatFormId(ParsedFormId(formIdStr).value) == formIdStr
  {
    var digits := formIdStr[2..];
    assert Substr(formIdStr, 0, 2) == "0x";
    assert CleanId(formIdStr) == digits;
    DigitsOfHexValue(digits);
    assert formIdStr == "0x" + digits;
  }

  /** Once eight digits are in, nothing appended changes what is parsed:
      the parser reads at most ten characters. */
  lemma ParsedFormIdIgnoresTail(formIdStr: string, tail: string)
    requires |CleanId(formIdStr)| == 8
    ensures ParsedFormId(formIdStr + tail) == ParsedFormId(formIdStr)
  {
    var s := formIdStr + tail;
    assert |formIdStr| >= 8;
    assert s[..2] == formIdStr[..2];
    assert Substr(s, 0, 2) == Substr(formIdStr, 0, 2);
    assert CleanId(s) == CleanId(formIdStr);
  }

  // ---------------------------------------------------------------------
  // GetPluginName: the plugin index inside a FormID
  // ---------------------------------------------------------------------

  /** (formId >> 24) & 0xFF, stored in a uint8_t: the load-order index of the
      plugin the form comes from, the whole top byte. */
  function ModIndex(id: FormId): (r: nat)
    ensures r < 0x100 && r == id / 0x100_0000
  {
    (id / 0x100_0000) % 0x100
  }

  /** (formId >> 12) & 0xFFF, stored in a uint16_t: the index of a light plugin. */
  function LightIndex(id: FormId): (r: nat)
    ensures r < 0x1000
  {
    (id / 0x1000) % 0x1000
  }

  /** Which load-order table GetPluginName consults, and with which index. */
  datatype PluginSlot = LoadedMod(modIndex: nat) | LoadedLightMod(lightIndex: nat)

  function PluginSlotOf(id: FormId): (slot: PluginSlot)
    ensures slot.LoadedLightMod? <==> ModIndex(id) == 0xFE
    ensures slot.LoadedLightMod? ==> slot.lightIndex < 0x1000
    ensures slot.LoadedMod? ==> slot.modIndex < 0x100 && slot.modIndex != 0xFE
  {
    var modIndex := ModIndex(id);
    if modIndex == 0xFE then LoadedLightMod(LightIndex(id)) else LoadedMod(modIndex)
  }

  /** x with its k lowest hex digits dropped. */
  function DropDigits(x: nat, k: nat): nat {
    if k == 0 then x else DropDigits(x / 16, k - 1)
  }

  /** Dropping k digits is dividing by 16^k. */
  lemma {:induction false} DropDigitsDivides(x: nat, k: nat)
    ensures DropDigits(x, k) == x / Pow16(k)
  {
    if k > 0 {
      DropDigitsDivides(x / 16, k - 1);
      DivModSixteen(x, Pow16(k - 1));
    }
  }

  /** Writing one more digit appends the digit of x % 16 to the digits of x / 16. */
  lemma HexDigitsLast(x: nat, w: nat)
    ensures HexDigits(x, w + 1) == HexDigits(x / 16, w) + [UpperHexDigit(x % 16)]
  {
  }

  /** The written digits split at any point into the digits of the high part
      and those of the low part. */
  lemma {:induction false} HexDigitsSplit(x: nat, hi: nat, lo: nat)
    ensures HexDigits(x, hi + lo) == HexDigits(DropDigits(x, lo), hi) + HexDigits(x, lo)
  {
    if lo > 0 {
      var y, n := x / 16, lo - 1;
      var d := [UpperHexDigit(x % 16)];
      HexDigitsSplit(y, hi, n);
      HexDigitsLast(x, hi + n);
      HexDigitsLast(x, n);
      assert DropDigits(x, lo) == DropDigits(y, n);
      ConcatAssociates(HexDigits(DropDigits(y, n), hi), HexDigits(y, n), d);
    }
  }

  /** The third and fourth characters of a formatted FormID are the digits
      of its top byte. */
  lemma FormattedLeadingField(id: FormId)
    ensures FormatFormId(id)[2..4] == HexDigits(id / 0x100_0000, 2)
  {
    var digits := FormatFormId(id)[2..];
    assert digits == HexDigits(id, 8);
    HexDigitsSplit(id, 2, 6);
    DropDigitsDivides(id, 6);
    assert Pow16(6) == 0x100_0000;
    assert FormatFormId(id)[2..4] == digits[..2];
  }

  /** The fifth to seventh characters of a formatted FormID are the digits
      of bits 12-23. */
  lemma FormattedMiddleField(id: FormId)
    ensures FormatFormId(id)[4..7] == HexDigits(id / 0x1000, 3)
  {
    var digits := FormatFormId(id)[2..];
    var high := DropDigits(id, 3);
    assert digits == HexDigits(id, 8);
    HexDigitsSplit(id, 5, 3);
    HexDigitsSplit(high, 2, 3);
    assert digits[..5] == HexDigits(DropDigits(high, 3), 2) + HexDigits(high, 3);
    assert FormatFormId(id)[4..7] == digits[2..5];
    DropDigitsDivides(id, 3);
    assert Pow16(3) == 0x1000;
  }

  /** The mod index is the value of the first two formatted digits. */
  lemma ModIndexIsLeadingDigits(id: FormId)
    ensures ModIndex(id) == HexValue(FormatFormId(id)[2..4])
  {
    FormattedLeadingField(id);
    HexValueOfDigits(id / 0x100_0000, 2);
    LowDigitsModulo(id / 0x100_0000, 2);
    assert Pow16(2) == 0x100;
  }

  /** The light index is the value of the fifth to seventh formatted characters. */
  lemma LightIndexIsMiddleDigits(id: FormId)
    ensures LightIndex(id) == HexValue(FormatFormId(id)[4..7])
  {
    FormattedMiddleField(id);
    HexValueOfDigits(id / 0x1000, 3);
    LowDigitsModulo(id / 0x1000, 3);
    assert Pow16(3) == 0x1000;
  }

  lemma DigitsFE()
    ensures AllUpperHex("FE") && HexValue("FE") == 0xFE
  {
    assert "FE"[..1] == "F";
  }

  /** GetPluginName looks a FormID up among the light plugins exactly when its
      formatted text starts with "0xFE". */
  lemma LightSlotIffFormattedFE(id: FormId)
    ensures PluginSlotOf(id).LoadedLightMod? <==> FormatFormId(id)[2..4] == "FE"
  {
    var lead := FormatFormId(id)[2..4];
    assert lead == FormatFormId(id)[2..][..2];
    ModIndexIsLeadingDigits(id);
    DigitsFE();
    DigitsOfHexValue(lead);
    DigitsOfHexValue("FE");
  }
}
