/** SanitizeToUTF8 from SpellScanner.cpp: before a spell, tome or effect name
    goes into the JSON output, every Windows-1252 control byte (0x80-0x9F) is
    replaced by a fixed ASCII spelling; every other byte is copied as it is. */
module Utf8Sanitize {
  import opened Sequences

  newtype byte = b: int | 0 <= b < 0x100

  type Bytes = seq<byte>

  /** The bytes the source calls "Windows-1252 control characters". */
  predicate IsC1(b: byte) {
    0x80 <= b <= 0x9F
  }

  predicate FreeOfC1(s: Bytes) {
    forall i :: 0 <= i < |s| ==> !IsC1(s[i])
  }

  /** The bytes of a string of ASCII characters. */
  function Ascii(s: string): (r: Bytes)
    requires forall i :: 0 <= i < |s| ==> s[i] as int < 0x80
    ensures |r| == |s|
    ensures forall i :: 0 <= i < |s| ==> r[i] as int == s[i] as int
  {
    seq(|s|, i requires 0 <= i < |s| => s[i] as int as byte)
  }

  /** The switch in SanitizeToUTF8: the ASCII text written for one control byte. */
  function C1Replacement(c: byte): (r: Bytes)
    requires IsC1(c)
    ensures 1 <= |r| <= 4
    ensures forall i :: 0 <= i < |r| ==> 0x20 <= r[i] < 0x7F
  {
    match c
    case 0x91 => Ascii("'")     // left single quote
    case 0x92 => Ascii("'")     // right single quote
    case 0x93 => Ascii("\"")    // left double quote
    case 0x94 => Ascii("\"")    // right double quote
    case 0x96 => Ascii("-")     // en dash
    case 0x97 => Ascii("-")     // em dash
    case 0x85 => Ascii("...")   // ellipsis
    case 0x99 => Ascii("(TM)")  // trademark
    case _ => Ascii("?")
  }

  /** What one input byte turns into. */
  function Image(b: byte): Bytes {
    if IsC1(b) then C1Replacement(b) else [b]
  }

  /** The specification of SanitizeToUTF8: the images of the input bytes, in order. */
  function Sanitized(s: Bytes): Bytes {
    if s == [] then [] else Sanitized(s[..|s| - 1]) + Image(s[|s| - 1])
  }

  /** SanitizeToUTF8: appends each byte's image to the result, one byte at a time. */
  method SanitizeToUtf8(input: Bytes) returns (result: Bytes)
    ensures result == Sanitized(input)
  {
    result := [];
    for i := 0 to |input|
      invariant result == Sanitized(input[..i])
    {
      var c := input[i];
      if c < 0x80 {
        result := result + [c];
      } else if c >= 0x80 && c <= 0x9F {
        result := result + C1Replacement(c);
      } else {
        result := result + [c];
      }
      assert input[..i + 1][..i] == input[..i];
    }
    assert input[..|input|] == input;
  }

  /** One more input byte adds its image at the end. */
  lemma SanitizedSnoc(s: Bytes, x: byte)
    ensures Sanitized(s + [x]) == Sanitized(s) + Image(x)
  {
    assert (s + [x])[..|s|] == s;
  }

  /** Sanitizing works byte by byte: it distributes over concatenation. */
  lemma {:induction false} SanitizedAppend(a: Bytes, b: Bytes)
    ensures Sanitized(a + b) == Sanitized(a) + Sanitized(b)
    decreases |b|
  {
    if b == [] {
      assert a + b == a;
    } else {
      var b', last := b[..|b| - 1], b[|b| - 1];
      assert b == b' + [last];
      assert a + b == (a + b') + [last];
      SanitizedSnoc(a + b', last);
      SanitizedSnoc(b', last);
      SanitizedAppend(a, b');
      ConcatAssociates(Sanitized(a), Sanitized(b'), Image(last));
    }
  }

  /** No byte 0x80-0x9F survives. */
  lemma {:induction false} SanitizedFreeOfC1(s: Bytes)
    ensures FreeOfC1(Sanitized(s))
  {
    if s != [] {
      SanitizedFreeOfC1(s[..|s| - 1]);
      var last := s[|s| - 1];
      assert FreeOfC1(Image(last));
    }
  }

  /** Input without a byte 0x80-0x9F comes back unchanged. */
  lemma {:induction false} SanitizedUnchanged(s: Bytes)
    requires FreeOfC1(s)
    ensures Sanitized(s) == s
  {
    if s != [] {
      SanitizedUnchanged(s[..|s| - 1]);
      assert s[..|s| - 1] + [s[|s| - 1]] == s;
    }
  }

  /** Sanitizing twice is sanitizing once. */
  lemma SanitizedIdempotent(s: Bytes)
    ensures Sanitized(Sanitized(s)) == Sanitized(s)
  {
    SanitizedFreeOfC1(s);
    SanitizedUnchanged(Sanitized(s));
  }

  /** One byte becomes three bytes if it is 0x85, four if it is 0x99, and
      one otherwise. */
  lemma ImageLength(b: byte)
    ensures |Image(b)| == 1 + (if b == 0x85 then 2 else 0) + (if b == 0x99 then 3 else 0)
  {
  }

  /** The output is longer than the input by two bytes per ellipsis (0x85)
      and three per trademark sign (0x99), so it is never shorter. */
  lemma {:induction false} SanitizedLength(s: Bytes)
    ensures |Sanitized(s)| == |s| + 2 * multiset(s)[0x85] + 3 * multiset(s)[0x99]
    ensures |Sanitized(s)| >= |s|
  {
    if s != [] {
      var init, last := s[..|s| - 1], s[|s| - 1];
      SanitizedLength(init);
      ImageLength(last);
      assert s == init + [last];
      assert multiset(s) == multiset(init) + multiset{last};
    }
  }

  /** The bytes 0xA0-0xFF of a byte string, in order. */
  function HighBytes(s: Bytes): Bytes {
    if s == [] then []
    else HighBytes(s[..|s| - 1]) + (if s[|s| - 1] >= 0xA0 then [s[|s| - 1]] else [])
  }

  lemma {:induction false} HighBytesAppend(a: Bytes, b: Bytes)
    ensures HighBytes(a + b) == HighBytes(a) + HighBytes(b)
    decreases |b|
  {
    if b == [] {
      assert a + b == a;
    } else {
      var b' := b[..|b| - 1];
      assert (a + b)[..|a + b| - 1] == a + b';
      HighBytesAppend(a, b');
    }
  }

  /** Every byte 0xA0-0xFF of the input reaches the output unchanged and in
      the same order, and the output has no other byte from 0x80 up. */
  lemma {:induction false} SanitizedKeepsHighBytes(s: Bytes)
    ensures HighBytes(Sanitized(s)) == HighBytes(s)
    ensures forall i :: 0 <= i < |Sanitized(s)| ==> Sanitized(s)[i] < 0x80 || Sanitized(s)[i] >= 0xA0
  {
    SanitizedFreeOfC1(s);
    if s != [] {
      var init, last := s[..|s| - 1], s[|s| - 1];
      SanitizedKeepsHighBytes(init);
      HighBytesAppend(Sanitized(init), Image(last));
      if IsC1(last) {
        var r := C1Replacement(last);
        assert HighBytes(r) == [] by {
          HighBytesAscii(r);
        }
      } else {
        assert HighBytes([last]) == (if last >= 0xA0 then [last] else []);
      }
    }
  }

  lemma {:induction false} HighBytesAscii(s: Bytes)
    requires forall i :: 0 <= i < |s| ==> s[i] < 0x80
    ensures HighBytes(s) == []
  {
    if s != [] {
      HighBytesAscii(s[..|s| - 1]);
    }
  }

  /** The UTF-8 encoding of U+2026 (E2 80 A6) loses its middle continuation
      byte: the rewrite does not keep valid UTF-8 input valid. */
  lemma SanitizedSplitsUtf8Sequence()
    ensures Sanitized([0xE2, 0x80, 0xA6]) == [0xE2, 0x3F, 0xA6]
  {
    var s: Bytes := [0xE2, 0x80, 0xA6];
    assert s[..2] == [0xE2, 0x80] && s[..2][..1] == [0xE2] && s[..2][..1][..0] == [];
    assert Image(0x80) == [0x3F] by {
      var q := Ascii("?");
      assert |q| == 1 && q[0] as int == '?' as int;
    }
    assert Sanitized([0xE2]) == [0xE2];
    assert Sanitized(s[..2]) == [0xE2, 0x3F];
    assert Sanitized(s) == Sanitized(s[..2]) + Image(0xA6);
  }
}
