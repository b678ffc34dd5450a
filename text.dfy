/** Character and string operations with the meaning the C and C++ standard
    libraries give them in the "C" locale, as SpellScanner.cpp uses them:
    isxdigit, isdigit, tolower, std::string::substr and std::string::find. */
module Text {
  import opened Options

  /** isxdigit: 0-9, a-f and A-F. */
  predicate IsHexDigit(c: char) {
    '0' <= c <= '9' || 'a' <= c <= 'f' || 'A' <= c <= 'F'
  }

  /** isdigit: 0-9. */
  predicate IsDigit(c: char) {
    '0' <= c <= '9'
  }

  /** tolower in the "C" locale: only A-Z change. */
  function LowerChar(c: char): (r: char)
    ensures !('A' <= r <= 'Z')
    ensures 'A' <= c <= 'Z' ==> 'a' <= r <= 'z' && r as int - 'a' as int == c as int - 'A' as int
    ensures !('A' <= c <= 'Z') ==> r == c
  {
    if 'A' <= c <= 'Z' then (c as int - 'A' as int + 'a' as int) as char else c
  }

  /** std::transform(s.begin(), s.end(), s.begin(), ::tolower). */
  function Lower(s: string): (r: string)
    ensures |r| == |s| && forall i :: 0 <= i < |s| ==> r[i] == LowerChar(s[i])
  {
    seq(|s|, i requires 0 <= i < |s| => LowerChar(s[i]))
  }

  /** Lowering keeps the length and every non-letter, leaves no upper-case
      letter behind, and a second pass changes nothing. */
  lemma LowerProperties(s: string)
    ensures |Lower(s)| == |s|
    ensures forall i :: 0 <= i < |s| && !('A' <= s[i] <= 'Z') ==> Lower(s)[i] == s[i]
    ensures forall i :: 0 <= i < |s| ==> !('A' <= Lower(s)[i] <= 'Z')
    ensures Lower(Lower(s)) == Lower(s)
  {
  }

  /** std::string::substr(pos, count): at most count characters from pos on;
      pos beyond the end throws std::out_of_range, which no caller here reaches. */
  function Substr(s: string, pos: nat, count: nat): (r: string)
    requires pos <= |s|
    ensures |r| == (if pos + count <= |s| then count else |s| - pos)
    ensures forall i :: 0 <= i < |r| ==> r[i] == s[pos + i]
  {
    if pos + count <= |s| then s[pos..pos + count] else s[pos..]
  }

  predicate StartsWith(s: string, p: string) {
    |p| <= |s| && s[..|p|] == p
  }

  /** Comparing a leading substr of the pattern's length with the pattern is
      a prefix test, also when the string is shorter than the pattern. */
  lemma SubstrPrefix(s: string, p: string)
    ensures Substr(s, 0, |p|) == p <==> StartsWith(s, p)
  {
    if |p| > |s| {
      assert |Substr(s, 0, |p|)| < |p|;
    }
  }

  /** p occurs in s starting at index i. */
  predicate OccursAt(s: string, p: string, i: nat) {
    i + |p| <= |s| && s[i..i + |p|] == p
  }

  predicate Contains(s: string, p: string) {
    exists i: nat | i <= |s| :: OccursAt(s, p, i)
  }

  /** The first occurrence of p in s at or after from, as std::string::find
      searches; None stands for std::string::npos. */
  function FindFrom(s: string, p: string, from: nat): (r: Option<nat>)
    requires from <= |s|
    ensures r.Some? ==> from <= r.value && OccursAt(s, p, r.value)
    ensures r.Some? ==> forall j: nat :: from <= j < r.value ==> !OccursAt(s, p, j)
    ensures r.None? ==> forall j: nat :: from <= j ==> !OccursAt(s, p, j)
    decreases |s| - from
  {
    if from + |p| > |s| then None
    else if s[from..from + |p|] == p then Some(from)
    else FindFrom(s, p, from + 1)
  }

  /** std::string::find(p): the first occurrence of p in s. */
  function Find(s: string, p: string): (r: Option<nat>)
    ensures r.Some? <==> Contains(s, p)
    ensures r.Some? ==> OccursAt(s, p, r.value) && forall j: nat :: j < r.value ==> !OccursAt(s, p, j)
  {
    FindFrom(s, p, 0)
  }

  /** find(p) == 0 is a prefix test. */
  lemma FindAtZero(s: string, p: string)
    ensures Find(s, p) == Some(0) <==> StartsWith(s, p)
  {
  }
}
