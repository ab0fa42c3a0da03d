/** String operations the prompt store relies on: `trim`, `toLowerCase` and
    `includes`, restricted to ASCII white space and ASCII letters. */
module Text {

  /** ASCII white space as removed by `trim`: space, tab, line feed,
      vertical tab, form feed, carriage return. */
  predicate IsSpace(c: char) {
    c == ' ' || c == '\t' || c == '\n' || c == '\U{0B}' || c == '\U{0C}' || c == '\r'
  }

  predicate AllSpace(s: string) {
    forall i :: 0 <= i < |s| ==> IsSpace(s[i])
  }

  predicate IsUpper(c: char) {
    'A' <= c <= 'Z'
  }

  function LowerChar(c: char): char {
    if IsUpper(c) then (c as int + 32) as char else c
  }

  /** `toLowerCase` on ASCII letters; every other character is kept. */
  function Lower(s: string): (r: string)
    ensures |r| == |s|
    ensures forall i :: 0 <= i < |s| ==> !IsUpper(r[i])
    ensures forall i :: 0 <= i < |s| && IsUpper(s[i]) ==> r[i] as int == s[i] as int + 32
    ensures forall i :: 0 <= i < |s| && !IsUpper(s[i]) ==> r[i] == s[i]
  {
    seq(|s|, i requires 0 <= i < |s| => LowerChar(s[i]))
  }

  /** Number of white-space characters at the start of `s`. */
  function LeadingSpaces(s: string): (n: nat)
    ensures n <= |s|
    ensures forall i :: 0 <= i < n ==> IsSpace(s[i])
    ensures n < |s| ==> !IsSpace(s[n])
  {
    if s != [] && IsSpace(s[0]) then 1 + LeadingSpaces(s[1..]) else 0
  }

  /** Number of white-space characters at the end of `s`. */
  function TrailingSpaces(s: string): (n: nat)
    ensures n <= |s|
    ensures forall i :: |s| - n <= i < |s| ==> IsSpace(s[i])
    ensures n < |s| ==> !IsSpace(s[|s| - 1 - n])
  {
    if s != [] && IsSpace(s[|s| - 1]) then 1 + TrailingSpaces(s[..|s| - 1]) else 0
  }

  /** `trim`: drop the white space at both ends. */
  function Trim(s: string): (r: string)
    ensures r == [] <==> AllSpace(s)
  {
    var a := LeadingSpaces(s);
    var t := s[a..];
    var b := TrailingSpaces(t);
    TrimSlice(s, a, b);
    t[..|t| - b]
  }

  /** What `trim` returns neither starts nor ends with white space... */
  lemma TrimEnds(s: string)
    ensures var r := Trim(s); r != [] ==> !IsSpace(r[0]) && !IsSpace(r[|r| - 1])
  {
    var a := LeadingSpaces(s);
    var t := s[a..];
    var b := TrailingSpaces(t);
    var r := t[..|t| - b];
    assert Trim(s) == r;
    if r != [] {
      assert r[0] == s[a];
      assert r[|r| - 1] == t[|t| - 1 - b];
    }
  }

  /** ... and is the slice of `s` after its leading white space, with only
      white space after it. */
  lemma TrimIsSlice(s: string)
    ensures var a, r := LeadingSpaces(s), Trim(s);
      && a + |r| <= |s| && r == s[a..a + |r|]
      && AllSpace(s[..a]) && AllSpace(s[a + |r|..])
  {
    var a := LeadingSpaces(s);
    var t := s[a..];
    var b := TrailingSpaces(t);
    var r := t[..|t| - b];
    assert Trim(s) == r;
    assert r == s[a..a + |r|];
    forall i | 0 <= i < a ensures IsSpace(s[..a][i]) {
      assert s[..a][i] == s[i];
    }
    forall i | a + |r| <= i < |s| ensures IsSpace(s[i]) {
      assert s[i] == t[i - a];
    }
  }

  lemma TrimSlice(s: string, a: nat, b: nat)
    requires a == LeadingSpaces(s) && b == TrailingSpaces(s[a..])
    ensures s[a..][..|s| - a - b] == [] <==> AllSpace(s)
  {
  }

  /** `needle` occurs in `s` starting at index `i`. */
  predicate OccursAt(s: string, needle: string, i: nat) {
    i + |needle| <= |s| && s[i..i + |needle|] == needle
  }

  /** `includes`: whether `needle` occurs anywhere in `s`; the empty string
      occurs in every string. */
  function Includes(s: string, needle: string): (b: bool)
    ensures b <==> exists i: nat :: OccursAt(s, needle, i)
    decreases |s|
  {
    if |needle| > |s| then
      assert forall i: nat :: !OccursAt(s, needle, i);
      false
    else if s[..|needle|] == needle then
      assert OccursAt(s, needle, 0);
      true
    else
      var b := Includes(s[1..], needle);
      assert forall i: nat :: OccursAt(s[1..], needle, i) <==> OccursAt(s, needle, i + 1);
      assert !OccursAt(s, needle, 0);
      assert (exists i: nat :: OccursAt(s, needle, i)) ==> exists i: nat :: OccursAt(s[1..], needle, i) by {
        if exists i: nat :: OccursAt(s, needle, i) {
          var i: nat :| OccursAt(s, needle, i);
          assert i > 0 && OccursAt(s[1..], needle, i - 1);
        }
      }
      b
  }

  lemma {:induction false} LowerKeepsSpaces(s: string)
    ensures forall i :: 0 <= i < |s| ==> (IsSpace(Lower(s)[i]) <==> IsSpace(s[i]))
  {
  }

  lemma {:induction false} LeadingSpacesOfLower(s: string)
    ensures LeadingSpaces(Lower(s)) == LeadingSpaces(s)
    decreases |s|
  {
    if s != [] {
      assert Lower(s)[1..] == Lower(s[1..]);
      LeadingSpacesOfLower(s[1..]);
    }
  }

  lemma {:induction false} TrailingSpacesOfLower(s: string)
    ensures TrailingSpaces(Lower(s)) == TrailingSpaces(s)
    decreases |s|
  {
    if s != [] {
      assert Lower(s)[..|s| - 1] == Lower(s[..|s| - 1]);
      TrailingSpacesOfLower(s[..|s| - 1]);
    }
  }

  lemma {:induction false} LowerSuffix(s: string, a: nat)
    requires a <= |s|
    ensures Lower(s)[a..] == Lower(s[a..])
  {
  }

  lemma {:induction false} LowerPrefix(s: string, k: nat)
    requires k <= |s|
    ensures Lower(s)[..k] == Lower(s[..k])
  {
  }

  /** Lower-casing and trimming commute, so `toLowerCase().trim()` and
      `trim().toLowerCase()` give the same search needle. */
  lemma LowerTrimCommute(s: string)
    ensures Trim(Lower(s)) == Lower(Trim(s))
  {
    var a := LeadingSpaces(s);
    var t := s[a..];
    var b := TrailingSpaces(t);
    var r := t[..|t| - b];
    assert Trim(Lower(s)) == Lower(t)[..|t| - b] by {
      LeadingSpacesOfLower(s);
      LowerSuffix(s, a);
      TrailingSpacesOfLower(t);
    }
    assert Lower(t)[..|t| - b] == Lower(r) by {
      LowerPrefix(t, |t| - b);
    }
    assert Trim(s) == r;
  }

  /** A blank string lower-cases and trims to the empty needle. */
  lemma {:induction false} BlankNeedle(s: string)
    requires AllSpace(s)
    ensures Trim(Lower(s)) == []
  {
    LowerKeepsSpaces(s);
    assert AllSpace(Lower(s));
  }

  /** The empty needle is included in every string. */
  lemma EmptyIncluded(s: string)
    ensures Includes(s, [])
  {
    assert OccursAt(s, [], 0);
  }

  /** A needle whose first character does not appear in `s` is not included. */
  lemma NotIncludedWithoutFirstChar(s: string, needle: string)
    requires needle != [] && needle[0] !in s
    ensures !Includes(s, needle)
  {
    forall i: nat | i + |needle| <= |s| ensures !OccursAt(s, needle, i) {
      assert s[i..i + |needle|][0] == s[i];
    }
  }

  /** A string with no white space at either end is its own trim. */
  lemma TrimUnpadded(s: string)
    requires s != [] && !IsSpace(s[0]) && !IsSpace(s[|s| - 1])
    ensures Trim(s) == s
  {
    assert LeadingSpaces(s) == 0;
    assert s[0..] == s;
    assert TrailingSpaces(s) == 0;
  }
}
