/**
 * The Python string built-ins the URL pipeline relies on, restricted to the
 * ASCII alphabet: character classes, `str.lower`, `str.count`, the `in`
 * substring test, `str.strip`, `str.removeprefix` and `str.title`.
 */
module Text {

  // ---------------------------------------------------------------------------
  // Character classes
  // ---------------------------------------------------------------------------

  /** `str.isspace` on ASCII: tab, line feed, vertical tab, form feed, carriage
      return, the four information separators (0x1C-0x1F) and the space. */
  predicate IsSpace(c: char) {
    9 <= c as int <= 13 || 28 <= c as int <= 32
  }

  /** `str.isdigit` and the regex class `\d` on ASCII. */
  predicate IsDigit(c: char) { '0' <= c <= '9' }

  predicate IsUpper(c: char) { 'A' <= c <= 'Z' }

  predicate IsLower(c: char) { 'a' <= c <= 'z' }

  /** The cased characters of ASCII. */
  predicate IsLetter(c: char) { IsUpper(c) || IsLower(c) }

  /** A character outside the regex class `[a-zA-Z0-9]`. */
  predicate IsSpecial(c: char) { !(IsLetter(c) || IsDigit(c)) }

  function LowerChar(c: char): char {
    if IsUpper(c) then (c as int + 32) as char else c
  }

  function UpperChar(c: char): char {
    if IsLower(c) then (c as int - 32) as char else c
  }

  // ---------------------------------------------------------------------------
  // str.lower
  // ---------------------------------------------------------------------------

  /** `s.lower()`: every upper-case letter is replaced by its lower-case form,
      every other character is kept, and the length does not change. */
  function Lower(s: string): (r: string)
    ensures |r| == |s|
    ensures forall i :: 0 <= i < |s| ==> r[i] == LowerChar(s[i])
    ensures forall i :: 0 <= i < |r| ==> !IsUpper(r[i])
  {
    if s == [] then [] else [LowerChar(s[0])] + Lower(s[1..])
  }

  /** Lower-casing twice is lower-casing once. */
  lemma LowerIdempotent(s: string)
    ensures Lower(Lower(s)) == Lower(s)
  {
    var once := Lower(s);
    assert forall i :: 0 <= i < |once| ==> LowerChar(once[i]) == once[i];
  }

  // ---------------------------------------------------------------------------
  // str.count and sum(...) over characters
  // ---------------------------------------------------------------------------

  /** `s.count(c)` for a one-character argument: the number of occurrences
      of `c`, which is its multiplicity in the multiset of characters. */
  function Count(s: string, c: char): (n: nat)
    ensures n == multiset(s)[c]
    ensures n <= |s|
    ensures n > 0 <==> c in s
  {
    if s == [] then 0
    else
      assert s == [s[0]] + s[1..];
      (if s[0] == c then 1 else 0) + Count(s[1..], c)
  }

  /** `sum(p(c) for c in s)`: the number of characters satisfying `p`. */
  function CountWhere(s: string, p: char -> bool): (n: nat)
    ensures n <= |s|
    ensures n == 0 <==> forall i :: 0 <= i < |s| ==> !p(s[i])
  {
    if s == [] then 0
    else (if p(s[0]) then 1 else 0) + CountWhere(s[1..], p)
  }

  /** The class count of a single character is 1 or 0 as it qualifies. */
  lemma CountWhereSingle(c: char, p: char -> bool)
    ensures CountWhere([c], p) == if p(c) then 1 else 0
  {
  }

  /** The class count is additive over concatenation, so together with
      `CountWhereSingle` it is exactly the number of qualifying characters. */
  lemma {:induction false} CountWhereConcat(a: string, b: string, p: char -> bool)
    ensures CountWhere(a + b, p) == CountWhere(a, p) + CountWhere(b, p)
  {
    if a == [] {
      assert a + b == b;
    } else {
      assert (a + b)[0] == a[0];
      assert (a + b)[1..] == a[1..] + b;
      CountWhereConcat(a[1..], b, p);
    }
  }

  /** Every character is in the ASCII range, where the classes above agree
      with Python's. */
  predicate IsAscii(s: string) {
    forall i :: 0 <= i < |s| ==> s[i] as int < 128
  }

  /** On ASCII text no character is both a digit and outside `[a-zA-Z0-9]`,
      so the two classes together count at most `|s|` characters. */
  lemma {:induction false} DigitsAndSpecialsDisjoint(s: string)
    requires IsAscii(s)
    ensures CountWhere(s, IsDigit) + CountWhere(s, IsSpecial) <= |s|
  {
    if s != [] {
      assert forall i :: 0 <= i < |s[1..]| ==> s[1..][i] == s[i + 1];
      DigitsAndSpecialsDisjoint(s[1..]);
    }
  }

  // ---------------------------------------------------------------------------
  // The `in` substring test
  // ---------------------------------------------------------------------------

  predicate IsPrefix(w: string, s: string) {
    |w| <= |s| && s[..|w|] == w
  }

  /** Python's `w in s` on strings, scanning start positions left to right. */
  predicate Contains(s: string, w: string)
    decreases |s|
  {
    IsPrefix(w, s) || (s != [] && Contains(s[1..], w))
  }

  /** `w in s` holds exactly when `w` occurs at some position of `s`. */
  lemma {:induction false} ContainsIffOccurs(s: string, w: string)
    ensures Contains(s, w) <==> exists i :: 0 <= i <= |s| && IsPrefix(w, s[i..])
  {
    if Contains(s, w) {
      if IsPrefix(w, s) {
        assert s[0..] == s;
        assert IsPrefix(w, s[0..]);
      } else {
        ContainsIffOccurs(s[1..], w);
        var i :| 0 <= i <= |s[1..]| && IsPrefix(w, s[1..][i..]);
        assert s[1..][i..] == s[i + 1..];
        assert IsPrefix(w, s[i + 1..]);
      }
    }
    if exists i :: 0 <= i <= |s| && IsPrefix(w, s[i..]) {
      var i :| 0 <= i <= |s| && IsPrefix(w, s[i..]);
      if i == 0 {
        assert s[0..] == s;
      } else {
        assert s[1..][i - 1..] == s[i..];
        ContainsIffOccurs(s[1..], w);
      }
    }
  }

  /** A non-empty word can occur in `s` only if its first character does. */
  lemma {:induction false} ContainsFirstChar(s: string, w: string)
    requires w != []
    ensures Contains(s, w) ==> w[0] in s
  {
    if s != [] && !IsPrefix(w, s) {
      ContainsFirstChar(s[1..], w);
      assert Contains(s[1..], w) ==> w[0] in s[1..];
    }
  }

  // ---------------------------------------------------------------------------
  // str.strip
  // ---------------------------------------------------------------------------

  predicate AllSpace(s: string) {
    forall k :: 0 <= k < |s| ==> IsSpace(s[k])
  }

  /** The length of the leading run of whitespace. */
  function LeadingSpaces(s: string): (n: nat)
    ensures n <= |s|
    ensures forall k :: 0 <= k < n ==> IsSpace(s[k])
    ensures n < |s| ==> !IsSpace(s[n])
  {
    if s != [] && IsSpace(s[0]) then 1 + LeadingSpaces(s[1..]) else 0
  }

  /** The length of the trailing run of whitespace. */
  function TrailingSpaces(s: string): (n: nat)
    ensures n <= |s|
    ensures forall k :: |s| - n <= k < |s| ==> IsSpace(s[k])
    ensures n < |s| ==> !IsSpace(s[|s| - 1 - n])
  {
    if s != [] && IsSpace(s[|s| - 1]) then 1 + TrailingSpaces(s[..|s| - 1]) else 0
  }

  /** The middle `s[i..|s| - j]` between a leading whitespace run of length
      `i` and a trailing one of length `j`, each as long as it can be, is
      empty exactly when `s` is all whitespace, and otherwise begins and ends
      with a non-space. */
  lemma StripMiddle(s: string, i: nat, j: nat)
    requires i + j <= |s|
    requires forall k :: 0 <= k < i ==> IsSpace(s[k])
    requires forall k :: |s[i..]| - j <= k < |s[i..]| ==> IsSpace(s[i..][k])
    requires i < |s| ==> !IsSpace(s[i])
    requires j < |s[i..]| ==> !IsSpace(s[i..][|s[i..]| - 1 - j])
    ensures var r := s[i..|s| - j];
      && (r == [] <==> AllSpace(s))
      && (r != [] ==> !IsSpace(r[0]) && !IsSpace(r[|r| - 1]))
      && AllSpace(s[..i]) && s[i..i + |r|] == r && AllSpace(s[i + |r|..])
  {
    var t := s[i..];
    var r := s[i..|s| - j];
    var tail := s[i + |r|..];
    forall k | 0 <= k < |tail| ensures IsSpace(tail[k]) {
      assert tail[k] == t[|t| - j + k];
    }
    if i + j < |s| {
      assert r[|r| - 1] == t[|t| - 1 - j];
    }
  }

  /** `s.strip()`: `s` with its leading and trailing whitespace removed. The
      result is empty exactly when `s` is all whitespace; otherwise it begins
      and ends with a non-space, and it is the middle of `s` between two
      all-whitespace margins. */
  function Strip(s: string): (r: string)
    ensures r == [] <==> AllSpace(s)
    ensures r != [] ==> !IsSpace(r[0]) && !IsSpace(r[|r| - 1])
    ensures exists i :: 0 <= i <= |s| - |r| && AllSpace(s[..i]) && s[i..i + |r|] == r && AllSpace(s[i + |r|..])
  {
    var i := LeadingSpaces(s);
    var j := TrailingSpaces(s[i..]);
    StripMiddle(s, i, j);
    s[i..|s| - j]
  }

  // ---------------------------------------------------------------------------
  // str.removeprefix and str.title
  // ---------------------------------------------------------------------------

  /** `s.removeprefix(p)`: drop one copy of `p` from the front of `s` when `s`
      starts with it, and leave `s` alone otherwise. */
  function RemovePrefix(s: string, p: string): (r: string)
    ensures IsPrefix(p, s) ==> p + r == s
    ensures !IsPrefix(p, s) ==> r == s
  {
    if IsPrefix(p, s) then s[|p|..] else s
  }

  /** How `str.title` rewrites one character given whether the character
      before it is a cased letter. */
  function TitleChar(c: char, afterLetter: bool): char {
    if !IsLetter(c) then c else if afterLetter then LowerChar(c) else UpperChar(c)
  }

  function TitleAfter(s: string, afterLetter: bool): (r: string)
    ensures |r| == |s|
    ensures forall i :: 0 <= i < |s| ==> r[i] == TitleChar(s[i], if i == 0 then afterLetter else IsLetter(s[i - 1]))
  {
    if s == [] then [] else [TitleChar(s[0], afterLetter)] + TitleAfter(s[1..], IsLetter(s[0]))
  }

  /** `s.title()`: a letter that follows a letter is lower-cased, a letter
      that does not is upper-cased, and everything else is kept. */
  function Title(s: string): (r: string)
    ensures |r| == |s|
    ensures forall i :: 0 <= i < |s| ==> r[i] == TitleChar(s[i], i > 0 && IsLetter(s[i - 1]))
  {
    TitleAfter(s, false)
  }

  /** Rewriting a character keeps it a letter or a non-letter, and rewriting
      the result again in the same position changes nothing. */
  lemma TitleCharStable(c: char, afterLetter: bool)
    ensures IsLetter(TitleChar(c, afterLetter)) == IsLetter(c)
    ensures TitleChar(TitleChar(c, afterLetter), afterLetter) == TitleChar(c, afterLetter)
  {
  }

  /** Title-casing a title-cased string changes nothing. */
  lemma TitleIdempotent(s: string)
    ensures Title(Title(s)) == Title(s)
  {
    var t := Title(s);
    forall i | 0 <= i < |s|
      ensures IsLetter(t[i]) == IsLetter(s[i])
    {
      TitleCharStable(s[i], i > 0 && IsLetter(s[i - 1]));
    }
    forall i | 0 <= i < |s|
      ensures Title(t)[i] == t[i]
    {
      TitleCharStable(s[i], i > 0 && IsLetter(s[i - 1]));
    }
  }
}
