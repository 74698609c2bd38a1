/**
 * The pattern behind feature 12: `re.match(r'(?:\d{1,3}\.){3}\d{1,3}', netloc)`.
 * `re.match` anchors the pattern at the start of the string only, so the
 * feature asks whether the network location BEGINS with four dot-separated
 * groups of one to three digits.
 */
module DottedQuad {
  import opened Text

  /** Every character of `s[lo..hi]` is a digit. */
  predicate DigitsBetween(s: string, lo: nat, hi: nat) {
    lo <= hi <= |s| && forall p :: lo <= p < hi ==> IsDigit(s[p])
  }

  /** `\d{1,3}\.` matched with exactly `len` digits starting at `pos`. */
  predicate GroupAt(s: string, pos: nat, len: nat) {
    1 <= len <= 3 && pos + len < |s| && DigitsBetween(s, pos, pos + len) && s[pos + len] == '.'
  }

  /** `(?:\d{1,3}\.){groups}\d{1,3}` matched from position `pos`, the way the
      backtracking engine tries it: the greedy three digits first, then two,
      then one. The final `\d{1,3}` succeeds as soon as one digit is there. */
  function MatchFrom(s: string, pos: nat, groups: nat): bool
    decreases groups
  {
    if groups == 0 then pos < |s| && IsDigit(s[pos])
    else
      || (GroupAt(s, pos, 3) && MatchFrom(s, pos + 4, groups - 1))
      || (GroupAt(s, pos, 2) && MatchFrom(s, pos + 3, groups - 1))
      || (GroupAt(s, pos, 1) && MatchFrom(s, pos + 2, groups - 1))
  }

  /** The match feature 12 is built from (feature_extraction.py:38). */
  predicate MatchesDottedQuad(netloc: string) {
    MatchFrom(netloc, 0, 3)
  }

  /** Reference: `s` begins with `d1.d2.d3.d4`, each `d` one to three digits,
      the three dots standing at positions `i`, `j` and `k` and the last group
      having `m` digits. */
  predicate QuadAt(s: string, i: nat, j: nat, k: nat, m: nat) {
    1 <= i <= 3 && i + 2 <= j <= i + 4 && j + 2 <= k <= j + 4 && 1 <= m <= 3 && k + 1 + m <= |s|
    && s[i] == '.' && s[j] == '.' && s[k] == '.'
    && DigitsBetween(s, 0, i) && DigitsBetween(s, i + 1, j)
    && DigitsBetween(s, j + 1, k) && DigitsBetween(s, k + 1, k + 1 + m)
  }

  ghost predicate StartsWithDottedQuad(s: string) {
    exists i, j, k, m :: QuadAt(s, i, j, k, m)
  }

  /** One step of the engine: a successful match consumed some group of one
      to three digits and a dot. */
  lemma MatchStep(s: string, pos: nat, groups: nat) returns (len: nat)
    requires groups > 0 && MatchFrom(s, pos, groups)
    ensures GroupAt(s, pos, len) && MatchFrom(s, pos + len + 1, groups - 1)
  {
    if GroupAt(s, pos, 3) && MatchFrom(s, pos + 4, groups - 1) {
      len := 3;
    } else if GroupAt(s, pos, 2) && MatchFrom(s, pos + 3, groups - 1) {
      len := 2;
    } else {
      len := 1;
    }
  }

  /** The converse step: backtracking finds any group length that works. */
  lemma MatchStepBack(s: string, pos: nat, groups: nat, len: nat)
    requires groups > 0 && GroupAt(s, pos, len) && MatchFrom(s, pos + len + 1, groups - 1)
    ensures MatchFrom(s, pos, groups)
  {
  }

  /** The engine's answer is the reference answer: feature 12 is 1 exactly
      when the network location begins with four dot-separated groups of one
      to three digits. */
  lemma MatchIffDottedQuad(s: string)
    ensures MatchesDottedQuad(s) <==> StartsWithDottedQuad(s)
  {
    if MatchesDottedQuad(s) {
      var a := MatchStep(s, 0, 3);
      var b := MatchStep(s, a + 1, 2);
      var c := MatchStep(s, a + b + 2, 1);
      assert QuadAt(s, a, a + b + 1, a + b + c + 2, 1);
    }
    if StartsWithDottedQuad(s) {
      var i: nat, j: nat, k: nat, m: nat :| QuadAt(s, i, j, k, m);
      MatchStepBack(s, j + 1, 1, k - j - 1);
      MatchStepBack(s, i + 1, 2, j - i - 1);
      MatchStepBack(s, 0, 3, i);
    }
  }

  /** The match is anchored at the start only: whatever follows a matching
      prefix (a port, more labels, a path) does not change the answer. */
  lemma {:induction false} MatchIgnoresSuffix(s: string, t: string, pos: nat, groups: nat)
    requires MatchFrom(s, pos, groups)
    ensures MatchFrom(s + t, pos, groups)
    decreases groups
  {
    if groups > 0 {
      var len := MatchStep(s, pos, groups);
      MatchIgnoresSuffix(s, t, pos + len + 1, groups - 1);
      assert GroupAt(s + t, pos, len);
      MatchStepBack(s + t, pos, groups, len);
    }
  }

  /** A private address and a host with an address-shaped prefix match. */
  lemma DottedQuadMatches()
    ensures MatchesDottedQuad("192.168.1.1")
    ensures MatchesDottedQuad("10.0.0.1.evil.com")
  {
  }

  /** A four-digit first group, a name and a leading letter do not match. */
  lemma DottedQuadMisses()
    ensures !MatchesDottedQuad("1234.5.6.7")
    ensures !MatchesDottedQuad("google.com")
    ensures !MatchesDottedQuad("a1.2.3.4")
  {
    var s := "a1.2.3.4";
    assert !IsDigit(s[0]);
    assert !GroupAt(s, 0, 1) && !GroupAt(s, 0, 2) && !GroupAt(s, 0, 3);
  }
}
