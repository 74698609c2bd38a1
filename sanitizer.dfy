/**
 * The defang sanitiser `sanitize_url`: three chained `str.replace` calls that
 * turn `[.]` back into `.` and percent-encode every remaining square bracket.
 */
module Sanitizer {
  import opened Text

  /** `s.replace(pat, rep)` for a non-empty pattern: occurrences are found left
      to right and do not overlap. A string without the pattern comes back
      unchanged, every character of the result comes from `s` or from `rep`,
      and a one-character pattern that `rep` does not contain is gone. */
  function ReplaceAll(s: string, pat: string, rep: string): (r: string)
    requires pat != []
    ensures !Contains(s, pat) ==> r == s
    ensures forall c :: c in r ==> c in s || c in rep
    ensures |pat| == 1 && pat[0] !in rep ==> pat[0] !in r
    decreases |s|
  {
    if s == [] then []
    else if IsPrefix(pat, s) then rep + ReplaceAll(s[|pat|..], pat, rep)
    else [s[0]] + ReplaceAll(s[1..], pat, rep)
  }

  /** Replacing a single character distributes over concatenation. */
  lemma {:induction false} ReplaceCharConcat(a: string, b: string, c: char, rep: string)
    ensures ReplaceAll(a + b, [c], rep) == ReplaceAll(a, [c], rep) + ReplaceAll(b, [c], rep)
  {
    if a != [] {
      assert (a + b)[1..] == a[1..] + b;
      assert IsPrefix([c], a + b) == IsPrefix([c], a);
      ReplaceCharConcat(a[1..], b, c, rep);
    } else {
      assert a + b == b;
    }
  }

  /** The second and third replacements: `[` becomes `%5B`, then `]`
      becomes `%5D`. */
  function EncodeBrackets(s: string): (r: string)
    ensures '[' !in r && ']' !in r
    ensures '[' !in s && ']' !in s ==> r == s
  {
    ContainsFirstChar(s, "[");
    var t := ReplaceAll(s, "[", "%5B");
    ContainsFirstChar(t, "]");
    ReplaceAll(t, "]", "%5D")
  }

  /** How the bracket passes rewrite one character. */
  function EncodeChar(c: char): string {
    if c == '[' then "%5B" else if c == ']' then "%5D" else [c]
  }

  /** The bracket passes work character by character. */
  lemma EncodeBracketsCons(c: char, rest: string)
    ensures EncodeBrackets([c] + rest) == EncodeChar(c) + EncodeBrackets(rest)
  {
    ReplaceCharConcat([c], rest, '[', "%5B");
    var first := ReplaceAll([c], "[", "%5B");
    var mid := ReplaceAll(rest, "[", "%5B");
    assert first == if c == '[' then "%5B" else [c];
    ReplaceCharConcat(first, mid, ']', "%5D");
    assert ReplaceAll(first, "]", "%5D") == EncodeChar(c) by {
      if c == '[' {
        assert first == "%5B";
        assert !Contains(first, "]");
      }
    }
  }

  /** `sanitize_url` (streamlit_app.py:8-9): no square bracket survives, and
      a string without square brackets comes back unchanged. */
  function Sanitize(raw: string): (r: string)
    ensures '[' !in r && ']' !in r
    ensures '[' !in raw && ']' !in raw ==> r == raw
  {
    ContainsFirstChar(raw, "[.]");
    EncodeBrackets(ReplaceAll(raw, "[.]", "."))
  }

  /** Sanitising twice is sanitising once. */
  lemma SanitizeIdempotent(raw: string)
    ensures Sanitize(Sanitize(raw)) == Sanitize(raw)
  {
  }

  /** A single left-to-right scan that does what the three passes do: at each
      position `[.]` takes precedence, and only a bracket that does not start
      a `[.]` is percent-encoded. */
  function Defang(s: string): (r: string)
    decreases |s|
  {
    if s == [] then []
    else if IsPrefix("[.]", s) then "." + Defang(s[3..])
    else EncodeChar(s[0]) + Defang(s[1..])
  }

  /** The chain of replacements is the one-pass scan: because `[.]` is
      replaced first, a defanged dot becomes `.` and never `%5B.%5D`. */
  lemma {:induction false} SanitizeIsDefang(s: string)
    ensures Sanitize(s) == Defang(s)
  {
    if s == [] {
    } else if IsPrefix("[.]", s) {
      var rest := ReplaceAll(s[3..], "[.]", ".");
      assert ReplaceAll(s, "[.]", ".") == ['.'] + rest;
      EncodeBracketsCons('.', rest);
      SanitizeIsDefang(s[3..]);
    } else {
      var rest := ReplaceAll(s[1..], "[.]", ".");
      assert ReplaceAll(s, "[.]", ".") == [s[0]] + rest;
      EncodeBracketsCons(s[0], rest);
      SanitizeIsDefang(s[1..]);
    }
  }

  /** The one-pass scan passes bracket-free text through unchanged. */
  lemma {:induction false} DefangBracketFree(a: string, b: string)
    requires '[' !in a && ']' !in a
    ensures Defang(a + b) == a + Defang(b)
  {
    if a != [] {
      assert (a + b)[1..] == a[1..] + b;
      assert (a + b)[0] == a[0];
      DefangBracketFree(a[1..], b);
    } else {
      assert a + b == b;
    }
  }

  lemma DefangDotHead(rest: string)
    ensures Defang("[.]" + rest) == "." + Defang(rest)
  {
    var s := "[.]" + rest;
    assert IsPrefix("[.]", s);
    assert s[3..] == rest;
  }

  /** A bracketed segment that is not itself a defanged dot is encoded. */
  lemma DefangSegment(seg: string)
    requires '[' !in seg && ']' !in seg && seg != "."
    ensures Defang("[" + seg + "]") == "%5B" + seg + "%5D"
  {
    var bracketed := "[" + seg + "]";
    assert !IsPrefix("[.]", bracketed) by {
      if |seg| >= 2 { assert bracketed[2] == seg[1]; }
      else if |seg| == 1 { assert bracketed[1] == seg[0]; }
    }
    assert bracketed[1..] == seg + "]";
    DefangBracketFree(seg, "]");
    assert Defang("]") == "%5D";
  }

  /** A defanged dot is restored and a bracketed segment is percent-encoded:
      `host[.]rest[seg]` becomes `host.rest%5Bseg%5D`. */
  lemma SanitizeDefangedDotAndSegment(host: string, rest: string, seg: string)
    requires '[' !in host && ']' !in host
    requires '[' !in rest && ']' !in rest
    requires '[' !in seg && ']' !in seg && seg != "."
    ensures Sanitize(host + ("[.]" + (rest + ("[" + seg + "]")))) == host + ("." + (rest + ("%5B" + seg + "%5D")))
  {
    var bracketed := "[" + seg + "]";
    SanitizeIsDefang(host + ("[.]" + (rest + bracketed)));
    DefangBracketFree(host, "[.]" + (rest + bracketed));
    DefangDotHead(rest + bracketed);
    DefangBracketFree(rest, bracketed);
    DefangSegment(seg);
  }

  /** A defanged URL:
      `http://example[.]com/[x]` becomes `http://example.com/%5Bx%5D`. The
      input is given as its pieces `http://example`, `[.]`, `com/`, `[`, `x`
      and `]`, so that the solver does not unfold `Sanitize` character by
      character on a literal. */
  lemma SanitizeExample(host: string, rest: string, seg: string)
    requires host == "http://example" && rest == "com/" && seg == "x"
    ensures Sanitize(host + ("[.]" + (rest + ("[" + seg + "]")))) == "http://example.com/%5Bx%5D"
  {
    SanitizeDefangedDotAndSegment(host, rest, seg);
    assert host + ("." + (rest + ("%5B" + seg + "%5D"))) == "http://example.com/%5Bx%5D";
  }

  /** A lone defanged dot is restored. */
  lemma SanitizeRestoresDot(dot: string)
    requires dot == "[.]"
    ensures Sanitize(dot) == "."
  {
    SanitizeIsDefang(dot);
    DefangDotHead("");
    assert dot == "[.]" + "";
  }

  /** Encoding the brackets first leaves no `[.]` for the dot pass to find. */
  lemma EncodeFirstKeepsBrackets(dot: string)
    requires dot == "[.]"
    ensures ReplaceAll(EncodeBrackets(dot), "[.]", ".") == "%5B.%5D"
  {
    assert dot == ['['] + (['.'] + ([']'] + []));
    EncodeBracketsCons('[', ['.'] + ([']'] + []));
    EncodeBracketsCons('.', [']'] + []);
    EncodeBracketsCons(']', []);
    var encoded := EncodeBrackets(dot);
    assert encoded == "%5B.%5D";
    ContainsFirstChar(encoded, "[.]");
  }

  /** Running the replacements in the opposite order would encode the
      brackets of a defanged dot instead of restoring it. */
  lemma ReplacementOrderMatters(dot: string)
    requires dot == "[.]"
    ensures Sanitize(dot) == "."
    ensures ReplaceAll(EncodeBrackets(dot), "[.]", ".") == "%5B.%5D"
  {
    SanitizeRestoresDot(dot);
    EncodeFirstKeepsBrackets(dot);
  }
}
