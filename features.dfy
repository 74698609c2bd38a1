/**
 * `extract_features` (feature_extraction.py): the 23-entry feature vector of a
 * URL and the fixed set of trusted registered domains.
 *
 * `urlparse` and `tldextract.extract` are library code; they are parameters
 * here that either fail (`None`, the exception the source catches) or supply
 * the parts the features read. `math.log2` is a parameter too.
 */
module FeatureExtraction {
  import opened Wrappers
  import opened Text
  import opened DottedQuad

  /** `TRUSTED_DOMAINS` (feature_extraction.py:6-11). */
  const TrustedDomains: set<string> := {
    "google.com", "youtube.com", "facebook.com", "instagram.com",
    "reddit.com", "wikipedia.org", "twitter.com", "amazon.com",
    "linkedin.com", "netflix.com", "microsoft.com", "github.com",
    "paypal.com", "apple.com", "bing.com", "chatgpt.com"
  }

  /** What `urlparse` supplies: scheme, network location and path. */
  datatype UrlParts = UrlParts(scheme: string, netloc: string, path: string)

  /** What `tldextract.extract` supplies: the subdomain, the registrable label
      and the registered domain (`top_domain_under_public_suffix`). */
  datatype DomainParts = DomainParts(subdomain: string, domain: string, registered: string)

  const FeatureCount: nat := 23

  const SuspiciousWords: seq<string> := ["login", "bank", "verify", "secure", "account", "update"]
  const FreeHostWords: seq<string> := ["000webhost", "freenom", "infinityfree"]
  const ShortenerWords: seq<string> := ["bit.ly", "tinyurl.com", "goo.gl", "ow.ly", "is.gd"]
  const BrandWords: seq<string> := ["paypal", "citi", "facebook", "google", "amazon"]

  /** The indices whose entries are `int(bool)` indicators. */
  const FlagIndices: set<int> := {9, 10, 11, 12, 16, 19, 20, 21, 22}

  /** `int(b)` for a boolean. */
  function Flag(b: bool): real {
    if b then 1.0 else 0.0
  }

  /** `n / len if len else 0` for a count of some of the `len` characters. */
  function Ratio(n: nat, len: nat): (r: real)
    requires n <= len
    ensures 0.0 <= r <= 1.0
    ensures r > 0.0 <==> n > 0
  {
    if len == 0 then 0.0 else ShareBounds(n, len); n as real / len as real
  }

  /** A share of a positive whole lies in [0, 1] and is positive exactly
      when the part is. */
  lemma ShareBounds(k: nat, n: nat)
    requires k <= n && n > 0
    ensures 0.0 <= k as real / n as real <= 1.0
    ensures k as real / n as real > 0.0 <==> k > 0
  {
  }

  /** Shares of the same whole add up as their parts do. */
  lemma SumOfShares(a: nat, b: nat, n: nat)
    requires n > 0
    ensures a as real / n as real + b as real / n as real == (a + b) as real / n as real
  {
  }

  /** `any(w in s for w in words)`. */
  predicate AnyPresent(s: string, words: seq<string>) {
    exists k :: 0 <= k < |words| && Contains(s, words[k])
  }

  /** `sum(w in s for w in words)`: how many of the words occur in `s`. At
      most one per word, and zero exactly when none occurs. */
  function CountPresent(s: string, words: seq<string>): (n: nat)
    ensures n <= |words|
    ensures n > 0 <==> AnyPresent(s, words)
  {
    if words == [] then 0
    else
      assert forall k :: 1 <= k < |words| ==> words[1..][k - 1] == words[k];
      (if Contains(s, words[0]) then 1 else 0) + CountPresent(s, words[1..])
  }

  /** One word counts 1 when it occurs in `s` and 0 otherwise. */
  lemma CountPresentSingle(s: string, w: string)
    ensures CountPresent(s, [w]) == if Contains(s, w) then 1 else 0
  {
  }

  /** The keyword count is additive over the word list, so together with
      `CountPresentSingle` it is exactly the number of words present. */
  lemma {:induction false} CountPresentConcat(s: string, u: seq<string>, w: seq<string>)
    ensures CountPresent(s, u + w) == CountPresent(s, u) + CountPresent(s, w)
  {
    if u == [] {
      assert u + w == w;
    } else {
      assert (u + w)[0] == u[0];
      assert (u + w)[1..] == u[1..] + w;
      CountPresentConcat(s, u[1..], w);
    }
  }

  /** `r.lower() in TRUSTED_DOMAINS` (feature_extraction.py:19, 48). */
  predicate IsTrusted(registered: string) {
    Lower(registered) in TrustedDomains
  }

  // ---------------------------------------------------------------------------
  // Entropy
  // ---------------------------------------------------------------------------

  /** `set(s)` listed in order of first occurrence: every character of `s`
      exactly once. */
  function Distinct(s: string): (d: string)
    ensures forall c :: c in d <==> c in s
    ensures forall i, j :: 0 <= i < j < |d| ==> d[i] != d[j]
  {
    if s == [] then []
    else
      var front := s[..|s| - 1];
      assert s == front + [s[|s| - 1]];
      var d := Distinct(front);
      if s[|s| - 1] in d then d else d + [s[|s| - 1]]
  }

  /** `s.count(c) / len(s)`: the share of the characters of `s` that are
      `c`, positive exactly when `c` occurs. */
  function Frequency(s: string, c: char): (p: real)
    requires |s| > 0
    ensures 0.0 <= p <= 1.0
    ensures p > 0.0 <==> c in s
  {
    Ratio(Count(s, c), |s|)
  }

  /** One term `p * log2(p)` of the entropy sum. */
  function WeightedLog(p: real, log2: real -> real): real {
    p * log2(p)
  }

  /** `sum(p * log2(p) for c in cs)` with `p` the frequency of `c` in `s`. */
  function EntropySum(cs: string, s: string, log2: real -> real): real
    requires |s| > 0
  {
    if cs == [] then 0.0
    else WeightedLog(Frequency(s, cs[0]), log2) + EntropySum(cs[1..], s, log2)
  }

  /** The Shannon entropy of the character distribution of `s`
      (feature_extraction.py:23), and 0 for the empty string. */
  function Entropy(s: string, log2: real -> real): real {
    if |s| == 0 then 0.0 else -EntropySum(Distinct(s), s, log2)
  }

  /** The hypothesis that makes entropy non-negative: `log2` is at most 0 on
      the probabilities `(0, 1]`. */
  ghost predicate NonPositiveOnProbabilities(log2: real -> real) {
    forall p :: 0.0 < p <= 1.0 ==> log2(p) <= 0.0
  }

  lemma {:induction false} EntropySumNonPositive(cs: string, s: string, log2: real -> real)
    requires |s| > 0 && NonPositiveOnProbabilities(log2)
    requires forall c :: c in cs ==> c in s
    ensures EntropySum(cs, s, log2) <= 0.0
  {
    if cs != [] {
      var p := Frequency(s, cs[0]);
      assert 0.0 < p <= 1.0;
      assert log2(p) <= 0.0;
      assert WeightedLog(p, log2) <= 0.0;
      EntropySumNonPositive(cs[1..], s, log2);
    }
  }

  /** Entropy is never negative when `log2` behaves like a logarithm on
      probabilities. */
  lemma EntropyNonNegative(s: string, log2: real -> real)
    requires NonPositiveOnProbabilities(log2)
    ensures Entropy(s, log2) >= 0.0
  {
    if |s| > 0 {
      EntropySumNonPositive(Distinct(s), s, log2);
    }
  }

  lemma {:induction false} CountOfRepeated(s: string, c: char)
    requires forall i :: 0 <= i < |s| ==> s[i] == c
    ensures Count(s, c) == |s|
  {
    if s != [] {
      CountOfRepeated(s[1..], c);
    }
  }

  /** The distinct characters of a string of one repeated character. */
  lemma {:induction false} DistinctOfRepeated(s: string)
    requires |s| > 0 && forall i :: 0 <= i < |s| ==> s[i] == s[0]
    ensures Distinct(s) == [s[0]]
  {
    var front := s[..|s| - 1];
    if |front| > 0 {
      assert front[0] == s[0];
      DistinctOfRepeated(front);
    }
  }

  /** The sum over a single character is its one term. */
  lemma EntropySumSingle(c: char, s: string, log2: real -> real)
    requires |s| > 0
    ensures EntropySum([c], s, log2) == WeightedLog(Frequency(s, c), log2)
  {
    assert [c][1..] == [];
  }

  lemma WholeShare(n: nat)
    requires n > 0
    ensures n as real / n as real == 1.0
  {
  }

  /** Every character of a string of one repeated character is that
      character, so its frequency is 1. */
  lemma FrequencyOfRepeated(s: string)
    requires |s| > 0 && forall i :: 0 <= i < |s| ==> s[i] == s[0]
    ensures Frequency(s, s[0]) == 1.0
  {
    CountOfRepeated(s, s[0]);
    WholeShare(|s|);
  }

  /** A string of one repeated character carries no information. */
  lemma EntropyOfRepeatedChar(s: string, log2: real -> real)
    requires |s| > 0 && forall i :: 0 <= i < |s| ==> s[i] == s[0]
    requires log2(1.0) == 0.0
    ensures Entropy(s, log2) == 0.0
  {
    DistinctOfRepeated(s);
    EntropySumSingle(s[0], s, log2);
    FrequencyOfRepeated(s);
    assert WeightedLog(1.0, log2) == 0.0;
  }

  // ---------------------------------------------------------------------------
  // The feature vector
  // ---------------------------------------------------------------------------

  /** The 23 features by name; `ToList` lays them out in the order of the list
      literal at feature_extraction.py:25-49. */
  datatype Features = Features(
    urlLength: nat,           //  0
    domainLength: nat,        //  1
    pathLength: nat,          //  2
    dots: nat,                //  3
    hyphens: nat,             //  4
    ats: nat,                 //  5
    questionMarks: nat,       //  6
    equalsSigns: nat,         //  7
    slashes: nat,             //  8
    hasLogin: bool,           //  9
    hasBank: bool,            // 10
    hasVerify: bool,          // 11
    startsWithAddress: bool,  // 12
    digitRatio: real,         // 13
    specialRatio: real,       // 14
    entropy: real,            // 15
    isHttps: bool,            // 16
    subdomainLength: nat,     // 17
    keywordCount: nat,        // 18
    freeHosting: bool,        // 19
    shortener: bool,          // 20
    brandInSubdomain: bool,   // 21
    trusted: bool             // 22
  ) {
    /** Entry `k` of the list literal at feature_extraction.py:25-49. */
    function Entry(k: nat): real
      requires k < FeatureCount
    {
      match k
      case 0 => urlLength as real
      case 1 => domainLength as real
      case 2 => pathLength as real
      case 3 => dots as real
      case 4 => hyphens as real
      case 5 => ats as real
      case 6 => questionMarks as real
      case 7 => equalsSigns as real
      case 8 => slashes as real
      case 9 => Flag(hasLogin)
      case 10 => Flag(hasBank)
      case 11 => Flag(hasVerify)
      case 12 => Flag(startsWithAddress)
      case 13 => digitRatio
      case 14 => specialRatio
      case 15 => entropy
      case 16 => Flag(isHttps)
      case 17 => subdomainLength as real
      case 18 => keywordCount as real
      case 19 => Flag(freeHosting)
      case 20 => Flag(shortener)
      case 21 => Flag(brandInSubdomain)
      case _ => Flag(trusted)
    }

    /** The list `extract_features` returns. */
    function ToList(): (v: seq<real>)
      ensures |v| == FeatureCount
      ensures forall k :: 0 <= k < FeatureCount ==> v[k] == Entry(k)
    {
      seq(FeatureCount, k requires 0 <= k < FeatureCount => Entry(k))
    }
  }

  /** Where each named feature sits in the list. */
  lemma Layout(f: Features)
    ensures var v := f.ToList();
      && v[0] == f.urlLength as real && v[1] == f.domainLength as real
      && v[2] == f.pathLength as real && v[3] == f.dots as real
      && v[4] == f.hyphens as real && v[5] == f.ats as real
      && v[6] == f.questionMarks as real && v[7] == f.equalsSigns as real
      && v[8] == f.slashes as real && v[9] == Flag(f.hasLogin)
      && v[10] == Flag(f.hasBank) && v[11] == Flag(f.hasVerify)
      && v[12] == Flag(f.startsWithAddress) && v[13] == f.digitRatio
      && v[14] == f.specialRatio && v[15] == f.entropy
      && v[16] == Flag(f.isHttps) && v[17] == f.subdomainLength as real
      && v[18] == f.keywordCount as real && v[19] == Flag(f.freeHosting)
      && v[20] == Flag(f.shortener) && v[21] == Flag(f.brandInSubdomain)
      && v[22] == Flag(f.trusted)
  {
  }

  /** The nine indicator entries are each 0 or 1. */
  lemma IndicatorsAreFlags(f: Features)
    ensures var v := f.ToList();
      forall k :: k in FlagIndices ==> v[k] == 0.0 || v[k] == 1.0
  {
    Layout(f);
  }

  /** The features of `url` given what the two parsers returned for it. */
  function FeaturesOf(url: string, p: UrlParts, ext: DomainParts, log2: real -> real): Features {
    var n := |url|;
    var lower := Lower(url);
    Features(
      urlLength := n,
      domainLength := |ext.domain|,
      pathLength := |p.path|,
      dots := Count(url, '.'),
      hyphens := Count(url, '-'),
      ats := Count(url, '@'),
      questionMarks := Count(url, '?'),
      equalsSigns := Count(url, '='),
      slashes := Count(url, '/'),
      hasLogin := Contains(lower, "login"),
      hasBank := Contains(lower, "bank"),
      hasVerify := Contains(lower, "verify"),
      startsWithAddress := MatchesDottedQuad(p.netloc),
      digitRatio := Ratio(CountWhere(url, IsDigit), n),
      specialRatio := Ratio(CountWhere(url, IsSpecial), n),
      entropy := Entropy(url, log2),
      isHttps := Lower(p.scheme) == "https",
      subdomainLength := |ext.subdomain|,
      keywordCount := CountPresent(lower, SuspiciousWords),
      freeHosting := AnyPresent(lower, FreeHostWords),
      shortener := AnyPresent(lower, ShortenerWords),
      brandInSubdomain := AnyPresent(Lower(ext.subdomain), BrandWords),
      trusted := IsTrusted(ext.registered)
    )
  }

  /** `extract_features` (feature_extraction.py:13-52): `None` exactly when
      one of the two parsers raised, otherwise a list of exactly 23 entries. */
  function ExtractFeatures(
    url: string,
    urlparse: string -> Option<UrlParts>,
    tldextract: string -> Option<DomainParts>,
    log2: real -> real
  ): (r: Option<seq<real>>)
    ensures r.Some? <==> urlparse(url).Some? && tldextract(url).Some?
    ensures r.Some? ==> |r.value| == FeatureCount
    ensures r.Some? ==> r.value == FeaturesOf(url, urlparse(url).value, tldextract(url).value, log2).ToList()
  {
    match urlparse(url)
    case None => None
    case Some(p) =>
      match tldextract(url)
      case None => None
      case Some(ext) => Some(FeaturesOf(url, p, ext, log2).ToList())
  }

  // ---------------------------------------------------------------------------
  // What each index means
  // ---------------------------------------------------------------------------

  /** Indices 3-8 are the multiplicities of `.`, `-`, `@`, `?`, `=` and `/`
      in the URL, and none exceeds index 0, the URL's length. */
  lemma CharacterCounts(url: string, p: UrlParts, ext: DomainParts, log2: real -> real)
    ensures var v := FeaturesOf(url, p, ext, log2).ToList();
      && v[0] == |url| as real
      && v[3] == multiset(url)['.'] as real && v[4] == multiset(url)['-'] as real
      && v[5] == multiset(url)['@'] as real && v[6] == multiset(url)['?'] as real
      && v[7] == multiset(url)['='] as real && v[8] == multiset(url)['/'] as real
      && v[3] <= v[0] && v[4] <= v[0] && v[5] <= v[0]
      && v[6] <= v[0] && v[7] <= v[0] && v[8] <= v[0]
  {
    Layout(FeaturesOf(url, p, ext, log2));
  }

  /** The first three words of a list each add their indicator to the count. */
  lemma CountPresentHead3(s: string, words: seq<string>)
    requires |words| >= 3
    ensures CountPresent(s, words)
      >= (if Contains(s, words[0]) then 1 else 0)
       + (if Contains(s, words[1]) then 1 else 0)
       + (if Contains(s, words[2]) then 1 else 0)
  {
    var rest1, rest2 := words[1..], words[1..][1..];
    assert rest1[0] == words[1] && rest2[0] == words[2];
    assert CountPresent(s, words) == (if Contains(s, words[0]) then 1 else 0) + CountPresent(s, rest1);
    assert CountPresent(s, rest1) == (if Contains(s, words[1]) then 1 else 0) + CountPresent(s, rest2);
    assert CountPresent(s, rest2) >= (if Contains(s, words[2]) then 1 else 0);
  }

  /** Index 18 counts the six suspicious keywords, so it lies in [0, 6]; as
      `login`, `bank` and `verify` are among them, it is at least the sum of
      indicators 9, 10 and 11. */
  lemma KeywordCountBounds(url: string, p: UrlParts, ext: DomainParts, log2: real -> real)
    ensures var v := FeaturesOf(url, p, ext, log2).ToList();
      && 0.0 <= v[18] <= 6.0
      && v[18] >= v[9] + v[10] + v[11]
  {
    Layout(FeaturesOf(url, p, ext, log2));
    CountPresentHead3(Lower(url), SuspiciousWords);
  }

  /** Two ratios over the same length whose counts fit in it sum to at most 1. */
  lemma RatioSum(a: nat, b: nat, n: nat)
    requires a + b <= n
    ensures Ratio(a, n) + Ratio(b, n) <= 1.0
  {
    if n > 0 {
      SumOfShares(a, b, n);
      ShareBounds(a + b, n);
    }
  }

  /** Indices 13 and 14 are ratios in [0, 1]; on an ASCII URL their sum is
      at most 1, because no ASCII character is both a digit and outside
      `[a-zA-Z0-9]`; for the empty URL they and the entropy at index 15 are
      0. */
  lemma RatioBounds(url: string, p: UrlParts, ext: DomainParts, log2: real -> real)
    ensures var v := FeaturesOf(url, p, ext, log2).ToList();
      && 0.0 <= v[13] <= 1.0 && 0.0 <= v[14] <= 1.0
      && (IsAscii(url) ==> v[13] + v[14] <= 1.0)
      && (url == [] ==> v[13] == 0.0 && v[14] == 0.0 && v[15] == 0.0)
  {
    Layout(FeaturesOf(url, p, ext, log2));
    if IsAscii(url) {
      DigitsAndSpecialsDisjoint(url);
      RatioSum(CountWhere(url, IsDigit), CountWhere(url, IsSpecial), |url|);
    }
  }

  /** Index 15 is never negative when `log2` is non-positive on (0, 1]. */
  lemma EntropyFeatureNonNegative(url: string, p: UrlParts, ext: DomainParts, log2: real -> real)
    requires NonPositiveOnProbabilities(log2)
    ensures FeaturesOf(url, p, ext, log2).ToList()[15] >= 0.0
  {
    Layout(FeaturesOf(url, p, ext, log2));
    EntropyNonNegative(url, log2);
  }

  /** Index 12 is 1 exactly when the network location begins with four
      dot-separated groups of one to three digits. */
  lemma AddressFlag(url: string, p: UrlParts, ext: DomainParts, log2: real -> real)
    ensures FeaturesOf(url, p, ext, log2).ToList()[12] == 1.0 <==> StartsWithDottedQuad(p.netloc)
  {
    Layout(FeaturesOf(url, p, ext, log2));
    MatchIffDottedQuad(p.netloc);
  }

  /** Entries 1, 2 and 17 are the lengths of the registrable label, the
      path and the subdomain (feature_extraction.py:27, 28, 43). */
  lemma PartLengths(url: string, p: UrlParts, ext: DomainParts, log2: real -> real)
    ensures FeaturesOf(url, p, ext, log2).ToList()[1] == |ext.domain| as real
    ensures FeaturesOf(url, p, ext, log2).ToList()[2] == |p.path| as real
    ensures FeaturesOf(url, p, ext, log2).ToList()[17] == |ext.subdomain| as real
  {
    Layout(FeaturesOf(url, p, ext, log2));
  }

  /** Entries 13 and 14 of a non-empty URL are the shares of digits and of
      characters outside `[a-zA-Z0-9]` (feature_extraction.py:39-40). */
  lemma RatioValues(url: string, p: UrlParts, ext: DomainParts, log2: real -> real)
    requires |url| > 0
    ensures FeaturesOf(url, p, ext, log2).ToList()[13] == CountWhere(url, IsDigit) as real / |url| as real
    ensures FeaturesOf(url, p, ext, log2).ToList()[14] == CountWhere(url, IsSpecial) as real / |url| as real
  {
    Layout(FeaturesOf(url, p, ext, log2));
  }

  /** Entries 9-11 are 1 exactly when `login`, `bank` and `verify` occur in
      the lower-cased URL (feature_extraction.py:35-37). */
  lemma KeywordFlags(url: string, p: UrlParts, ext: DomainParts, log2: real -> real)
    ensures FeaturesOf(url, p, ext, log2).ToList()[9] == 1.0 <==> Contains(Lower(url), "login")
    ensures FeaturesOf(url, p, ext, log2).ToList()[10] == 1.0 <==> Contains(Lower(url), "bank")
    ensures FeaturesOf(url, p, ext, log2).ToList()[11] == 1.0 <==> Contains(Lower(url), "verify")
  {
    Layout(FeaturesOf(url, p, ext, log2));
  }

  /** Entry 16 is 1 exactly when the lower-cased scheme is `https`
      (feature_extraction.py:42). */
  lemma HttpsFlag(url: string, p: UrlParts, ext: DomainParts, log2: real -> real)
    ensures FeaturesOf(url, p, ext, log2).ToList()[16] == 1.0 <==> Lower(p.scheme) == "https"
  {
    Layout(FeaturesOf(url, p, ext, log2));
  }

  /** Entries 19 and 20 are 1 exactly when a free-hosting name, respectively a
      shortener domain, occurs in the lower-cased URL (feature_extraction.py:45-46). */
  lemma HostingFlags(url: string, p: UrlParts, ext: DomainParts, log2: real -> real)
    ensures FeaturesOf(url, p, ext, log2).ToList()[19] == 1.0
      <==> exists k :: 0 <= k < |FreeHostWords| && Contains(Lower(url), FreeHostWords[k])
    ensures FeaturesOf(url, p, ext, log2).ToList()[20] == 1.0
      <==> exists k :: 0 <= k < |ShortenerWords| && Contains(Lower(url), ShortenerWords[k])
  {
    Layout(FeaturesOf(url, p, ext, log2));
  }

  /** Index 21 is 1 exactly when a brand name occurs in the lower-cased
      subdomain. */
  lemma BrandFlag(url: string, p: UrlParts, ext: DomainParts, log2: real -> real)
    ensures FeaturesOf(url, p, ext, log2).ToList()[21] == 1.0
      <==> exists k :: 0 <= k < |BrandWords| && Contains(Lower(ext.subdomain), BrandWords[k])
  {
    Layout(FeaturesOf(url, p, ext, log2));
  }

  /** Index 21 reads nothing but the lower-cased subdomain: a brand name in
      the path, the query or the registrable domain does not set it. */
  lemma BrandFlagReadsOnlySubdomain(
    url1: string, p1: UrlParts, ext1: DomainParts,
    url2: string, p2: UrlParts, ext2: DomainParts,
    log2: real -> real
  )
    requires Lower(ext1.subdomain) == Lower(ext2.subdomain)
    ensures FeaturesOf(url1, p1, ext1, log2).ToList()[21] == FeaturesOf(url2, p2, ext2, log2).ToList()[21]
  {
    Layout(FeaturesOf(url1, p1, ext1, log2));
    Layout(FeaturesOf(url2, p2, ext2, log2));
  }

  /** Index 22 is 1 exactly when the lower-cased registered domain is itself
      one of the trusted domains. */
  lemma TrustFlag(url: string, p: UrlParts, ext: DomainParts, log2: real -> real)
    ensures FeaturesOf(url, p, ext, log2).ToList()[22] == 1.0 <==> Lower(ext.registered) in TrustedDomains
  {
    Layout(FeaturesOf(url, p, ext, log2));
  }

  /** A string without upper-case letters is its own lower-case form. */
  lemma LowerOfLowerCase(s: string)
    requires forall i :: 0 <= i < |s| ==> !IsUpper(s[i])
    ensures Lower(s) == s
  {
  }

  /** A listed domain is trusted. */
  lemma TrustedExample(plain: string)
    requires plain == "google.com"
    ensures IsTrusted(plain)
  {
    LowerOfLowerCase(plain);
    assert plain in TrustedDomains;
  }

  /** Membership ignores case: `GitHub.com` is trusted. */
  lemma TrustedIgnoresCase(mixed: string)
    requires mixed == "GitHub.com"
    ensures IsTrusted(mixed)
  {
    var lowered := Lower(mixed);
    assert lowered == "github.com";
    assert lowered in TrustedDomains;
  }

  /** Membership is exact: a look-alike name is not trusted. */
  lemma LookalikeUntrusted(lookalike: string)
    requires lookalike == "evil-google.com"
    ensures !IsTrusted(lookalike)
  {
    LowerOfLowerCase(lookalike);
  }

  /** A trusted name used as a subdomain of another domain is not trusted. */
  lemma NestedUntrusted(nested: string)
    requires nested == "google.com.evil.net"
    ensures !IsTrusted(nested)
  {
    LowerOfLowerCase(nested);
  }

  /** A lower-case word found in a string is found in its lower-case form. */
  lemma ContainsLower(s: string, w: string)
    requires Contains(s, w) && forall i :: 0 <= i < |w| ==> !IsUpper(w[i])
    ensures Contains(Lower(s), w)
  {
    ContainsIffOccurs(s, w);
    var i :| 0 <= i <= |s| && IsPrefix(w, s[i..]);
    var l := Lower(s);
    assert l[i..][..|w|] == w by {
      forall k | 0 <= k < |w| ensures l[i..][..|w|][k] == w[k] {
        assert s[i..][..|w|][k] == w[k];
      }
    }
    ContainsIffOccurs(l, w);
  }

  /** A URL that literally contains `login` has the `login` indicator set,
      whatever the case of the rest of the URL. */
  lemma LoginFlag(url: string, p: UrlParts, ext: DomainParts, log2: real -> real)
    requires Contains(url, "login")
    ensures FeaturesOf(url, p, ext, log2).ToList()[9] == 1.0
  {
    ContainsLower(url, "login");
    var f := FeaturesOf(url, p, ext, log2);
    assert f.hasLogin;
    Layout(f);
  }

  /** `http://192.168.1.1/login` contains `login` at position 19. */
  lemma LoginInExample(host: string, path: string)
    requires host == "http://192.168.1.1" && path == "/login"
    ensures Contains(host + path, "login")
  {
    var url := host + path;
    assert url[|host| + 1..] == "login";
    ContainsIffOccurs(url, "login");
    assert IsPrefix("login", url[|host| + 1..]);
  }

  /** `http://192.168.1.1/login` sets the address flag and the `login` flag;
      the URL is given as its scheme-and-host part and its path. */
  lemma AddressAndLoginExample(host: string, path: string, p: UrlParts, ext: DomainParts, log2: real -> real)
    requires host == "http://192.168.1.1" && path == "/login"
    requires p.netloc == "192.168.1.1"
    ensures FeaturesOf(host + path, p, ext, log2).ToList()[12] == 1.0
    ensures FeaturesOf(host + path, p, ext, log2).ToList()[9] == 1.0
  {
    DottedQuadMatches();
    LoginInExample(host, path);
    LoginFlag(host + path, p, ext, log2);
    Layout(FeaturesOf(host + path, p, ext, log2));
  }
}
