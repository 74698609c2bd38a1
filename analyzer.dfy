/**
 * The Analyze action of the web front end (streamlit_app.py:33-57): strip
 * the input, sanitise it, parse it, let a trusted host through without
 * consulting the model, otherwise extract the features, check their number
 * against the model's input width, and report the most probable class.
 *
 * The trained model and the label encoder are loaded from files; they are
 * parameters here: `width` is `model.n_features_in_`, `predictProba` maps a
 * feature vector to the row `model.predict_proba([features])[0]`, and
 * `decode` is `le.inverse_transform` on one class index, which fails
 * (`None`) for an index the encoder never saw.
 */
module Analyzer {
  import opened Wrappers
  import opened Text
  import opened Sanitizer
  import opened FeatureExtraction

  /** The host the trusted-domain gate looks at (streamlit_app.py:45): the
      lower-cased network location with one leading `www.` removed. */
  function GateDomain(netloc: string): (d: string)
    ensures IsPrefix("www.", Lower(netloc)) ==> "www." + d == Lower(netloc)
    ensures !IsPrefix("www.", Lower(netloc)) ==> d == Lower(netloc)
    ensures forall i :: 0 <= i < |d| ==> !IsUpper(d[i])
  {
    RemovePrefix(Lower(netloc), "www.")
  }

  /** `np.argmax` on a non-empty row: the FIRST index holding the largest
      value. */
  function ArgMax(xs: seq<real>): (k: nat)
    requires |xs| > 0
    ensures k < |xs|
    ensures forall i :: 0 <= i < |xs| ==> xs[i] <= xs[k]
    ensures forall i :: 0 <= i < k ==> xs[i] < xs[k]
  {
    if |xs| == 1 then 0
    else
      var k := ArgMax(xs[..|xs| - 1]);
      if xs[|xs| - 1] > xs[k] then |xs| - 1 else k
  }

  /** The largest value of a non-empty row. */
  function Max(xs: seq<real>): (m: real)
    requires |xs| > 0
    ensures m in xs
    ensures forall i :: 0 <= i < |xs| ==> xs[i] <= m
  {
    if |xs| == 1 then xs[0]
    else
      var m := Max(xs[1..]);
      if xs[0] > m then xs[0] else m
  }

  /** What the page shows after Analyze is pressed. */
  datatype Verdict =
    | EmptyInput                                  // the warning at line 36
    | InvalidUrl                                  // `urlparse` raised ValueError (lines 41-43)
    | TrustedDomain(domain: string)               // the success message at line 48
    | FeatureMismatch(expected: nat, got: Option<nat>) // the error at line 52
    | NoProbabilities                             // `np.argmax` raises on an empty row
    | UnknownClass(index: nat)                    // `inverse_transform` raises on an unseen index
    | Predicted(index: nat, className: string, confidence: real, probabilities: seq<real>)

  /** The input after `strip` and `sanitize_url` (streamlit_app.py:34, 38). */
  function Clean(input: string): (c: string)
    ensures '[' !in c && ']' !in c
    ensures Strip(input) == [] ==> c == []
  {
    Sanitize(Strip(input))
  }

  /** The classifier stage (streamlit_app.py:54-57) on a feature vector of
      the right width. */
  function Classify(
    features: seq<real>,
    predictProba: seq<real> -> seq<real>,
    decode: nat -> Option<string>
  ): (r: Verdict)
    ensures r.NoProbabilities? <==> predictProba(features) == []
    ensures r.UnknownClass? || r.Predicted? <==> predictProba(features) != []
    // only the arg-max index is decoded: it is the unknown class when the
    // decoder refuses it, and the prediction otherwise
    ensures predictProba(features) != [] ==>
      (r.UnknownClass? <==> decode(ArgMax(predictProba(features))).None?)
    ensures r.UnknownClass? ==> r.index == ArgMax(predictProba(features))
    ensures r.Predicted? ==> r.index == ArgMax(predictProba(features))
    ensures r.UnknownClass? ==> decode(r.index).None?
    ensures r.Predicted? ==>
      && r.probabilities == predictProba(features)
      && r.index < |r.probabilities|
      && (forall i :: 0 <= i < |r.probabilities| ==> r.probabilities[i] <= r.confidence)
      && (forall i :: 0 <= i < r.index ==> r.probabilities[i] < r.confidence)
      && r.confidence == r.probabilities[r.index]
      && decode(r.index).Some?
      && r.className == Title(decode(r.index).value)
  {
    var probs := predictProba(features);
    if probs == [] then NoProbabilities
    else
      var pred := ArgMax(probs);
      match decode(pred)
      case None => UnknownClass(pred)
      case Some(name) => Predicted(pred, Title(name), probs[pred], probs)
  }

  /** The Analyze action (streamlit_app.py:33-57). */
  function Analyze(
    input: string,
    urlparse: string -> Option<UrlParts>,
    tldextract: string -> Option<DomainParts>,
    log2: real -> real,
    width: nat,
    predictProba: seq<real> -> seq<real>,
    decode: nat -> Option<string>
  ): (r: Verdict)
    // an all-whitespace input is refused before anything else
    ensures r.EmptyInput? <==> AllSpace(input)
    // a parse failure stops the action
    ensures r.InvalidUrl? <==> !AllSpace(input) && urlparse(Clean(input)).None?
    // the gate: the lower-cased host without `www.` is a trusted domain
    ensures r.TrustedDomain? <==>
      && !AllSpace(input)
      && urlparse(Clean(input)).Some?
      && GateDomain(urlparse(Clean(input)).value.netloc) in TrustedDomains
    ensures r.TrustedDomain? ==> r.domain == GateDomain(urlparse(Clean(input)).value.netloc)
    // a width mismatch names the expected width and what was extracted
    ensures r.FeatureMismatch? ==>
      && r.expected == width
      && (r.got.None? <==> tldextract(Clean(input)).None?)
      && (r.got.Some? ==> r.got.value == FeatureCount != width)
    // the model is consulted only with a vector of the width it expects
    ensures r.NoProbabilities? || r.UnknownClass? || r.Predicted? ==>
      && width == FeatureCount
      && ExtractFeatures(Clean(input), urlparse, tldextract, log2).Some?
      && r == Classify(ExtractFeatures(Clean(input), urlparse, tldextract, log2).value, predictProba, decode)
  {
    var raw := Strip(input);
    if raw == [] then EmptyInput
    else
      var clean := Sanitize(raw);
      match urlparse(clean)
      case None => InvalidUrl
      case Some(parsed) =>
        var domain := GateDomain(parsed.netloc);
        if domain in TrustedDomains then TrustedDomain(domain)
        else
          match ExtractFeatures(clean, urlparse, tldextract, log2)
          case None => FeatureMismatch(width, None)
          case Some(features) =>
            if features == [] then FeatureMismatch(width, None)
            else if |features| != width then FeatureMismatch(width, Some(|features|))
            else Classify(features, predictProba, decode)
  }

  // ---------------------------------------------------------------------------
  // Properties of the decision
  // ---------------------------------------------------------------------------

  /** The short-circuit: once the host passes the gate, neither the domain
      parser, nor the logarithm, nor the model, nor the label decoder has any
      say in the verdict. */
  lemma TrustedIgnoresModel(
    input: string,
    urlparse: string -> Option<UrlParts>,
    tldextract1: string -> Option<DomainParts>, tldextract2: string -> Option<DomainParts>,
    log2a: real -> real, log2b: real -> real,
    width1: nat, width2: nat,
    predict1: seq<real> -> seq<real>, predict2: seq<real> -> seq<real>,
    decode1: nat -> Option<string>, decode2: nat -> Option<string>
  )
    requires Analyze(input, urlparse, tldextract1, log2a, width1, predict1, decode1).TrustedDomain?
    ensures Analyze(input, urlparse, tldextract1, log2a, width1, predict1, decode1)
         == Analyze(input, urlparse, tldextract2, log2b, width2, predict2, decode2)
  {
  }

  /** An input that is empty after stripping is refused before anything
      else runs: neither parser, the logarithm, the model nor the decoder
      has any say in the verdict. */
  lemma EmptyInputConsultsNothing(
    input: string,
    urlparse1: string -> Option<UrlParts>, urlparse2: string -> Option<UrlParts>,
    tldextract1: string -> Option<DomainParts>, tldextract2: string -> Option<DomainParts>,
    log2a: real -> real, log2b: real -> real,
    width1: nat, width2: nat,
    predict1: seq<real> -> seq<real>, predict2: seq<real> -> seq<real>,
    decode1: nat -> Option<string>, decode2: nat -> Option<string>
  )
    requires Strip(input) == []
    ensures Analyze(input, urlparse1, tldextract1, log2a, width1, predict1, decode1) == EmptyInput
    ensures Analyze(input, urlparse2, tldextract2, log2b, width2, predict2, decode2) == EmptyInput
  {
  }

  /** Feature extraction re-parses the same cleaned string, so once the
      action has parsed it, extraction fails only through the domain
      parser, and a successful extraction always has 23 entries: a model
      whose width is not 23 can never be consulted. */
  lemma MismatchIsConfiguration(
    input: string,
    urlparse: string -> Option<UrlParts>,
    tldextract: string -> Option<DomainParts>,
    log2: real -> real,
    width: nat,
    predictProba: seq<real> -> seq<real>,
    decode: nat -> Option<string>
  )
    requires !AllSpace(input) && urlparse(Clean(input)).Some?
    requires GateDomain(urlparse(Clean(input)).value.netloc) !in TrustedDomains
    requires tldextract(Clean(input)).Some?
    ensures var r := Analyze(input, urlparse, tldextract, log2, width, predictProba, decode);
      r.FeatureMismatch? <==> width != FeatureCount
  {
  }

  /** Every label the page prints is already in title case. */
  lemma LabelIsTitleCase(
    input: string,
    urlparse: string -> Option<UrlParts>,
    tldextract: string -> Option<DomainParts>,
    log2: real -> real,
    width: nat,
    predictProba: seq<real> -> seq<real>,
    decode: nat -> Option<string>
  )
    requires Analyze(input, urlparse, tldextract, log2, width, predictProba, decode).Predicted?
    ensures var r := Analyze(input, urlparse, tldextract, log2, width, predictProba, decode);
      Title(r.className) == r.className
  {
    var r := Analyze(input, urlparse, tldextract, log2, width, predictProba, decode);
    TitleIdempotent(decode(r.index).value);
  }

  /** The confidence shown is the largest probability of the row. */
  lemma ConfidenceIsMax(features: seq<real>, predictProba: seq<real> -> seq<real>, decode: nat -> Option<string>)
    requires Classify(features, predictProba, decode).Predicted?
    ensures var r := Classify(features, predictProba, decode);
      r.confidence == Max(r.probabilities)
  {
    var r := Classify(features, predictProba, decode);
    var m := Max(r.probabilities);
    var j :| 0 <= j < |r.probabilities| && r.probabilities[j] == m;
  }

  /** When two classes tie for the largest probability the lower index wins. */
  lemma TieGoesToFirst(probs: seq<real>, i: nat, j: nat)
    requires i < j < |probs| && probs[i] == probs[j]
    requires forall k :: 0 <= k < |probs| ==> probs[k] <= probs[i]
    ensures ArgMax(probs) <= i
  {
  }

  /** The gate ignores case and forgives a leading `www.`. */
  lemma GateTrustsWww(netloc: string)
    requires netloc == "WWW.Google.com"
    ensures GateDomain(netloc) == "google.com" && GateDomain(netloc) in TrustedDomains
  {
    var lowered := Lower(netloc);
    assert lowered == "www.google.com";
    assert IsPrefix("www.", lowered);
    assert lowered[4..] == "google.com";
  }

  /** The gate compares the whole host, not the registered domain: a
      subdomain of a trusted domain is not let through. */
  lemma GateRefusesSubdomain(netloc: string)
    requires netloc == "mail.google.com"
    ensures GateDomain(netloc) == netloc && GateDomain(netloc) !in TrustedDomains
  {
    LowerOfLowerCase(netloc);
    assert !IsPrefix("www.", netloc);
  }

  /** `www.` is removed once only. */
  lemma GateStripsOnce(netloc: string)
    requires netloc == "www.www.google.com"
    ensures GateDomain(netloc) == "www.google.com" && GateDomain(netloc) !in TrustedDomains
  {
    LowerOfLowerCase(netloc);
    assert IsPrefix("www.", netloc);
    assert netloc[4..] == "www.google.com";
  }

  /** A port is part of the network location, so it defeats the gate. */
  lemma GateRefusesPort(netloc: string)
    requires netloc == "google.com:443"
    ensures GateDomain(netloc) == netloc && GateDomain(netloc) !in TrustedDomains
  {
    LowerOfLowerCase(netloc);
    assert !IsPrefix("www.", netloc);
  }

  /** A trusted name followed by more labels is a different host. */
  lemma GateRefusesTrustedPrefix(netloc: string)
    requires netloc == "google.com.evil.net"
    ensures GateDomain(netloc) == netloc && GateDomain(netloc) !in TrustedDomains
  {
    LowerOfLowerCase(netloc);
    assert !IsPrefix("www.", netloc);
  }
}
