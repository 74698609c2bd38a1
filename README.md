# PhishCatcher URL triage, modelled in Dafny

PhishCatcher is a small web tool that tells a user whether a URL looks benign
or malicious. Its core has two parts, and both are modelled here as pure
functions with proved properties:

- **Feature extraction** (`feature_extraction.py`). `extract_features` turns a
  URL string into a fixed list of 23 numbers: lengths, character counts,
  keyword indicators and a keyword count, an address-shaped-host indicator,
  digit and special-character ratios, the Shannon entropy of the characters,
  an `https` indicator, hosting and URL-shortener indicators, a
  brand-in-subdomain indicator and an allow-list indicator. It returns
  `None` when parsing fails. The allow-list `TRUSTED_DOMAINS` is part of
  this file.
- **The Analyze action** (`streamlit_app.py`). It strips the input and refuses
  an empty one. It "re-fangs" a defanged URL with `sanitize_url`, which turns
  `[.]` into `.` and percent-encodes the remaining brackets. Then it parses
  the URL. A host that, lower-cased and without one leading `www.`, is on the
  allow-list is declared trusted without consulting the model. Otherwise it
  extracts the features, checks their number against the model's input
  width, and reports the most probable class with its probability.

Library code is passed in as function parameters:

- `urlparse` and `tldextract.extract` each either fail (`None`) or supply the
  parts the features read;
- `math.log2` is a `real -> real` parameter;
- the trained model is its input width and a `predictProba` function;
- the label encoder is a `decode` function that fails on an unseen index.

Files:

| file | module | contents |
|---|---|---|
| `wrappers.dfy` | `Wrappers` | `Option`, for Python's `None` |
| `text.dfy` | `Text` | the string built-ins used: `lower`, `count`, `in`, `strip`, `removeprefix`, `title`, ASCII character classes |
| `sanitizer.dfy` | `Sanitizer` | `sanitize_url` and the one-pass reference it is proved equal to |
| `dotted_quad.dfy` | `DottedQuad` | the regular expression behind feature 12 and its reference reading |
| `features.dfy` | `FeatureExtraction` | `TRUSTED_DOMAINS`, the 23 features, `extract_features` and lemmas about each index |
| `analyzer.dfy` | `Analyzer` | the Analyze decision, `np.argmax`, and lemmas about the decision |

In these places the code does something one might not expect, and the
model follows the code:

- The trusted-domain gate in the app looks at the whole network location
  (lower-cased, one `www.` removed), not at the registered domain. So
  `mail.google.com` and `google.com:443` are not let through, and
  `www.www.google.com` keeps one `www.`. Only feature 22 looks at the
  registered domain.
- A trusted host produces a message with the domain and no confidence
  value. `Analyzer.Verdict.TrustedDomain` carries only the domain.
- Index 1 of the vector is the length of the registrable label
  (`ext.domain`), not of the whole host.
- An empty URL is not an extraction error inside `extract_features`. It
  yields zero ratios and zero entropy. The app never passes one, because it
  refuses all-whitespace input first.
- `not features` treats an empty list like `None`. `extract_features` never
  returns an empty list, so a mismatch reports either `None` (extraction
  failed) or 23.
- `np.argmax` raises on an empty probability row, and `inverse_transform`
  raises on an index it never saw. Neither is caught. Each is a verdict of
  its own: `NoProbabilities` and `UnknownClass`.

## Model

| member | source | states |
|---|---|---|
| Text.Lower | feature_extraction.py:35-37 | on ASCII input, `url.lower()` keeps the length, maps each character through ASCII lower-casing, and leaves no upper-case letter |
| Text.LowerIdempotent | streamlit_app.py:45 | lower-casing twice is lower-casing once |
| Text.Count | feature_extraction.py:29-34 | `url.count(c)` is the multiplicity of `c` in the URL, is at most its length, and is positive exactly when `c` occurs |
| Text.CountWhere | feature_extraction.py:22 | the number of characters satisfying a class (here `[^a-zA-Z0-9]`, and `isdigit` at line 39) is at most the length and is 0 exactly when no character satisfies it; its exact value is fixed by Text.CountWhereSingle and Text.CountWhereConcat |
| Text.CountWhereSingle | feature_extraction.py:39 | one character counts 1 when it is in the class and 0 otherwise |
| Text.CountWhereConcat | feature_extraction.py:39 | the count over a concatenation is the sum of the counts over its parts, so the count is exactly the number of qualifying characters |
| Text.DigitsAndSpecialsDisjoint | feature_extraction.py:39-40 | on ASCII input, digits and characters outside `[a-zA-Z0-9]` together number at most the length of the URL |
| Text.Contains | feature_extraction.py:35-37 | no contract of its own; Python's `w in s`, characterised by Text.ContainsIffOccurs |
| Text.ContainsIffOccurs | feature_extraction.py:35-37 | `w in s` holds exactly when `w` occurs at some position of `s` |
| Text.Strip | streamlit_app.py:34-35 | `strip()` is empty exactly when the input is all whitespace; otherwise it starts and ends with a non-space and is the input between two all-whitespace margins |
| Text.RemovePrefix | streamlit_app.py:45 | `removeprefix("www.")` drops exactly one copy of the prefix when present and changes nothing otherwise |
| Text.Title | streamlit_app.py:57 | on ASCII input, `title()` keeps the length, upper-cases a letter not preceded by a letter, lower-cases one that is, and keeps every other character |
| Text.TitleIdempotent | streamlit_app.py:57 | title-casing a title-cased string changes nothing |
| Sanitizer.ReplaceAll | streamlit_app.py:9 | `str.replace` leaves a string without the pattern unchanged, introduces only characters of the string or the replacement, and removes a one-character pattern absent from the replacement |
| Sanitizer.EncodeBrackets | streamlit_app.py:9 | after the second and third replacements no square bracket remains, and bracket-free text is unchanged |
| Sanitizer.Sanitize | streamlit_app.py:8-9 | `sanitize_url` leaves no square bracket and is the identity on bracket-free input |
| Sanitizer.SanitizeIdempotent | streamlit_app.py:8-9 | sanitising twice is sanitising once |
| Sanitizer.SanitizeIsDefang | streamlit_app.py:8-9 | the three chained replacements equal a one-pass scan in which `[.]` takes precedence and any other bracket is percent-encoded |
| Sanitizer.SanitizeDefangedDotAndSegment | streamlit_app.py:8-9 | `host[.]rest[seg]` with bracket-free parts becomes `host.rest%5Bseg%5D` |
| Sanitizer.SanitizeExample | streamlit_app.py:8-9 | `http://example[.]com/[x]` becomes `http://example.com/%5Bx%5D` |
| Sanitizer.ReplacementOrderMatters | streamlit_app.py:9 | `[.]` is restored to `.`, whereas encoding brackets first would give `%5B.%5D` |
| DottedQuad.MatchFrom | feature_extraction.py:38 | no contract of its own; the backtracking engine for `(?:\d{1,3}\.){3}\d{1,3}`, characterised by DottedQuad.MatchIffDottedQuad |
| DottedQuad.MatchesDottedQuad | feature_extraction.py:38 | no contract of its own; `re.match` of the pattern on `p.netloc`, characterised by DottedQuad.MatchIffDottedQuad and DottedQuad.MatchIgnoresSuffix |
| DottedQuad.MatchIffDottedQuad | feature_extraction.py:38 | the backtracking match of `(?:\d{1,3}\.){3}\d{1,3}` succeeds exactly when the network location begins with four dot-separated groups of one to three digits |
| DottedQuad.MatchIgnoresSuffix | feature_extraction.py:38 | `re.match` is anchored at the start only: appending anything to a matching string keeps it matching |
| DottedQuad.DottedQuadMatches | feature_extraction.py:38 | `192.168.1.1` and `10.0.0.1.evil.com` match |
| DottedQuad.DottedQuadMisses | feature_extraction.py:38 | `1234.5.6.7`, `google.com` and `a1.2.3.4` do not match |
| FeatureExtraction.TrustedDomains | feature_extraction.py:6-11 | no contract of its own; the 16 trusted domains, used by FeatureExtraction.TrustedExample and the gate lemmas |
| FeatureExtraction.IsTrusted | feature_extraction.py:48 | no contract of its own; `full in TRUSTED_DOMAINS` with `full` lower-cased, characterised by FeatureExtraction.TrustFlag and the trust examples |
| FeatureExtraction.AnyPresent | feature_extraction.py:45-47 | no contract of its own; the `any(...)` tests, characterised by FeatureExtraction.CountPresent and FeatureExtraction.BrandFlag |
| FeatureExtraction.Entropy | feature_extraction.py:23 | no contract of its own; `-sum(p * log2(p))` over distinct characters, 0 for the empty URL, characterised by FeatureExtraction.EntropyNonNegative and FeatureExtraction.EntropyOfRepeatedChar |
| FeatureExtraction.FeaturesOf | feature_extraction.py:25-49 | no contract of its own; the 23 fields of the list literal; every entry is characterised by an index lemma below: 0 and 3-8 by FeatureExtraction.CharacterCounts, 1, 2 and 17 by FeatureExtraction.PartLengths, 9-11 by FeatureExtraction.KeywordFlags, 18 by FeatureExtraction.KeywordCountBounds and the count lemmas, 12 by FeatureExtraction.AddressFlag, 13-15 by FeatureExtraction.RatioBounds, FeatureExtraction.RatioValues and FeatureExtraction.EntropyFeatureNonNegative, 16 by FeatureExtraction.HttpsFlag, 19-20 by FeatureExtraction.HostingFlags, 21 by FeatureExtraction.BrandFlag, 22 by FeatureExtraction.TrustFlag |
| FeatureExtraction.Ratio | feature_extraction.py:39-40 | `n / url_len if url_len else 0` lies in [0, 1] and is positive exactly when `n` is |
| FeatureExtraction.CountPresent | feature_extraction.py:44 | the keyword sum is at most the number of keywords and is positive exactly when some keyword occurs; its exact value is fixed by FeatureExtraction.CountPresentSingle and FeatureExtraction.CountPresentConcat |
| FeatureExtraction.CountPresentSingle | feature_extraction.py:44 | one word counts 1 when it occurs in the string and 0 otherwise |
| FeatureExtraction.CountPresentConcat | feature_extraction.py:44 | the count over a concatenated word list is the sum of the counts over its parts, so the sum is exactly the number of words present |
| FeatureExtraction.Frequency | feature_extraction.py:23 | `url.count(c) / url_len` lies in [0, 1] and is positive exactly when `c` occurs |
| FeatureExtraction.EntropyNonNegative | feature_extraction.py:23 | the entropy is never negative when `log2` is non-positive on (0, 1] |
| FeatureExtraction.EntropyOfRepeatedChar | feature_extraction.py:23 | a string of one repeated character has entropy 0 |
| FeatureExtraction.Features.ToList | feature_extraction.py:25-49 | the returned list has exactly 23 entries, entry `k` being feature `k` |
| FeatureExtraction.ExtractFeatures | feature_extraction.py:13-52 | `None` exactly when one of the two parsers fails, otherwise a list of exactly 23 entries, namely the features of the URL and its parsed parts |
| FeatureExtraction.IndicatorsAreFlags | feature_extraction.py:25-49 | the nine `int(bool)` entries (9-12, 16, 19-22) are each 0 or 1 |
| FeatureExtraction.CharacterCounts | feature_extraction.py:26-34 | entries 3-8 are the multiplicities of `.`, `-`, `@`, `?`, `=`, `/`, none exceeding entry 0, the URL length |
| FeatureExtraction.KeywordCountBounds | feature_extraction.py:35-44 | entry 18 lies in [0, 6] and is at least the sum of the `login`, `bank` and `verify` indicators |
| FeatureExtraction.RatioBounds | feature_extraction.py:39-41 | entries 13 and 14 lie in [0, 1], and on ASCII input sum to at most 1; for the empty URL they and the entropy are 0 |
| FeatureExtraction.EntropyFeatureNonNegative | feature_extraction.py:41 | entry 15 is never negative when `log2` is non-positive on (0, 1] |
| FeatureExtraction.AddressFlag | feature_extraction.py:38 | entry 12 is 1 exactly when the network location begins with a dotted quad |
| FeatureExtraction.BrandFlag | feature_extraction.py:47 | entry 21 is 1 exactly when a brand name occurs in the lower-cased subdomain |
| FeatureExtraction.PartLengths | feature_extraction.py:27-43 | entries 1, 2 and 17 are the lengths of the registrable label, the path and the subdomain |
| FeatureExtraction.RatioValues | feature_extraction.py:39-40 | for a non-empty URL, entries 13 and 14 are the digit count and the special-character count divided by the URL length |
| FeatureExtraction.KeywordFlags | feature_extraction.py:35-37 | entries 9, 10 and 11 are 1 exactly when `login`, `bank` and `verify` occur in the lower-cased URL |
| FeatureExtraction.HttpsFlag | feature_extraction.py:42 | entry 16 is 1 exactly when the lower-cased scheme is `https` |
| FeatureExtraction.HostingFlags | feature_extraction.py:45-46 | entry 19 is 1 exactly when a free-hosting name occurs in the lower-cased URL, and entry 20 exactly when a shortener domain does |
| FeatureExtraction.BrandFlagReadsOnlySubdomain | feature_extraction.py:47 | entry 21 depends on nothing but the lower-cased subdomain |
| FeatureExtraction.TrustFlag | feature_extraction.py:48 | entry 22 is 1 exactly when the lower-cased registered domain is a trusted domain |
| FeatureExtraction.TrustedExample | feature_extraction.py:6-11 | `google.com` is trusted |
| FeatureExtraction.TrustedIgnoresCase | feature_extraction.py:19 | `GitHub.com` is trusted because the registered domain is lower-cased first |
| FeatureExtraction.LookalikeUntrusted | feature_extraction.py:48 | the look-alike `evil-google.com` is not trusted |
| FeatureExtraction.NestedUntrusted | feature_extraction.py:48 | `google.com.evil.net` is not trusted |
| FeatureExtraction.ContainsLower | feature_extraction.py:35 | a lower-case word that occurs in the URL also occurs in its lower-cased form |
| FeatureExtraction.LoginFlag | feature_extraction.py:35 | a URL containing `login` has entry 9 set |
| FeatureExtraction.AddressAndLoginExample | feature_extraction.py:35-38 | `http://192.168.1.1/login` has entries 9 and 12 set |
| Analyzer.GateDomain | streamlit_app.py:45 | the gate's domain is the lower-cased network location minus one leading `www.`, and has no upper-case letter |
| Analyzer.ArgMax | streamlit_app.py:55 | `np.argmax` returns an index holding the largest probability and the first such index |
| Analyzer.TieGoesToFirst | streamlit_app.py:55 | when two classes tie for the largest probability, the lower index is chosen |
| Analyzer.ConfidenceIsMax | streamlit_app.py:55-56 | the confidence shown is the largest probability of the row |
| Analyzer.Clean | streamlit_app.py:34-38 | the stripped, sanitised input has no square bracket and is empty when the input is all whitespace |
| Analyzer.Classify | streamlit_app.py:54-57 | an empty row is `NoProbabilities`; otherwise the verdict carries the row, the first arg-max index, its probability as confidence (at least every other), and the title-cased decoded label, or `UnknownClass` carrying the arg-max index exactly when the decoder refuses that index; only the arg-max index is decoded |
| Analyzer.Analyze | streamlit_app.py:33-57 | empty exactly for all-whitespace input; invalid exactly when parsing the cleaned input fails; trusted exactly when the gate's domain is in the allow-list; a mismatch names the expected width and what was extracted; the model is consulted only with a 23-entry vector and a width of 23 |
| Analyzer.TrustedIgnoresModel | streamlit_app.py:47-50 | once the host passes the gate, the domain parser, the logarithm, the model and the decoder have no influence on the verdict |
| Analyzer.EmptyInputConsultsNothing | streamlit_app.py:34-36 | an input empty after `strip()` is refused whatever the parsers, the model and the decoder would do |
| Analyzer.MismatchIsConfiguration | streamlit_app.py:50-52 | for a parsed, untrusted URL whose domain parses, a mismatch occurs exactly when the model's width is not 23 |
| Analyzer.LabelIsTitleCase | streamlit_app.py:57 | every predicted label shown is already in title case |
| Analyzer.GateTrustsWww | streamlit_app.py:45-47 | `WWW.Google.com` passes the gate as `google.com` |
| Analyzer.GateRefusesSubdomain | streamlit_app.py:45-47 | `mail.google.com` does not pass the gate |
| Analyzer.GateStripsOnce | streamlit_app.py:45-47 | `www.www.google.com` becomes `www.google.com` and does not pass |
| Analyzer.GateRefusesTrustedPrefix | streamlit_app.py:45-47 | `google.com.evil.net` does not pass the gate |
| Analyzer.GateRefusesPort | streamlit_app.py:45-47 | `google.com:443` does not pass the gate |

## Left out

- The page layout is not modelled: sidebar, title, input box, messages, the emoji table, the `.2f` formatting of the confidence, and the sorted probability bar chart (streamlit_app.py:21-31, 58-68). These are display only.
- `load_artifacts` and `pickle` loading are not modelled. The model is its width and `predictProba`, and the encoder is `decode`.
- `urlparse` and `tldextract.extract` internals are not modelled. They are parameters. Both calls on the same cleaned string are assumed to return the same parts, since a function parameter is deterministic.
- `ext.domain or ""` and `ext.subdomain or ""`: the parsed parts are always strings here, so the `None` fallback is not represented.
- Python's mix of `int` and `float` in the list is modelled as `real`. Floating-point rounding, and the NaN handling of `np.argmax`, are not modelled. Division is exact.
- `math.log2` is a parameter. Entropy facts assume only what each lemma states about it.
- `str.lower`, `str.isdigit`, `str.isspace`, `str.title` and the regex class `\d` are modelled on ASCII only. Non-ASCII letters, digits and spaces are treated as other characters.
- Text.Lower: promises length preservation only for the ASCII model; Python's `lower()` can lengthen a string (`'\u0130'.lower()` has two characters).
- Text.DigitsAndSpecialsDisjoint: requires ASCII input; `c.isdigit()` accepts Unicode digits that `[^a-zA-Z0-9]` also counts, so for non-ASCII input the bound fails in Python.
- Analyzer.GateDomain: uses the ASCII `lower()`, so the gate's answer differs from Python's on some non-ASCII hosts: Python lowers U+212A KELVIN SIGN to `k`, so `faceboo\u212A.com` becomes `facebook.com` and is let through, while the model keeps the character and refuses the host.
- FeatureExtraction.RatioBounds: the bound on the sum of entries 13 and 14 is stated for ASCII URLs only; for `"\u0661"` Python gives 1.0 for both.
- The `print` of the caught exception in `extract_features` (feature_extraction.py:51) is output only and is not modelled.
- Exceptions other than a parser failure are not modelled inside `extract_features`. The remaining operations (`len`, `count`, `in`, and `log2` on a positive share) cannot raise.
- `st.cache_resource` and `st.stop` are not modelled as such. Stopping is the `InvalidUrl` verdict.
