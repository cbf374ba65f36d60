# SEO analyzer scoring engine, in Dafny

This project models the real-time SEO analyzer of Bolt Enhanced SEO (`SeoAnalyzer` in
`assets/seo/seo-analyzer.js`). The analyzer takes the editorial fields of a page: the SEO
title, the meta description, a focus keyphrase, the URL slug, the content and an optional
keyword list. It produces three things:

- one result per check: a score from 0 to 100, a status (`good`, `warning`, `bad` or
  `neutral`), a message and the measured value;
- a weighted overall score, renormalised over the checks actually run;
- a feedback list of the checks that need attention, with the `bad` ones first.

The program is one class in one file. The modules split it by concern, with the JavaScript
built-ins it relies on in a module of their own:

- `text.dfy` (module `SeoText`) holds the string primitives the checks rely on. It covers
  ECMAScript white space, `trim`, ASCII `toLowerCase`, `indexOf`/`includes`, and
  non-overlapping global match counting, with and without ignoring case. It also covers the
  word split on `/\s+/`, the comma split and the `/\s+/g` to `-` replacement.
- `links.dfy` (module `SeoLinks`) holds `isExternalLink` and the two link counts.
- `checks.dfy` (module `SeoChecks`) holds the eleven `check*` functions and the threshold
  constants.
- `analyzer.dfy` (module `SeoAnalyzer`) holds the weights and
  display names, `analyze` and `generateFeedback`. It also holds the lemmas on aggregation
  and feedback.
- `wrappers.dfy` holds an `Option` type.

How the model represents the original:

- The checks are pure functions.
- `analyze` and `generateFeedback` are methods. The loops over `results.checks`
  (`WeighChecks` for the weighting inside `analyze`, and the collection in
  `GenerateFeedback`) carry invariants tying the accumulators to the specification
  functions `Earned`, `TotalWeight` and `Flagged`.
- Floating-point ratios become exact rational arithmetic. `Math.round` of an exact
  ratio n / d is `RoundHalfUp(n, d) = (2n + d) div 2d`, and `Earned` is 100 times the original's
  `earnedScore`. A density below 0.5 % is `1000 * count < 5 * words`, and one above 2.5 %
  is `1000 * count > 25 * words`.

Observations from the proofs, all about the code as written:

- A title of 30 to 60 characters is `good` with a score of 60 to 100. At 30 characters it
  scores 60, below the flat 70 of an overlong title (`ShortestGoodTitleScoresBelowOverlong`).
- The content-length score reaches 100 from 795 words on, not only from 800. From 795 words
  the rounded middle-band bonus is already 50 (`ContentLengthResult`).
- The configured weights add up to 105 with the keywords check and 100 without it. The
  division by `totalWeight` makes this harmless (`PlanWeights`, `PerfectInputScores100EitherWay`).
- The density count matches the untouched keyphrase against the lower-cased text with no
  ignore-case flag. A keyphrase with a capital letter therefore never counts toward density,
  although the content check finds it (`CapitalisedKeyphraseHasNoDensity`).

## Model

| member | source | states |
|---|---|---|
| SeoText.Trim | assets/seo/seo-analyzer.js:96 | the result is a slice of the input with only white space around it; it is non-white at both ends, and empty exactly when the input is blank |
| SeoText.Lower | assets/seo/seo-analyzer.js:215-216 | same length; each ASCII capital becomes the matching small letter, every other character is kept |
| SeoText.IndexOf | assets/seo/seo-analyzer.js:217-218 | -1 exactly when the pattern does not occur; otherwise the first index where it occurs |
| SeoText.CountMatches | assets/seo/seo-analyzer.js:289-291 | a global match count; the count times the pattern length never exceeds the text length |
| SeoText.CountFromFirstOccurrence | assets/seo/seo-analyzer.js:289-291 | the scan is left to right and non-overlapping: when the pattern occurs, the count is one plus the count in what follows the first occurrence |
| SeoText.CountMatchesIgnoringCase | assets/seo/seo-analyzer.js:264-266 | a global ignore-case match count; the count times the pattern length never exceeds the text length |
| SeoText.CountZeroIffAbsent | assets/seo/seo-analyzer.js:266 | the match count is zero exactly when the pattern does not occur |
| SeoText.CountIgnoringCaseIsCountOfLowered | assets/seo/seo-analyzer.js:264-266 | a global ignore-case match count equals the plain count on both strings lower-cased |
| SeoText.UpperPatternNeverMatchesLowered | assets/seo/seo-analyzer.js:289-290 | a pattern with a capital letter has no match in a lower-cased text |
| SeoText.Words | assets/seo/seo-analyzer.js:283 | the words are non-empty and white-space free, and together they hold exactly the non-white characters of the text |
| SeoText.WordsOfWord | assets/seo/seo-analyzer.js:283 | a non-empty run without white space is exactly one word |
| SeoText.WordsOfBlank | assets/seo/seo-analyzer.js:283 | a blank text has no words |
| SeoText.WordsSplitAtWhitespace | assets/seo/seo-analyzer.js:283 | splitting the text at a white-space character splits the word list there; with the two lemmas above this fixes the word list of every text |
| SeoText.WordCount | assets/seo/seo-analyzer.js:283-285 | the number of words never exceeds the number of characters |
| SeoText.WordCountZeroIffBlank | assets/seo/seo-analyzer.js:285-286 | no words exactly when the text is blank |
| SeoText.Split | assets/seo/seo-analyzer.js:166 | at least one piece, no piece holds the separator, and joining the pieces with it gives back the input |
| SeoText.SplitAround | assets/seo/seo-analyzer.js:166 | the pieces of two strings joined by the separator are the pieces of each, in order |
| SeoText.SplitWithoutSeparator | assets/seo/seo-analyzer.js:166 | a string without the separator is one piece |
| SeoText.HyphenateWhitespace | assets/seo/seo-analyzer.js:249 | the result has no white space, is no longer than the input, and is the input itself when that has none |
| SeoText.HyphenateBlank | assets/seo/seo-analyzer.js:249 | a non-empty run of white space becomes a single `-` |
| SeoText.HyphenateAppend | assets/seo/seo-analyzer.js:249 | the replacement works piece by piece when the two pieces do not meet inside one white-space run |
| SeoText.HyphenateAroundRun | assets/seo/seo-analyzer.js:249 | a white-space run between two pieces that do not touch it with white space becomes exactly one `-` between their replacements |
| SeoLinks.Classify | assets/seo/seo-analyzer.js:410-438 | ignored exactly for empty, `#`, `javascript:`, `mailto:`, `tel:` and `sms:` hrefs; external exactly when the parsed host differs from the current host after one leading `www.` is dropped from each; internal otherwise, including unparsable URLs |
| SeoLinks.StripWww | assets/seo/seo-analyzer.js:429-430 | one leading `www.` is removed; a host without it is unchanged |
| SeoLinks.IgnoredHrefForms | assets/seo/seo-analyzer.js:415-420 | the empty href and every href starting with `#`, `javascript:`, `mailto:`, `tel:` or `sms:` is ignored, whatever follows the prefix |
| SeoLinks.CountClass | assets/seo/seo-analyzer.js:336-337 | the number of anchors in one class never exceeds the number of anchors |
| SeoLinks.ExternalCount | assets/seo/seo-analyzer.js:336-337 | the external count never exceeds the number of anchors |
| SeoLinks.InternalCount | assets/seo/seo-analyzer.js:351-352 | the internal count never exceeds the number of anchors |
| SeoLinks.ClassesPartitionLinks | assets/seo/seo-analyzer.js:334-362 | external plus internal plus ignored counts add up to the number of anchors |
| SeoLinks.CountClassAppend | assets/seo/seo-analyzer.js:334-362 | the counts are additive over concatenated anchor lists |
| SeoLinks.IgnoredLinkCountsNowhere | assets/seo/seo-analyzer.js:414-421 | an ignored anchor changes neither count |
| SeoLinks.UnparsableLinkIsInternal | assets/seo/seo-analyzer.js:434-437 | an anchor whose URL does not parse is internal |
| SeoLinks.WwwPrefixIgnored | assets/seo/seo-analyzer.js:428-432 | a leading `www.` on either host does not change the classification |
| SeoLinks.AnchorIsIgnored | assets/seo/seo-analyzer.js:415 | an in-page anchor is ignored whatever its host |
| SeoLinks.SameSiteWithoutWwwIsInternal | assets/seo/seo-analyzer.js:428-432 | `example.com` seen from `www.example.com` is internal |
| SeoChecks.RoundHalfUp | assets/seo/seo-analyzer.js:103 | the nearest integer to n / d, halves rounded up |
| SeoChecks.RoundHalfUpMonotone | assets/seo/seo-analyzer.js:103 | rounding preserves order |
| SeoChecks.RoundHalfUpExact | assets/seo/seo-analyzer.js:103 | an exact quotient rounds to itself |
| SeoChecks.TitleLengthResult | assets/seo/seo-analyzer.js:99-122 | bad with 0 exactly at length 0; 2 times the length below 30; good exactly for 30..60 with 100 - 2 × distance from 50, so 100 exactly at 50; a flat 70 above 60 |
| SeoChecks.CheckTitleLength | assets/seo/seo-analyzer.js:95-96 | score in [0, 100], value is the trimmed length, bad exactly when the title is blank |
| SeoChecks.TitleScoreUnimodal | assets/seo/seo-analyzer.js:99-122 | the score does not decrease up to length 50 and does not increase after it |
| SeoChecks.ShortestGoodTitleScoresBelowOverlong | assets/seo/seo-analyzer.js:108-119 | 30 characters is good with 60, 61 characters is a warning with 70 |
| SeoChecks.DescriptionLengthResult | assets/seo/seo-analyzer.js:129-152 | bad with 0 exactly at length 0; half the length rounded up below 120; good exactly for 120..160 with 100 - distance from 140, so 100 exactly at 140; a flat 60 above 160 |
| SeoChecks.CheckDescriptionLength | assets/seo/seo-analyzer.js:125-126 | score in [0, 100], value is the trimmed length, bad exactly when the description is blank |
| SeoChecks.DescriptionScoreUnimodal | assets/seo/seo-analyzer.js:129-152 | the score does not decrease up to 140 and does not increase after it |
| SeoChecks.KeywordList | assets/seo/seo-analyzer.js:166 | every keyword is non-empty and already trimmed |
| SeoChecks.KeywordListAround | assets/seo/seo-analyzer.js:166 | the keywords of `a,b` are the keywords of `a` followed by those of `b` |
| SeoChecks.KeywordListOfPiece | assets/seo/seo-analyzer.js:166 | a field without a comma gives no keyword when blank and otherwise exactly its trimmed text; with the lemma above this fixes the keyword list of every field |
| SeoChecks.KeywordCount | assets/seo/seo-analyzer.js:156-167 | an absent field has no keywords |
| SeoChecks.BlankKeywordsHaveNone | assets/seo/seo-analyzer.js:156-166 | a blank field yields no keywords |
| SeoChecks.KeywordsResult | assets/seo/seo-analyzer.js:170-206 | 40 at 0 keywords and 60 for 1 or 2, both warnings; good with 85 for 3..6 and with 100 exactly for 7..15; a warning with 70 above 15 |
| SeoChecks.CheckKeywords | assets/seo/seo-analyzer.js:155-167 | an absent or blank field scores exactly as a count of zero; otherwise the banding of the keyword count; value is the count |
| SeoChecks.CheckKeyphraseInTitle | assets/seo/seo-analyzer.js:209-229 | neutral exactly for a blank keyphrase; good exactly when the lower-cased keyphrase occurs in the lower-cased title, bad otherwise; 100 exactly for a match at 0; at least 90 exactly for a match before index 10; otherwise 75; value says whether it matched |
| SeoChecks.CheckKeyphraseInDescription | assets/seo/seo-analyzer.js:231-241 | neutral for a blank keyphrase, else good with 100 exactly on a case-insensitive occurrence and bad with 0 otherwise |
| SeoChecks.SlugForm | assets/seo/seo-analyzer.js:249 | the slug form of the keyphrase has no white space and no capital |
| SeoChecks.SlugFormOfWord | assets/seo/seo-analyzer.js:249 | a keyphrase without white space appears in the slug just lower-cased |
| SeoChecks.SlugFormAroundRun | assets/seo/seo-analyzer.js:249 | each white-space run between two pieces of the keyphrase becomes exactly one `-` |
| SeoChecks.CheckKeyphraseInSlug | assets/seo/seo-analyzer.js:243-256 | neutral for a blank keyphrase; good with 100 exactly when the slug form occurs in the lower-cased slug; a miss is a warning, not bad |
| SeoChecks.ContentOccurrences | assets/seo/seo-analyzer.js:264-266 | zero exactly when the keyphrase does not occur in the text, ignoring case |
| SeoChecks.CheckKeyphraseInContent | assets/seo/seo-analyzer.js:258-275 | neutral with 0 for a blank keyphrase; bad with 0 exactly when it does not occur; a warning with 60 for one or two occurrences; good with 100 exactly at three or more; value is the count |
| SeoChecks.DensityOccurrences | assets/seo/seo-analyzer.js:289-291 | zero exactly when the keyphrase as typed does not occur in the lower-cased text |
| SeoChecks.CheckKeyphraseDensity | assets/seo/seo-analyzer.js:277-305 | neutral exactly for a blank keyphrase or a text without words; bad exactly for no occurrence; good with 100 exactly when occurrences per word lie within 0.5 % to 2.5 %; a warning with 50 below 0.5 % and with 40 above 2.5 %; whenever the keyphrase occurs in a text that is not blank, the value is exactly the occurrence count and the word count |
| SeoChecks.CapitalisedKeyphraseHasNoDensity | assets/seo/seo-analyzer.js:289-300 | a keyphrase with a capital letter is always bad for density when there is content |
| SeoChecks.LowercaseKeyphraseCountsAgree | assets/seo/seo-analyzer.js:264-291 | for a keyphrase without capitals the density count equals the content count |
| SeoChecks.ContentLengthResult | assets/seo/seo-analyzer.js:313-331 | bad with 0 exactly at 0 words; below 300 a warning with 50 × words / 300 rounded; good from 300 words with 50 plus 50 × (words - 300) / 500 rounded up to 799 words; 100 exactly from 795 words, so at 800 and above |
| SeoChecks.CheckContentLength | assets/seo/seo-analyzer.js:307-310 | score in [0, 100], value is the word count, bad exactly when the text is blank |
| SeoChecks.ContentScoreMonotone | assets/seo/seo-analyzer.js:313-331 | more words never lower the score, across the 300-word seam too |
| SeoChecks.CheckExternalLinks | assets/seo/seo-analyzer.js:334-347 | value is the external count; a warning with 60 exactly at none; good with 100 exactly for 1 to 3; good with 80 above 3 |
| SeoChecks.CheckInternalLinks | assets/seo/seo-analyzer.js:349-362 | value is the internal count; a warning with 40 at none and with 70 at one; good with 100 exactly from 2 on |
| SeoAnalyzer.Weight | assets/seo/seo-analyzer.js:8-18 | every weight is positive |
| SeoAnalyzer.DisplayNamesDistinct | assets/seo/seo-analyzer.js:8-18 | distinct checks carry distinct display names |
| SeoAnalyzer.Plan | assets/seo/seo-analyzer.js:61-75 | the keywords check is present exactly when it is enabled |
| SeoAnalyzer.Run | assets/seo/seo-analyzer.js:61-75 | every check scores in [0, 100]; with a blank keyphrase every keyphrase check is neutral |
| SeoAnalyzer.PlanWeights | assets/seo/seo-analyzer.js:8-18 | the weights present add up to 105 with keywords and 100 without |
| SeoAnalyzer.TotalWeight | assets/seo/seo-analyzer.js:84 | the total weight is zero exactly when no check is present |
| SeoAnalyzer.ExpectedChecksWellFormed | assets/seo/seo-analyzer.js:61-75 | all stored scores are in [0, 100], and the total weight is 105 or 100 |
| SeoAnalyzer.EarnedBounds | assets/seo/seo-analyzer.js:81-86 | the earned sum lies between 0 and 100 times the total weight |
| SeoAnalyzer.WeightedScoreBounded | assets/seo/seo-analyzer.js:89 | the final score lies in [0, 100] |
| SeoAnalyzer.AllPerfectScores100 | assets/seo/seo-analyzer.js:81-89 | checks that all score 100 give 100 overall |
| SeoAnalyzer.WeightsAppend | assets/seo/seo-analyzer.js:81-86 | earned sum and total weight are additive over concatenation |
| SeoAnalyzer.KeywordsRenormalisation | assets/seo/seo-analyzer.js:68-89 | disabling keywords removes exactly its weight from the total and its share from the earned sum, and no remaining entry is the keywords check |
| SeoAnalyzer.OffIsOnWithoutKeywords | assets/seo/seo-analyzer.js:61-76 | with keywords on there are eleven entries and the sixth is the keywords result; with it off the list is the other ten entries, unchanged and in the same order |
| SeoAnalyzer.PerfectInputScores100EitherWay | assets/seo/seo-analyzer.js:68-89 | an input perfect on every check scores 100 with keywords on and with keywords off |
| SeoAnalyzer.EarnedMonotone | assets/seo/seo-analyzer.js:81-86 | raising check scores never lowers the earned sum |
| SeoAnalyzer.WeightedScoreMonotone | assets/seo/seo-analyzer.js:81-89 | raising check scores never lowers the final score |
| SeoAnalyzer.Flagged | assets/seo/seo-analyzer.js:366-375 | every collected item is bad or a warning |
| SeoAnalyzer.FlaggedExactly | assets/seo/seo-analyzer.js:366-375 | an item is collected exactly when some check is bad or a warning and the item carries its status, display name and message |
| SeoAnalyzer.OfKind | assets/seo/seo-analyzer.js:377 | every selected item has the given kind |
| SeoAnalyzer.BadFirstOrdered | assets/seo/seo-analyzer.js:377 | after sorting, every bad item precedes every warning |
| SeoAnalyzer.BadFirstPermutation | assets/seo/seo-analyzer.js:377 | sorting is a permutation of the collected items |
| SeoAnalyzer.BadFirstStable | assets/seo/seo-analyzer.js:377 | sorting keeps the collected order within each kind |
| SeoAnalyzer.BadFirstExample | assets/seo/seo-analyzer.js:377 | warning, bad, warning, bad come out as bad, bad, warning, warning |
| SeoAnalyzer.GenerateFeedback | assets/seo/seo-analyzer.js:364-379 | the feedback is the collected bad and warning checks, bad first, stable, and a permutation of what was collected |
| SeoAnalyzer.WeighChecks | assets/seo/seo-analyzer.js:78-86 | the loop over the checks ends with the earned sum and the total weight of all of them |
| SeoAnalyzer.Analyze | assets/seo/seo-analyzer.js:54-93 | the checks run in their fixed order, keywords only when enabled; the score is the rounded weighted mean over them, in [0, 100]; the feedback is generated from them |
| SeoAnalyzer.NeutralKeyphraseChecksGiveNoFeedback | assets/seo/seo-analyzer.js:366-375 | neutral keyphrase checks never appear in the feedback |
| SeoAnalyzer.BlankKeyphraseGivesNoKeyphraseFeedback | assets/seo/seo-analyzer.js:209-280 | with a blank keyphrase every keyphrase check is neutral and none of them appears in the feedback |

## Left out

- HTML stripping (`stripHtml`) is not modelled, because it relies on the browser's HTML parser. The content enters as its plain text.
- Anchor extraction (`extractLinks`), `resolveUrl` and `new URL(...)` are not modelled, for the same reason. Each anchor enters as its `href` and the hostname its URL resolves to, or none when the URL does not parse.
- `window.location.hostname` is a parameter.
- `checkKeywordsEnabled` probes the page's DOM. It is replaced by a boolean parameter of `Analyze`.
- `assets/seo/seo-enhanced.js` is not part of this model: it is UI wiring (DOM discovery, event listeners, polling, rendering). It never passes `keywords`, which is why `AnalysisInput.keywords` is optional.
- `console.log` calls are left out.
- An absent keyphrase (`keyphrase?.trim()` on `undefined`) is modelled as the empty string, which behaves the same.
- Lengths count characters, not UTF-16 code units.
- `toLowerCase` and the regular expression's ignore-case flag use ASCII case mapping only. Unicode case mapping is not modelled.
- SeoChecks.CheckKeyphraseDensity: the value carries the occurrence count and the word count instead of the floating-point percentage. The messages omit the `toFixed(1)` figure.
- SeoChecks.ContentLengthResult: the score is computed on exact ratios, while the original
  computes `(wordCount / min) * 50` and `((wordCount - min) / (optimal - min)) * 50` in
  double precision before rounding. Where the exact value ends in .5 the double can fall just
  below it. At 87 and 171 words `Math.round` then gives 14 and 28 where the model gives 15 and
  29, and at 445 and 585 words 64 and 78 where the model gives 65 and 79. These four counts are
  the only ones below 800 where the two differ.
- SeoAnalyzer.WeightedScore: the original adds `(score / 100) * weight` in double precision
  and rounds `(earnedScore / totalWeight) * 100`. The model uses the exact sum and exact
  rounding, so where the exact weighted mean ends in .5 the original's score can be one lower.
- Message texts are built without float formatting; no property is stated about their wording.
- SeoAnalyzer.GenerateFeedback: the comparator `(a, b) => a.type === 'bad' ? -1 : 1` is not consistent, so the order it gives depends on the engine's sort. The model states the intended stable partition instead: bad first, then warnings, each in check order.
- SeoAnalyzer.Analyze: the eleven assignments to `results.checks` are taken as the list `ExpectedChecks` (the check plan with `Run` applied to each key), rather than as eleven separate statements.
