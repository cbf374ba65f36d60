/** The analyzer's entry point: run every check, combine the scores with the
    configured weights over the checks actually present, and list the checks
    that need attention with the bad ones first. */
module SeoAnalyzer {
  import opened Wrappers
  import opened SeoText
  import opened SeoLinks
  import opened SeoChecks

  datatype CheckKey =
    | TitleLength | DescriptionLength | KeyphraseInTitle | KeyphraseInDescription
    | KeyphraseInSlug | Keywords | KeyphraseInContent | KeyphraseDensity
    | ContentLength | ExternalLinks | InternalLinks

  /** The weight of each check in the final score. */
  function Weight(key: CheckKey): (w: nat)
    ensures w > 0
  {
    match key
    case TitleLength => 15
    case DescriptionLength => 15
    case KeyphraseInTitle => 15
    case KeyphraseInDescription => 10
    case KeyphraseInSlug => 10
    case Keywords => 5
    case KeyphraseInContent => 8
    case KeyphraseDensity => 8
    case ContentLength => 10
    case ExternalLinks => 5
    case InternalLinks => 4
  }

  /** The name under which a check appears in the feedback. */
  function DisplayName(key: CheckKey): string {
    match key
    case TitleLength => "SEO Title Length"
    case DescriptionLength => "Meta Description Length"
    case KeyphraseInTitle => "Keyphrase in Title"
    case KeyphraseInDescription => "Keyphrase in Description"
    case KeyphraseInSlug => "Keyphrase in URL"
    case Keywords => "Keywords"
    case KeyphraseInContent => "Keyphrase in Content"
    case KeyphraseDensity => "Keyphrase Density"
    case ContentLength => "Content Length"
    case ExternalLinks => "External Links"
    case InternalLinks => "Internal Links"
  }

  /** Distinct checks appear under distinct names in the feedback. */
  lemma DisplayNamesDistinct(a: CheckKey, b: CheckKey)
    requires a != b
    ensures DisplayName(a) != DisplayName(b)
  {
  }

  /** The checks that depend on the focus keyphrase. */
  predicate IsKeyphraseCheck(key: CheckKey) {
    key == KeyphraseInTitle || key == KeyphraseInDescription || key == KeyphraseInSlug
    || key == KeyphraseInContent || key == KeyphraseDensity
  }

  /** The editorial field values. `text` is the content with its markup
      stripped; `links` are the content's anchors with their resolved
      hostnames; `keywords` is absent when the caller does not supply it. */
  datatype AnalysisInput = AnalysisInput(
    title: string, description: string, keyphrase: string, slug: string,
    text: string, links: seq<Link>, keywords: Option<string>)

  datatype Entry = Entry(key: CheckKey, result: CheckResult)

  datatype FeedbackItem = FeedbackItem(kind: Status, check: string, message: string)

  datatype AnalysisResult = AnalysisResult(score: int, checks: seq<Entry>, feedback: seq<FeedbackItem>)

  // ---------------------------------------------------------------- the checks run

  /** The keys of `results.checks` in insertion order; the keywords check only
      runs when the keywords field is enabled. */
  function Plan(keywordsEnabled: bool): (keys: seq<CheckKey>)
    ensures Keywords in keys <==> keywordsEnabled
  {
    LeadingKeys + (if keywordsEnabled then [Keywords] else []) + TrailingKeys
  }

  const LeadingKeys := [TitleLength, DescriptionLength, KeyphraseInTitle, KeyphraseInDescription, KeyphraseInSlug]
  const TrailingKeys := [KeyphraseInContent, KeyphraseDensity, ContentLength, ExternalLinks, InternalLinks]

  /** The check stored under each key, applied to the fields it reads. */
  function Run(key: CheckKey, input: AnalysisInput, currentHost: string): (r: CheckResult)
    ensures 0 <= r.score <= 100
    ensures IsKeyphraseCheck(key) && Blank(input.keyphrase) ==> r.status == Neutral
  {
    match key
    case TitleLength => CheckTitleLength(input.title)
    case DescriptionLength => CheckDescriptionLength(input.description)
    case KeyphraseInTitle => CheckKeyphraseInTitle(input.title, input.keyphrase)
    case KeyphraseInDescription => CheckKeyphraseInDescription(input.description, input.keyphrase)
    case KeyphraseInSlug => CheckKeyphraseInSlug(input.slug, input.keyphrase)
    case Keywords => CheckKeywords(input.keywords)
    case KeyphraseInContent => CheckKeyphraseInContent(input.text, input.keyphrase)
    case KeyphraseDensity => CheckKeyphraseDensity(input.text, input.keyphrase)
    case ContentLength => CheckContentLength(input.text)
    case ExternalLinks => CheckExternalLinks(input.links, currentHost)
    case InternalLinks => CheckInternalLinks(input.links, currentHost)
  }

  function RunAll(keys: seq<CheckKey>, input: AnalysisInput, currentHost: string): seq<Entry> {
    seq(|keys|, i requires 0 <= i < |keys| => Entry(keys[i], Run(keys[i], input, currentHost)))
  }

  /** `results.checks` for an input. */
  function ExpectedChecks(input: AnalysisInput, currentHost: string, keywordsEnabled: bool): seq<Entry> {
    RunAll(Plan(keywordsEnabled), input, currentHost)
  }

  // ---------------------------------------------------------------- weighting

  predicate ScoresInRange(checks: seq<Entry>) {
    forall i :: 0 <= i < |checks| ==> 0 <= checks[i].result.score <= 100
  }

  /** Sum of score times weight: 100 times the original's `earnedScore`. */
  function Earned(checks: seq<Entry>): int {
    if checks == [] then 0
    else
      var last := checks[|checks| - 1];
      Earned(checks[..|checks| - 1]) + last.result.score * Weight(last.key)
  }

  /** Sum of the weights of the checks present: `totalWeight`. */
  function TotalWeight(checks: seq<Entry>): (n: nat)
    ensures n == 0 <==> checks == []
  {
    if checks == [] then 0
    else TotalWeight(checks[..|checks| - 1]) + Weight(checks[|checks| - 1].key)
  }

  /** Sum of the weights of a list of keys. */
  function KeysWeight(keys: seq<CheckKey>): nat {
    if keys == [] then 0 else KeysWeight(keys[..|keys| - 1]) + Weight(keys[|keys| - 1])
  }

  /** `Math.round((earnedScore / totalWeight) * 100)`. */
  function WeightedScore(checks: seq<Entry>): int
    requires TotalWeight(checks) > 0
  {
    RoundHalfUp(Earned(checks), TotalWeight(checks))
  }

  lemma {:induction false} EarnedBounds(checks: seq<Entry>)
    requires ScoresInRange(checks)
    ensures 0 <= Earned(checks) <= 100 * TotalWeight(checks)
    decreases |checks|
  {
    if checks != [] {
      var init, last := checks[..|checks| - 1], checks[|checks| - 1];
      assert ScoresInRange(init) by {
        forall i | 0 <= i < |init| ensures 0 <= init[i].result.score <= 100 {
          assert init[i] == checks[i];
        }
      }
      EarnedBounds(init);
      MulMonotone(Weight(last.key), 0, last.result.score);
      MulMonotone(Weight(last.key), last.result.score, 100);
    }
  }

  /** The final score lies in [0, 100] whenever every check's score does. */
  lemma WeightedScoreBounded(checks: seq<Entry>)
    requires ScoresInRange(checks) && TotalWeight(checks) > 0
    ensures 0 <= WeightedScore(checks) <= 100
  {
    var e, t := Earned(checks), TotalWeight(checks);
    EarnedBounds(checks);
    RoundHalfUpMonotone(0, e, t);
    RoundHalfUpExact(0, t, 0);
    RoundHalfUpMonotone(e, 100 * t, t);
    RoundHalfUpExact(100 * t, t, 100);
  }

  predicate AllPerfect(checks: seq<Entry>) {
    forall i :: 0 <= i < |checks| ==> checks[i].result.score == 100
  }

  lemma {:induction false} EarnedAllPerfect(checks: seq<Entry>)
    requires AllPerfect(checks)
    ensures Earned(checks) == 100 * TotalWeight(checks)
    decreases |checks|
  {
    if checks != [] {
      var init := checks[..|checks| - 1];
      assert AllPerfect(init) by {
        forall i | 0 <= i < |init| ensures init[i].result.score == 100 {
          assert init[i] == checks[i];
        }
      }
      EarnedAllPerfect(init);
    }
  }

  /** Checks that all score 100 give 100, whatever weights are present. */
  lemma AllPerfectScores100(checks: seq<Entry>)
    requires AllPerfect(checks) && TotalWeight(checks) > 0
    ensures WeightedScore(checks) == 100
  {
    EarnedAllPerfect(checks);
    RoundHalfUpExact(100 * TotalWeight(checks), TotalWeight(checks), 100);
  }

  lemma {:induction false} WeightsAppend(a: seq<Entry>, b: seq<Entry>)
    ensures TotalWeight(a + b) == TotalWeight(a) + TotalWeight(b)
    ensures Earned(a + b) == Earned(a) + Earned(b)
    decreases |b|
  {
    if b == [] {
      assert a + b == a;
    } else {
      var init := b[..|b| - 1];
      assert (a + b)[..|a + b| - 1] == a + init;
      assert (a + b)[|a + b| - 1] == b[|b| - 1];
      WeightsAppend(a, init);
    }
  }

  lemma {:induction false} KeysWeightAppend(a: seq<CheckKey>, b: seq<CheckKey>)
    ensures KeysWeight(a + b) == KeysWeight(a) + KeysWeight(b)
    decreases |b|
  {
    if b == [] {
      assert a + b == a;
    } else {
      assert (a + b)[..|a + b| - 1] == a + b[..|b| - 1];
      KeysWeightAppend(a, b[..|b| - 1]);
    }
  }

  lemma KeysWeightOfFive(a: CheckKey, b: CheckKey, c: CheckKey, d: CheckKey, e: CheckKey)
    ensures KeysWeight([a, b, c, d, e]) == Weight(a) + Weight(b) + Weight(c) + Weight(d) + Weight(e)
  {
    assert [a][..0] == [];
    assert KeysWeight([a]) == Weight(a);
    assert [a, b][..1] == [a];
    assert KeysWeight([a, b]) == Weight(a) + Weight(b);
    assert [a, b, c][..2] == [a, b];
    assert KeysWeight([a, b, c]) == Weight(a) + Weight(b) + Weight(c);
    assert [a, b, c, d][..3] == [a, b, c];
    assert KeysWeight([a, b, c, d]) == Weight(a) + Weight(b) + Weight(c) + Weight(d);
    assert [a, b, c, d, e][..4] == [a, b, c, d];
  }

  /** The configured weights add up to 105 with the keywords check and to 100
      without it. */
  lemma PlanWeights()
    ensures KeysWeight(Plan(true)) == 105
    ensures KeysWeight(Plan(false)) == 100
  {
    var lead, trail := LeadingKeys, TrailingKeys;
    KeysWeightOfFive(TitleLength, DescriptionLength, KeyphraseInTitle, KeyphraseInDescription, KeyphraseInSlug);
    KeysWeightOfFive(KeyphraseInContent, KeyphraseDensity, ContentLength, ExternalLinks, InternalLinks);
    assert [Keywords][..0] == [];
    KeysWeightAppend(lead, [Keywords]);
    KeysWeightAppend(lead + [Keywords], trail);
    KeysWeightAppend(lead, trail);
    assert Plan(false) == lead + trail;
  }

  lemma {:induction false} TotalWeightOfRun(keys: seq<CheckKey>, input: AnalysisInput, currentHost: string)
    ensures TotalWeight(RunAll(keys, input, currentHost)) == KeysWeight(keys)
    decreases |keys|
  {
    if keys != [] {
      var init := keys[..|keys| - 1];
      assert RunAll(keys, input, currentHost)[..|keys| - 1] == RunAll(init, input, currentHost);
      TotalWeightOfRun(init, input, currentHost);
    }
  }

  lemma RunAllAppend(a: seq<CheckKey>, b: seq<CheckKey>, input: AnalysisInput, currentHost: string)
    ensures RunAll(a + b, input, currentHost) == RunAll(a, input, currentHost) + RunAll(b, input, currentHost)
  {
    var l, ra, rb := RunAll(a + b, input, currentHost), RunAll(a, input, currentHost), RunAll(b, input, currentHost);
    forall i | 0 <= i < |l| ensures l[i] == (ra + rb)[i] {
      if i < |a| {
        assert (a + b)[i] == a[i];
      } else {
        assert (a + b)[i] == b[i - |a|];
      }
    }
  }

  /** Every check's score is in [0, 100], and the weights present add up to
      105 with the keywords check and to 100 without it. */
  lemma ExpectedChecksWellFormed(input: AnalysisInput, currentHost: string, keywordsEnabled: bool)
    ensures ScoresInRange(ExpectedChecks(input, currentHost, keywordsEnabled))
    ensures TotalWeight(ExpectedChecks(input, currentHost, keywordsEnabled)) == if keywordsEnabled then 105 else 100
  {
    TotalWeightOfRun(Plan(keywordsEnabled), input, currentHost);
    PlanWeights();
  }

  /** Disabling the keywords check removes exactly its weighted share from the
      earned score and its weight from the total; every other check is
      unchanged and the score is renormalised over what remains. */
  lemma KeywordsRenormalisation(input: AnalysisInput, currentHost: string)
    ensures var on, off := ExpectedChecks(input, currentHost, true), ExpectedChecks(input, currentHost, false);
            TotalWeight(on) == TotalWeight(off) + Weight(Keywords)
            && Earned(on) == Earned(off) + CheckKeywords(input.keywords).score * Weight(Keywords)
            && (forall i :: 0 <= i < |off| ==> off[i].key != Keywords)
  {
    var lead, trail := LeadingKeys, TrailingKeys;
    var l, k, t := RunAll(lead, input, currentHost), RunAll([Keywords], input, currentHost), RunAll(trail, input, currentHost);
    assert Plan(true) == lead + [Keywords] + trail;
    assert Plan(false) == lead + trail;
    RunAllAppend(lead, [Keywords], input, currentHost);
    RunAllAppend(lead + [Keywords], trail, input, currentHost);
    RunAllAppend(lead, trail, input, currentHost);
    WeightsAppend(l, k);
    WeightsAppend(l + k, t);
    WeightsAppend(l, t);
    assert k[..0] == [];
  }

  /** Disabling the keywords check removes its entry, the sixth, and leaves the
      other ten entries as they were, in the same order. */
  lemma OffIsOnWithoutKeywords(input: AnalysisInput, currentHost: string)
    ensures var on, off := ExpectedChecks(input, currentHost, true), ExpectedChecks(input, currentHost, false);
            |on| == 11 && on[5].key == Keywords && on[5].result == CheckKeywords(input.keywords)
            && off == on[..5] + on[6..]
  {
    var lead, trail := LeadingKeys, TrailingKeys;
    var l, k, t := RunAll(lead, input, currentHost), RunAll([Keywords], input, currentHost), RunAll(trail, input, currentHost);
    assert Plan(true) == lead + [Keywords] + trail;
    assert Plan(false) == lead + trail;
    RunAllAppend(lead, [Keywords], input, currentHost);
    RunAllAppend(lead + [Keywords], trail, input, currentHost);
    RunAllAppend(lead, trail, input, currentHost);
    var on := l + k + t;
    assert on[..5] == l;
    assert on[6..] == t;
    assert on[5] == k[0];
  }

  /** An input that scores 100 on every check scores 100 overall, with the
      keywords check on or off: disabling it does not cap the maximum. */
  lemma PerfectInputScores100EitherWay(input: AnalysisInput, currentHost: string)
    requires AllPerfect(ExpectedChecks(input, currentHost, true))
    ensures TotalWeight(ExpectedChecks(input, currentHost, true)) > 0
    ensures TotalWeight(ExpectedChecks(input, currentHost, false)) > 0
    ensures WeightedScore(ExpectedChecks(input, currentHost, true)) == 100
    ensures WeightedScore(ExpectedChecks(input, currentHost, false)) == 100
  {
    var on, off := ExpectedChecks(input, currentHost, true), ExpectedChecks(input, currentHost, false);
    ExpectedChecksWellFormed(input, currentHost, true);
    ExpectedChecksWellFormed(input, currentHost, false);
    assert AllPerfect(off) by {
      forall i | 0 <= i < |off| ensures off[i].result.score == 100 {
        var j := if i < 5 then i else i + 1;
        assert Plan(false)[i] == Plan(true)[j];
        assert off[i] == on[j];
      }
    }
    AllPerfectScores100(on);
    AllPerfectScores100(off);
  }

  /** Raising some check scores, with the same checks present, never lowers
      the final score. */
  lemma {:induction false} EarnedMonotone(a: seq<Entry>, b: seq<Entry>)
    requires |a| == |b|
    requires forall i :: 0 <= i < |a| ==> a[i].key == b[i].key && a[i].result.score <= b[i].result.score
    ensures TotalWeight(a) == TotalWeight(b)
    ensures Earned(a) <= Earned(b)
    decreases |a|
  {
    if a != [] {
      var n := |a| - 1;
      assert forall i :: 0 <= i < n ==> a[..n][i] == a[i] && b[..n][i] == b[i];
      EarnedMonotone(a[..n], b[..n]);
      MulMonotone(Weight(a[n].key), a[n].result.score, b[n].result.score);
    }
  }

  lemma WeightedScoreMonotone(a: seq<Entry>, b: seq<Entry>)
    requires |a| == |b| && TotalWeight(a) > 0
    requires forall i :: 0 <= i < |a| ==> a[i].key == b[i].key && a[i].result.score <= b[i].result.score
    ensures TotalWeight(b) > 0
    ensures WeightedScore(a) <= WeightedScore(b)
  {
    EarnedMonotone(a, b);
    RoundHalfUpMonotone(Earned(a), Earned(b), TotalWeight(a));
  }

  // ---------------------------------------------------------------- feedback

  predicate IsFlagged(status: Status) {
    status == Bad || status == Warning
  }

  function ItemOf(entry: Entry): FeedbackItem {
    FeedbackItem(entry.result.status, DisplayName(entry.key), entry.result.message)
  }

  /** The feedback items in check order, before sorting. */
  function Flagged(checks: seq<Entry>): (r: seq<FeedbackItem>)
    ensures forall i :: 0 <= i < |r| ==> IsFlagged(r[i].kind)
  {
    if checks == [] then []
    else
      var last := checks[|checks| - 1];
      Flagged(checks[..|checks| - 1]) + (if IsFlagged(last.result.status) then [ItemOf(last)] else [])
  }

  /** The items of one kind, in their original order. */
  function OfKind(items: seq<FeedbackItem>, kind: Status): (r: seq<FeedbackItem>)
    ensures forall i :: 0 <= i < |r| ==> r[i].kind == kind
    ensures |r| <= |items|
  {
    if items == [] then []
    else
      var last := items[|items| - 1];
      OfKind(items[..|items| - 1], kind) + (if last.kind == kind then [last] else [])
  }

  /** The stable partition the feedback sort is meant to perform. */
  function BadFirst(items: seq<FeedbackItem>): seq<FeedbackItem> {
    OfKind(items, Bad) + OfKind(items, Warning)
  }

  /** `results.feedback` for a set of check results. */
  function Feedback(checks: seq<Entry>): seq<FeedbackItem> {
    BadFirst(Flagged(checks))
  }

  /** A feedback item comes from exactly a check whose status is bad or warning. */
  lemma {:induction false} FlaggedExactly(checks: seq<Entry>, item: FeedbackItem)
    ensures item in Flagged(checks) <==>
            exists i :: 0 <= i < |checks| && IsFlagged(checks[i].result.status) && item == ItemOf(checks[i])
    decreases |checks|
  {
    if checks != [] {
      var init, last := checks[..|checks| - 1], checks[|checks| - 1];
      FlaggedExactly(init, item);
      if item in Flagged(init) {
        var i :| 0 <= i < |init| && IsFlagged(init[i].result.status) && item == ItemOf(init[i]);
        assert checks[i] == init[i];
      }
      if exists i :: 0 <= i < |checks| && IsFlagged(checks[i].result.status) && item == ItemOf(checks[i]) {
        var i :| 0 <= i < |checks| && IsFlagged(checks[i].result.status) && item == ItemOf(checks[i]);
        if i < |init| { assert init[i] == checks[i]; }
      }
    }
  }

  /** In the partition every bad item precedes every warning. */
  lemma BadFirstOrdered(items: seq<FeedbackItem>)
    ensures var r := BadFirst(items);
            forall i, j :: 0 <= i < j < |r| && r[j].kind == Bad ==> r[i].kind == Bad
  {
    var b, w := OfKind(items, Bad), OfKind(items, Warning);
    var r := b + w;
    forall i, j | 0 <= i < j < |r| && r[j].kind == Bad ensures r[i].kind == Bad {
      if j < |b| {
        assert r[i] == b[i];
      } else {
        assert false;
      }
    }
  }

  lemma OfKindSnoc(init: seq<FeedbackItem>, last: FeedbackItem, kind: Status)
    ensures OfKind(init + [last], kind) == OfKind(init, kind) + (if last.kind == kind then [last] else [])
  {
    assert (init + [last])[..|init|] == init;
  }

  /** The partition of bad and warning items is a permutation of them. */
  lemma {:induction false} BadFirstPermutation(items: seq<FeedbackItem>)
    requires forall i :: 0 <= i < |items| ==> IsFlagged(items[i].kind)
    ensures multiset(BadFirst(items)) == multiset(items)
    decreases |items|
  {
    if items != [] {
      var init, last := items[..|items| - 1], items[|items| - 1];
      assert items == init + [last];
      forall i | 0 <= i < |init| ensures IsFlagged(init[i].kind) {
        assert init[i] == items[i];
      }
      BadFirstPermutation(init);
      PermutationStep(init, last);
    }
  }

  lemma PermutationStep(init: seq<FeedbackItem>, last: FeedbackItem)
    requires multiset(BadFirst(init)) == multiset(init)
    requires IsFlagged(last.kind)
    ensures multiset(BadFirst(init + [last])) == multiset(init + [last])
  {
    MultisetStep(OfKind(init, Bad), OfKind(init, Warning), init, last);
    if last.kind == Bad {
      BadStep(init, last);
    } else {
      WarningStep(init, last);
    }
  }

  lemma BadStep(init: seq<FeedbackItem>, last: FeedbackItem)
    requires last.kind == Bad
    ensures BadFirst(init + [last]) == OfKind(init, Bad) + [last] + OfKind(init, Warning)
  {
    OfKindSnoc(init, last, Bad);
    OfKindSnoc(init, last, Warning);
  }

  lemma WarningStep(init: seq<FeedbackItem>, last: FeedbackItem)
    requires last.kind == Warning
    ensures BadFirst(init + [last]) == OfKind(init, Bad) + (OfKind(init, Warning) + [last])
  {
    OfKindSnoc(init, last, Bad);
    OfKindSnoc(init, last, Warning);
  }

  lemma MultisetStep(b: seq<FeedbackItem>, w: seq<FeedbackItem>, init: seq<FeedbackItem>, last: FeedbackItem)
    requires multiset(b + w) == multiset(init)
    ensures multiset(b + [last] + w) == multiset(init + [last])
    ensures multiset(b + (w + [last])) == multiset(init + [last])
  {
    assert multiset(b + [last] + w) == multiset(b) + multiset{last} + multiset(w);
    assert multiset(b + (w + [last])) == multiset(b) + multiset(w) + multiset{last};
  }

  lemma {:induction false} OfKindAppend(a: seq<FeedbackItem>, b: seq<FeedbackItem>, kind: Status)
    ensures OfKind(a + b, kind) == OfKind(a, kind) + OfKind(b, kind)
    decreases |b|
  {
    if b == [] {
      assert a + b == a;
    } else {
      var init := b[..|b| - 1];
      assert (a + b)[..|a + b| - 1] == a + init;
      assert (a + b)[|a + b| - 1] == b[|b| - 1];
      OfKindAppend(a, init, kind);
    }
  }

  lemma {:induction false} OfKindOfUniform(items: seq<FeedbackItem>, kind: Status, other: Status)
    requires forall i :: 0 <= i < |items| ==> items[i].kind == kind
    ensures OfKind(items, kind) == items
    ensures other != kind ==> OfKind(items, other) == []
    decreases |items|
  {
    if items != [] {
      OfKindOfUniform(items[..|items| - 1], kind, other);
    }
  }

  /** The partition keeps the source order within each kind. */
  lemma BadFirstStable(items: seq<FeedbackItem>)
    ensures OfKind(BadFirst(items), Bad) == OfKind(items, Bad)
    ensures OfKind(BadFirst(items), Warning) == OfKind(items, Warning)
  {
    var b, w := OfKind(items, Bad), OfKind(items, Warning);
    OfKindAppend(b, w, Bad);
    OfKindAppend(b, w, Warning);
    OfKindOfUniform(b, Bad, Warning);
    OfKindOfUniform(w, Warning, Bad);
    assert b + [] == b;
    assert [] + w == w;
  }

  /** Two warnings interleaved with two bad results come out bad, bad,
      warning, warning, each kind in its original order. */
  lemma BadFirstExample()
    ensures var w1, b1, w2, b2 := FeedbackItem(Warning, "A", ""), FeedbackItem(Bad, "B", ""),
                                  FeedbackItem(Warning, "C", ""), FeedbackItem(Bad, "D", "");
            BadFirst([w1, b1, w2, b2]) == [b1, b2, w1, w2]
  {
    var w1, b1, w2, b2 := FeedbackItem(Warning, "A", ""), FeedbackItem(Bad, "B", ""),
                          FeedbackItem(Warning, "C", ""), FeedbackItem(Bad, "D", "");
    OfKindSnoc([], w1, Bad);
    OfKindSnoc([], w1, Warning);
    OfKindSnoc([w1], b1, Bad);
    OfKindSnoc([w1], b1, Warning);
    assert [w1] + [b1] == [w1, b1];
    OfKindSnoc([w1, b1], w2, Bad);
    OfKindSnoc([w1, b1], w2, Warning);
    assert [w1, b1] + [w2] == [w1, b1, w2];
    OfKindSnoc([w1, b1, w2], b2, Bad);
    OfKindSnoc([w1, b1, w2], b2, Warning);
    assert [w1, b1, w2] + [b2] == [w1, b1, w2, b2];
  }

  /** `generateFeedback`: collect the bad and warning checks in order, then
      put the bad ones first, keeping the order within each kind. */
  method GenerateFeedback(checks: seq<Entry>) returns (feedback: seq<FeedbackItem>)
    ensures feedback == Feedback(checks)
    ensures multiset(feedback) == multiset(Flagged(checks))
    ensures forall i, j :: 0 <= i < j < |feedback| && feedback[j].kind == Bad ==> feedback[i].kind == Bad
    ensures OfKind(feedback, Bad) == OfKind(Flagged(checks), Bad)
    ensures OfKind(feedback, Warning) == OfKind(Flagged(checks), Warning)
  {
    var collected: seq<FeedbackItem> := [];
    var i := 0;
    while i < |checks|
      invariant 0 <= i <= |checks|
      invariant collected == Flagged(checks[..i])
    {
      var check := checks[i];
      assert checks[..i + 1][..i] == checks[..i];
      if check.result.status == Bad || check.result.status == Warning {
        collected := collected + [FeedbackItem(check.result.status, DisplayName(check.key), check.result.message)];
      }
      i := i + 1;
    }
    assert checks[..|checks|] == checks;

    // `feedback.sort(...)`: bad items first, order otherwise kept.
    feedback := BadFirst(collected);

    BadFirstPermutation(collected);
    BadFirstOrdered(collected);
    BadFirstStable(collected);
  }

  // ---------------------------------------------------------------- analyze

  /** The `forEach` over `results.checks`: each check adds its weight to the
      total and its score times its weight to the earned sum. */
  method WeighChecks(checks: seq<Entry>) returns (earnedScore: int, totalWeight: int)
    ensures earnedScore == Earned(checks)
    ensures totalWeight == TotalWeight(checks)
  {
    earnedScore := 0;
    totalWeight := 0;
    var i := 0;
    while i < |checks|
      invariant 0 <= i <= |checks|
      invariant earnedScore == Earned(checks[..i])
      invariant totalWeight == TotalWeight(checks[..i])
    {
      var check := checks[i];
      assert checks[..i + 1][..i] == checks[..i];
      var weight := Weight(check.key);
      totalWeight := totalWeight + weight;
      earnedScore := earnedScore + check.result.score * weight;
      i := i + 1;
    }
    assert checks[..|checks|] == checks;
  }

  /** `analyze`: the checks run in their fixed order (keywords only when that
      field is enabled), the weighted score over the checks present, and the
      feedback. */
  method Analyze(input: AnalysisInput, currentHost: string, keywordsEnabled: bool)
    returns (results: AnalysisResult)
    ensures results.checks == ExpectedChecks(input, currentHost, keywordsEnabled)
    ensures TotalWeight(results.checks) > 0 && results.score == WeightedScore(results.checks)
    ensures 0 <= results.score <= 100
    ensures results.feedback == Feedback(results.checks)
  {
    // The assignments to `results.checks`, in insertion order.
    var checks := ExpectedChecks(input, currentHost, keywordsEnabled);
    var earnedScore, totalWeight := WeighChecks(checks);

    ExpectedChecksWellFormed(input, currentHost, keywordsEnabled);
    WeightedScoreBounded(checks);
    var score := RoundHalfUp(earnedScore, totalWeight);
    var feedback := GenerateFeedback(checks);
    results := AnalysisResult(score, checks, feedback);
  }

  // ---------------------------------------------------------------- keyphrase

  /** Checks that are neutral never reach the feedback. */
  lemma NeutralKeyphraseChecksGiveNoFeedback(checks: seq<Entry>)
    requires forall i :: 0 <= i < |checks| && IsKeyphraseCheck(checks[i].key) ==> checks[i].result.status == Neutral
    ensures forall item, k :: item in Feedback(checks) && IsKeyphraseCheck(k) ==> item.check != DisplayName(k)
  {
    var flagged := Flagged(checks);
    BadFirstPermutation(flagged);
    forall item, k | item in Feedback(checks) && IsKeyphraseCheck(k) ensures item.check != DisplayName(k) {
      assert item in multiset(Feedback(checks));
      assert item in flagged;
      FlaggedExactly(checks, item);
      var i :| 0 <= i < |checks| && IsFlagged(checks[i].result.status) && item == ItemOf(checks[i]);
      DisplayNamesDistinct(k, checks[i].key);
    }
  }

  /** Without a keyphrase every keyphrase check is neutral, so none of them
      appears in the feedback. */
  lemma BlankKeyphraseGivesNoKeyphraseFeedback(input: AnalysisInput, currentHost: string, keywordsEnabled: bool)
    requires Blank(input.keyphrase)
    ensures var checks := ExpectedChecks(input, currentHost, keywordsEnabled);
            forall i :: 0 <= i < |checks| && IsKeyphraseCheck(checks[i].key) ==> checks[i].result.status == Neutral
    ensures forall item, k :: item in Feedback(ExpectedChecks(input, currentHost, keywordsEnabled)) && IsKeyphraseCheck(k)
                              ==> item.check != DisplayName(k)
  {
    NeutralKeyphraseChecksGiveNoFeedback(ExpectedChecks(input, currentHost, keywordsEnabled));
  }
}
