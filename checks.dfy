/** The eleven checks of the analyzer. Each maps field values to a score in
    [0, 100], a status, a message and the measured value. The floating-point
    ratios of the original are exact rational comparisons here. */
module SeoChecks {
  import opened Wrappers
  import opened SeoText
  import opened SeoLinks

  datatype Status = Good | Warning | Bad | Neutral

  /** The measured quantity a check reports. `Density(o, w)` stands for the
      percentage o / w * 100. */
  datatype Value = Number(n: nat) | Flag(b: bool) | Density(occurrences: nat, words: nat)

  datatype CheckResult = CheckResult(score: int, status: Status, message: string, value: Value)

  // Thresholds of the analyzer's configuration.
  const TitleMin: nat := 30
  const TitleMax: nat := 60
  const TitleOptimal: nat := 50
  const DescriptionMin: nat := 120
  const DescriptionMax: nat := 160
  const DescriptionOptimal: nat := 140
  const KeywordsMin: nat := 3
  const KeywordsOptimal: nat := 7
  const KeywordsMax: nat := 15
  /** Density bounds in tenths of a percent: 0.5 and 2.5. */
  const DensityMinTenths: nat := 5
  const DensityMaxTenths: nat := 25
  const ContentMin: nat := 300
  const ContentOptimal: nat := 800

  function Abs(x: int): nat {
    if x < 0 then -x else x
  }

  /** `Math.round(n / d)`: the nearest integer, halves rounded up. */
  function RoundHalfUp(n: int, d: int): (r: int)
    requires d > 0
    ensures 2 * d * r <= 2 * n + d < 2 * d * r + 2 * d
  {
    (2 * n + d) / (2 * d)
  }

  lemma {:induction false} MulMonotone(k: nat, x: int, y: int)
    requires x <= y
    ensures k * x <= k * y
  {
    if k > 0 {
      MulMonotone(k - 1, x, y);
      assert k * x == (k - 1) * x + x && k * y == (k - 1) * y + y;
    }
  }

  lemma RoundHalfUpMonotone(n1: int, n2: int, d: int)
    requires d > 0 && n1 <= n2
    ensures RoundHalfUp(n1, d) <= RoundHalfUp(n2, d)
  {
    var r1, r2 := RoundHalfUp(n1, d), RoundHalfUp(n2, d);
    if r1 > r2 {
      MulMonotone(2 * d, r2 + 1, r1);
      assert false;
    }
  }

  lemma RoundHalfUpExact(n: int, d: int, q: int)
    requires d > 0 && n == q * d
    ensures RoundHalfUp(n, d) == q
  {
    var r := RoundHalfUp(n, d);
    assert 2 * n + d == 2 * d * q + d;
    if r > q {
      MulMonotone(2 * d, q + 1, r);
      assert false;
    } else if r < q {
      MulMonotone(2 * d, r + 1, q);
      assert false;
    }
  }

  const NoKeyphraseMessage := "Set a focus keyphrase"

  // ---------------------------------------------------------------- lengths

  /** The banding of `checkTitleLength` for a trimmed length. */
  function TitleLengthResult(length: nat): (r: CheckResult)
    ensures r.value == Number(length)
    ensures 0 <= r.score <= 100
    ensures r.status == Bad <==> length == 0
    ensures r.status == Good <==> TitleMin <= length <= TitleMax
    ensures r.status != Neutral
    ensures r.status == Good ==> r.score >= 60
    ensures r.status == Warning ==> 0 < r.score <= 70
    ensures r.score == 100 <==> length == TitleOptimal
    ensures 0 < length < TitleMin ==> r.score == 2 * length
    ensures length == 0 ==> r.score == 0
    ensures length > TitleMax ==> r.score == 70
    ensures TitleMin <= length <= TitleMax ==> r.score == 100 - 2 * Abs(length - TitleOptimal)
  {
    if length == 0 then
      CheckResult(0, Bad, "No SEO title set.", Number(length))
    else if length < TitleMin then
      RoundHalfUpExact(length * 60, TitleMin, 2 * length);
      CheckResult(RoundHalfUp(length * 60, TitleMin), Warning,
                  "Title too short (" + NatToString(length) + "/" + NatToString(TitleMin)
                  + "-" + NatToString(TitleMax) + " chars)", Number(length))
    else if length > TitleMax then
      CheckResult(70, Warning,
                  "Title too long (" + NatToString(length) + "/" + NatToString(TitleMax)
                  + " chars max)", Number(length))
    else
      assert Abs(length - TitleOptimal) <= 20;
      CheckResult(100 - Abs(length - TitleOptimal) * 2, Good,
                  "Title length perfect (" + NatToString(length) + " chars)", Number(length))
  }

  /** `checkTitleLength`. */
  function CheckTitleLength(title: string): (r: CheckResult)
    ensures 0 <= r.score <= 100
    ensures r.value == Number(|Trim(title)|)
    ensures r.status == Bad <==> Blank(title)
  {
    TitleLengthResult(|Trim(title)|)
  }

  /** The title score rises up to the optimal length and falls after it. */
  lemma TitleScoreUnimodal(a: nat, b: nat)
    requires a <= b
    ensures b <= TitleOptimal ==> TitleLengthResult(a).score <= TitleLengthResult(b).score
    ensures TitleOptimal <= a ==> TitleLengthResult(a).score >= TitleLengthResult(b).score
  {
  }

  /** The good band starts at 60, not higher: the shortest good title scores
      below an overlong one. */
  lemma ShortestGoodTitleScoresBelowOverlong()
    ensures TitleLengthResult(TitleMin).status == Good && TitleLengthResult(TitleMin).score == 60
    ensures TitleLengthResult(TitleMax + 1).status == Warning && TitleLengthResult(TitleMax + 1).score == 70
  {
  }

  /** The banding of `checkDescriptionLength` for a trimmed length. */
  function DescriptionLengthResult(length: nat): (r: CheckResult)
    ensures r.value == Number(length)
    ensures 0 <= r.score <= 100
    ensures r.status == Bad <==> length == 0
    ensures r.status == Good <==> DescriptionMin <= length <= DescriptionMax
    ensures r.status != Neutral
    ensures r.status == Good ==> r.score >= 80
    ensures r.status == Warning ==> 0 < r.score <= 60
    ensures r.score == 100 <==> length == DescriptionOptimal
    ensures 0 < length < DescriptionMin ==> r.score == (length + 1) / 2
    ensures length == 0 ==> r.score == 0
    ensures length > DescriptionMax ==> r.score == 60
    ensures DescriptionMin <= length <= DescriptionMax ==> r.score == 100 - Abs(length - DescriptionOptimal)
  {
    if length == 0 then
      CheckResult(0, Bad, "No meta description set.", Number(length))
    else if length < DescriptionMin then
      CheckResult(RoundHalfUp(length * 60, DescriptionMin), Warning,
                  "Description too short (" + NatToString(length) + "/" + NatToString(DescriptionMin)
                  + "-" + NatToString(DescriptionMax) + " chars)", Number(length))
    else if length > DescriptionMax then
      CheckResult(60, Warning,
                  "Description too long (" + NatToString(length) + "/" + NatToString(DescriptionMax)
                  + " chars max)", Number(length))
    else
      CheckResult(100 - Abs(length - DescriptionOptimal), Good,
                  "Description length perfect (" + NatToString(length) + " chars)", Number(length))
  }

  /** `checkDescriptionLength`. */
  function CheckDescriptionLength(description: string): (r: CheckResult)
    ensures 0 <= r.score <= 100
    ensures r.value == Number(|Trim(description)|)
    ensures r.status == Bad <==> Blank(description)
  {
    DescriptionLengthResult(|Trim(description)|)
  }

  /** The description score rises up to the optimal length and falls after it. */
  lemma DescriptionScoreUnimodal(a: nat, b: nat)
    requires a <= b
    ensures b <= DescriptionOptimal ==> DescriptionLengthResult(a).score <= DescriptionLengthResult(b).score
    ensures DescriptionOptimal <= a ==> DescriptionLengthResult(a).score >= DescriptionLengthResult(b).score
  {
    if 0 < a && b < DescriptionMin {
      RoundHalfUpMonotone(a * 60, b * 60, DescriptionMin);
    }
  }

  // ---------------------------------------------------------------- keywords

  /** One piece after `trim`, kept only when it is not empty. */
  function KeptPiece(piece: string): (r: seq<string>)
    ensures r == [] <==> Blank(piece)
    ensures r != [] ==> r == [Trim(piece)] && r[0] != [] && Trim(r[0]) == r[0]
  {
    var t := Trim(piece);
    TrimOfTrimmed(t);
    if t == [] then [] else [t]
  }

  /** The trimmed, non-empty pieces among `parts`, in order. */
  function TrimmedNonEmpty(parts: seq<string>): (r: seq<string>)
    ensures |r| <= |parts|
    ensures forall k :: 0 <= k < |r| ==> r[k] != [] && Trim(r[k]) == r[k]
    ensures (forall k :: 0 <= k < |parts| ==> Blank(parts[k])) ==> r == []
  {
    if parts == [] then []
    else
      var head := KeptPiece(parts[0]);
      var tail := TrimmedNonEmpty(parts[1..]);
      AllTrimmedAppend(head, tail);
      BlankPartsTail(parts);
      head + tail
  }

  lemma AllTrimmedAppend(u: seq<string>, v: seq<string>)
    requires forall k :: 0 <= k < |u| ==> u[k] != [] && Trim(u[k]) == u[k]
    requires forall k :: 0 <= k < |v| ==> v[k] != [] && Trim(v[k]) == v[k]
    ensures forall k :: 0 <= k < |u + v| ==> (u + v)[k] != [] && Trim((u + v)[k]) == (u + v)[k]
  {
    forall k | 0 <= k < |u + v| ensures (u + v)[k] != [] && Trim((u + v)[k]) == (u + v)[k] {
      if k < |u| {
        assert (u + v)[k] == u[k];
      } else {
        assert (u + v)[k] == v[k - |u|];
      }
    }
  }

  lemma BlankPartsTail(parts: seq<string>)
    requires parts != []
    ensures (forall k :: 0 <= k < |parts| ==> Blank(parts[k]))
            ==> Blank(parts[0]) && forall k :: 0 <= k < |parts[1..]| ==> Blank(parts[1..][k])
  {
    if forall k :: 0 <= k < |parts| ==> Blank(parts[k]) {
      forall k | 0 <= k < |parts[1..]| ensures Blank(parts[1..][k]) {
        assert parts[1..][k] == parts[k + 1];
      }
    }
  }

  lemma TrimOfTrimmed(t: string)
    requires t == [] || (!IsWhitespace(t[0]) && !IsWhitespace(t[|t| - 1]))
    ensures Trim(t) == t
  {
    if t != [] {
      assert LeadingWhitespace(t) == 0;
      assert t[0..] == t;
    }
  }

  /** `keywords.split(',').map(k => k.trim()).filter(k => k.length > 0)`. */
  function KeywordList(keywords: string): (r: seq<string>)
    ensures forall k :: 0 <= k < |r| ==> r[k] != [] && Trim(r[k]) == r[k]
  {
    TrimmedNonEmpty(Split(keywords, ','))
  }

  /** A blank keyword field yields no keywords: every piece between commas is blank. */
  lemma BlankKeywordsHaveNone(keywords: string)
    requires Blank(keywords)
    ensures KeywordList(keywords) == []
  {
    var parts := Split(keywords, ',');
    forall k | 0 <= k < |parts| ensures Blank(parts[k]) {
      forall i | 0 <= i < |parts[k]| ensures IsWhitespace(parts[k][i]) {
        JoinKeepsCharacters(parts, ',', k, i);
      }
    }
  }

  lemma {:induction false} TrimmedNonEmptyAppend(p: seq<string>, q: seq<string>)
    ensures TrimmedNonEmpty(p + q) == TrimmedNonEmpty(p) + TrimmedNonEmpty(q)
    decreases |p|
  {
    if p == [] {
      assert p + q == q;
    } else {
      DropOfAppend(p, q, 1);
      TrimmedNonEmptyAppend(p[1..], q);
      AppendAssoc(KeptPiece(p[0]), TrimmedNonEmpty(p[1..]), TrimmedNonEmpty(q));
    }
  }

  /** The keywords of a comma-joined field are those of each side, in order. */
  lemma KeywordListAround(a: string, b: string)
    ensures KeywordList(a + "," + b) == KeywordList(a) + KeywordList(b)
  {
    SplitAround(a, ',', b);
    TrimmedNonEmptyAppend(Split(a, ','), Split(b, ','));
  }

  /** A field without a comma is one keyword, trimmed, unless it is blank. */
  lemma KeywordListOfPiece(s: string)
    requires ',' !in s
    ensures KeywordList(s) == if Blank(s) then [] else [Trim(s)]
  {
    SplitWithoutSeparator(s, ',');
    assert [s][1..] == [];
  }

  /** The number of keywords; an absent field has none. */
  function KeywordCount(keywords: Option<string>): (n: nat)
    ensures keywords.None? ==> n == 0
  {
    match keywords
    case None => 0
    case Some(s) => |KeywordList(s)|
  }

  /** The banding of `checkKeywords` for a keyword count. */
  function KeywordsResult(count: nat): (r: CheckResult)
    ensures r.value == Number(count)
    ensures 40 <= r.score <= 100
    ensures r.status == Good || r.status == Warning
    ensures r.status == Good <==> KeywordsMin <= count <= KeywordsMax
    ensures r.score == 100 <==> KeywordsOptimal <= count <= KeywordsMax
    ensures r.status == Warning ==> r.score <= 70
    ensures r.status == Good ==> r.score >= 85
    ensures count == 0 ==> r.score == 40
    ensures 0 < count < KeywordsMin ==> r.score == 60
    ensures KeywordsMin <= count < KeywordsOptimal ==> r.score == 85
    ensures count > KeywordsMax ==> r.score == 70
  {
    if count == 0 then
      CheckResult(40, Warning, "No keywords added", Number(0))
    else if count < KeywordsMin then
      CheckResult(60, Warning, "Only " + NatToString(count) + " keyword(s) - add more", Number(count))
    else if KeywordsOptimal <= count <= KeywordsMax then
      CheckResult(100, Good, NatToString(count) + " keyword(s) (optimal)", Number(count))
    else if count > KeywordsMax then
      CheckResult(70, Warning, NatToString(count) + " keywords - may be too many", Number(count))
    else
      CheckResult(85, Good, NatToString(count) + " keyword(s)", Number(count))
  }

  /** `checkKeywords`: an absent or blank field is reported before counting,
      with the same score, status and value the count of zero would give. */
  function CheckKeywords(keywords: Option<string>): (r: CheckResult)
    ensures 40 <= r.score <= 100
    ensures r.score == KeywordsResult(KeywordCount(keywords)).score
    ensures r.status == KeywordsResult(KeywordCount(keywords)).status
    ensures r.value == Number(KeywordCount(keywords))
  {
    if keywords.None? || Trim(keywords.value) == [] then
      assert KeywordCount(keywords) == 0 by {
        if keywords.Some? { BlankKeywordsHaveNone(keywords.value); }
      }
      CheckResult(40, Warning, "No keywords specified", Number(0))
    else
      KeywordsResult(|KeywordList(keywords.value)|)
  }

  // ---------------------------------------------------------------- keyphrase

  /** `checkKeyphraseInTitle`: the lower-cased keyphrase searched in the
      lower-cased title, scored by the position of its first occurrence. */
  function CheckKeyphraseInTitle(title: string, keyphrase: string): (r: CheckResult)
    ensures r.status == Neutral <==> Blank(keyphrase)
    ensures r.status == Good <==> !Blank(keyphrase) && Occurs(Lower(title), Lower(keyphrase))
    ensures r.status == Bad <==> !Blank(keyphrase) && !Occurs(Lower(title), Lower(keyphrase))
    ensures r.value == Flag(r.status == Good)
    ensures r.status != Good ==> r.score == 0
    ensures r.status == Good ==> 75 <= r.score <= 100
    ensures 0 <= r.score <= 100
    ensures r.score == 100 <==> !Blank(keyphrase) && MatchesAt(Lower(title), Lower(keyphrase), 0)
    ensures r.score >= 90 <==> (!Blank(keyphrase)
                                && exists i :: 0 <= i < 10 && MatchesAt(Lower(title), Lower(keyphrase), i))
    ensures r.score == 0 || r.score == 75 || r.score == 90 || r.score == 100
  {
    if Blank(keyphrase) then
      CheckResult(0, Neutral, NoKeyphraseMessage, Flag(false))
    else
      var titleLower := Lower(title);
      var keyphraseLower := Lower(keyphrase);
      var position := IndexOf(titleLower, keyphraseLower);
      if position >= 0 then
        var score := if position == 0 then 100 else if position < 10 then 90 else 75;
        CheckResult(score, Good,
                    if position == 0 then "Keyphrase at start of title!" else "Keyphrase in title",
                    Flag(true))
      else
        CheckResult(0, Bad, "Keyphrase not in title", Flag(false))
  }

  /** `checkKeyphraseInDescription`: a case-insensitive containment test. */
  function CheckKeyphraseInDescription(description: string, keyphrase: string): (r: CheckResult)
    ensures r.status == Neutral <==> Blank(keyphrase)
    ensures r.status == Good <==> !Blank(keyphrase) && Occurs(Lower(description), Lower(keyphrase))
    ensures r.status == Bad <==> !Blank(keyphrase) && !Occurs(Lower(description), Lower(keyphrase))
    ensures r.value == Flag(r.status == Good)
    ensures r.score == (if r.status == Good then 100 else 0)
  {
    if Blank(keyphrase) then
      CheckResult(0, Neutral, NoKeyphraseMessage, Flag(false))
    else if IndexOf(Lower(description), Lower(keyphrase)) >= 0 then
      CheckResult(100, Good, "Keyphrase in description", Flag(true))
    else
      CheckResult(0, Bad, "Keyphrase not in description", Flag(false))
  }

  /** The form the keyphrase takes in a slug: lower case, white-space runs as '-'. */
  function SlugForm(keyphrase: string): (r: string)
    ensures NoWhitespace(r) && !HasUpper(r)
  {
    var l := Lower(keyphrase);
    var r := HyphenateWhitespace(l);
    assert !HasUpper(r) by {
      HyphenateWhitespaceKeepsLower(l);
    }
    r
  }

  lemma {:induction false} HyphenateWhitespaceKeepsLower(s: string)
    requires !HasUpper(s)
    ensures !HasUpper(HyphenateWhitespace(s))
    decreases |s|
  {
    if s != [] {
      var tail := if IsWhitespace(s[0]) then s[LeadingWhitespace(s)..] else s[1..];
      assert !HasUpper(tail) by {
        forall i | 0 <= i < |tail| ensures !IsUpper(tail[i]) {
          assert tail[i] == s[|s| - |tail| + i];
        }
      }
      HyphenateWhitespaceKeepsLower(tail);
      var r := HyphenateWhitespace(s);
      assert forall i :: 1 <= i < |r| ==> r[i] == HyphenateWhitespace(tail)[i - 1];
      assert !IsUpper(r[0]);
    }
  }

  lemma LowerAppend(a: string, b: string)
    ensures Lower(a + b) == Lower(a) + Lower(b)
  {
    assert forall i :: 0 <= i < |a + b| ==> Lower(a + b)[i] == (Lower(a) + Lower(b))[i];
  }

  /** Lower-casing neither creates nor removes white space. */
  lemma LowerCharKeepsWhitespace(c: char)
    ensures IsWhitespace(LowerChar(c)) <==> IsWhitespace(c)
  {
    if IsUpper(c) {
      assert 'a' <= LowerChar(c) <= 'z';
    }
  }

  lemma LowerKeepsWordsAndBlanks(s: string)
    ensures NoWhitespace(s) ==> NoWhitespace(Lower(s))
    ensures Blank(s) ==> Blank(Lower(s))
  {
    forall i | 0 <= i < |s| ensures IsWhitespace(Lower(s)[i]) <==> IsWhitespace(s[i]) {
      LowerCharKeepsWhitespace(s[i]);
    }
  }

  /** A keyphrase without white space appears in a slug lower-cased. */
  lemma SlugFormOfWord(w: string)
    requires NoWhitespace(w)
    ensures SlugForm(w) == Lower(w)
  {
    LowerKeepsWordsAndBlanks(w);
  }

  /** Each white-space run between two pieces of the keyphrase becomes one '-'. */
  lemma SlugFormAroundRun(a: string, ws: string, b: string)
    requires ws != [] && Blank(ws)
    requires a == [] || !IsWhitespace(a[|a| - 1])
    requires b == [] || !IsWhitespace(b[0])
    ensures SlugForm(a + ws + b) == SlugForm(a) + "-" + SlugForm(b)
  {
    LowerAppend(a + ws, b);
    LowerAppend(a, ws);
    LowerKeepsWordsAndBlanks(ws);
    if a != [] { LowerCharKeepsWhitespace(a[|a| - 1]); }
    if b != [] { LowerCharKeepsWhitespace(b[0]); }
    HyphenateAroundRun(Lower(a), Lower(ws), Lower(b));
  }

  /** `checkKeyphraseInSlug`: a miss is only a warning. */
  function CheckKeyphraseInSlug(slug: string, keyphrase: string): (r: CheckResult)
    ensures r.status == Neutral <==> Blank(keyphrase)
    ensures r.status == Good <==> !Blank(keyphrase) && Occurs(Lower(slug), SlugForm(keyphrase))
    ensures r.status == Warning <==> !Blank(keyphrase) && !Occurs(Lower(slug), SlugForm(keyphrase))
    ensures r.value == Flag(r.status == Good)
    ensures r.score == (if r.status == Good then 100 else 0)
  {
    if Blank(keyphrase) then
      CheckResult(0, Neutral, NoKeyphraseMessage, Flag(false))
    else if IndexOf(Lower(slug), SlugForm(keyphrase)) >= 0 then
      CheckResult(100, Good, "Keyphrase in URL", Flag(true))
    else
      CheckResult(0, Warning, "Keyphrase not in URL", Flag(false))
  }

  /** The occurrence count of `checkKeyphraseInContent`: a global,
      case-insensitive match of the literal, untrimmed keyphrase. */
  function ContentOccurrences(text: string, keyphrase: string): (n: nat)
    requires !Blank(keyphrase)
    ensures n == 0 <==> !Occurs(Lower(text), Lower(keyphrase))
  {
    CountIgnoringCaseIsCountOfLowered(text, keyphrase);
    CountZeroIffAbsent(Lower(text), Lower(keyphrase));
    CountMatchesIgnoringCase(text, keyphrase)
  }

  /** `checkKeyphraseInContent` on the plain text of the content. */
  function CheckKeyphraseInContent(text: string, keyphrase: string): (r: CheckResult)
    ensures r.status == Neutral <==> Blank(keyphrase)
    ensures r.status == Bad <==> !Blank(keyphrase) && !Occurs(Lower(text), Lower(keyphrase))
    ensures r.value == Number(if Blank(keyphrase) then 0 else ContentOccurrences(text, keyphrase))
    ensures r.status == Good <==> !Blank(keyphrase) && ContentOccurrences(text, keyphrase) >= 3
    ensures r.status == Warning ==> r.score == 60
    ensures r.status == Good ==> r.score == 100
    ensures 0 <= r.score <= 100 && (r.score == 0 <==> r.status == Bad || r.status == Neutral)
  {
    if Blank(keyphrase) then
      CheckResult(0, Neutral, NoKeyphraseMessage, Number(0))
    else
      var count := ContentOccurrences(text, keyphrase);
      if count == 0 then
        CheckResult(0, Bad, "Keyphrase not in content", Number(0))
      else if count < 3 then
        CheckResult(60, Warning, "Keyphrase appears " + NatToString(count) + " time(s)", Number(count))
      else
        CheckResult(100, Good, "Keyphrase appears " + NatToString(count) + " times", Number(count))
  }

  /** The occurrence count of `checkKeyphraseDensity`: the regular expression
      has no `i` flag and is matched against the lower-cased text. */
  function DensityOccurrences(text: string, keyphrase: string): (n: nat)
    requires !Blank(keyphrase)
    ensures n == 0 <==> !Occurs(Lower(text), keyphrase)
  {
    CountZeroIffAbsent(Lower(text), keyphrase);
    CountMatches(Lower(text), keyphrase)
  }

  /** `checkKeyphraseDensity`. Density o / w * 100 below 0.5 is
      `1000 * o < 5 * w`; above 2.5 is `1000 * o > 25 * w`. */
  function CheckKeyphraseDensity(text: string, keyphrase: string): (r: CheckResult)
    ensures r.status == Neutral <==> Blank(keyphrase) || Blank(text)
    ensures r.status == Bad <==> !Blank(keyphrase) && !Blank(text) && !Occurs(Lower(text), keyphrase)
    ensures !r.value.Density? ==> r.value == Number(0) && r.score == 0
    ensures r.value.Density? ==> !Blank(keyphrase) && r.value.words == WordCount(text)
                                 && r.value.occurrences == DensityOccurrences(text, keyphrase) > 0
    ensures r.status == Good <==> r.value.Density?
                                  && DensityMinTenths * r.value.words <= 1000 * r.value.occurrences
                                  && 1000 * r.value.occurrences <= DensityMaxTenths * r.value.words
    ensures 0 <= r.score <= 100 && (r.score == 100 <==> r.status == Good)
    ensures !Blank(keyphrase) && !Blank(text) && Occurs(Lower(text), keyphrase)
            ==> r.value == Density(DensityOccurrences(text, keyphrase), WordCount(text))
    ensures r.value.Density? && 1000 * r.value.occurrences < DensityMinTenths * r.value.words
            ==> r.status == Warning && r.score == 50
    ensures r.value.Density? && 1000 * r.value.occurrences > DensityMaxTenths * r.value.words
            ==> r.status == Warning && r.score == 40
  {
    if Blank(keyphrase) then
      CheckResult(0, Neutral, NoKeyphraseMessage, Number(0))
    else
      var words := WordCount(text);
      WordCountZeroIffBlank(text);
      if words == 0 then
        CheckResult(0, Neutral, "No content yet", Number(0))
      else
        var count := DensityOccurrences(text, keyphrase);
        if count == 0 then
          CheckResult(0, Bad, "No keyphrase in content", Number(0))
        else if 1000 * count < DensityMinTenths * words then
          CheckResult(50, Warning, "Density low", Density(count, words))
        else if 1000 * count > DensityMaxTenths * words then
          CheckResult(40, Warning, "Density high", Density(count, words))
        else
          CheckResult(100, Good, "Density good", Density(count, words))
  }

  /** A keyphrase with a capital letter never counts toward density, however
      often it appears: the lower-cased text cannot match it. */
  lemma CapitalisedKeyphraseHasNoDensity(text: string, keyphrase: string)
    requires !Blank(keyphrase) && !Blank(text) && HasUpper(keyphrase)
    ensures CheckKeyphraseDensity(text, keyphrase).status == Bad
  {
    UpperPatternNeverMatchesLowered(text, keyphrase);
  }

  /** For a keyphrase without capitals the density count is the content count. */
  lemma LowercaseKeyphraseCountsAgree(text: string, keyphrase: string)
    requires !Blank(keyphrase) && !HasUpper(keyphrase)
    ensures DensityOccurrences(text, keyphrase) == ContentOccurrences(text, keyphrase)
  {
    LowerIdentity(keyphrase);
    CountIgnoringCaseIsCountOfLowered(text, keyphrase);
  }

  // ---------------------------------------------------------------- content length

  /** The banding of `checkContentLength` for a word count. */
  function ContentLengthResult(wordCount: nat): (r: CheckResult)
    ensures r.value == Number(wordCount)
    ensures 0 <= r.score <= 100
    ensures r.status == Bad <==> wordCount == 0
    ensures r.status == Good <==> wordCount >= ContentMin
    ensures r.status != Neutral
    ensures r.status == Good ==> r.score >= 50
    ensures wordCount >= ContentOptimal ==> r.score == 100
    ensures r.score == 100 <==> wordCount >= ContentOptimal - 5
    ensures wordCount == 0 ==> r.score == 0
    ensures 0 < wordCount < ContentMin ==> r.score == RoundHalfUp(wordCount * 50, ContentMin)
    ensures ContentMin <= wordCount < ContentOptimal
            ==> r.score == 50 + RoundHalfUp((wordCount - ContentMin) * 50, ContentOptimal - ContentMin)
  {
    if wordCount == 0 then
      CheckResult(0, Bad, "No content", Number(0))
    else if wordCount < ContentMin then
      RoundHalfUpMonotone(wordCount * 50, ContentMin * 50, ContentMin);
      RoundHalfUpExact(ContentMin * 50, ContentMin, 50);
      CheckResult(RoundHalfUp(wordCount * 50, ContentMin), Warning,
                  NatToString(wordCount) + "/" + NatToString(ContentMin) + " words minimum",
                  Number(wordCount))
    else if wordCount >= ContentOptimal then
      CheckResult(100, Good, NatToString(wordCount) + " words (excellent!)", Number(wordCount))
    else
      var step := RoundHalfUp((wordCount - ContentMin) * 50, ContentOptimal - ContentMin);
      assert 0 <= step <= 50 && (step == 50 <==> wordCount >= ContentOptimal - 5) by {
        var x := (wordCount - ContentMin) * 50;
        RoundHalfUpMonotone(0, x, ContentOptimal - ContentMin);
        RoundHalfUpMonotone(x, 499 * 50, ContentOptimal - ContentMin);
        if wordCount >= ContentOptimal - 5 {
          RoundHalfUpMonotone(495 * 50, x, ContentOptimal - ContentMin);
        } else {
          RoundHalfUpMonotone(x, 494 * 50, ContentOptimal - ContentMin);
        }
      }
      CheckResult(50 + RoundHalfUp((wordCount - ContentMin) * 50, ContentOptimal - ContentMin), Good,
                  NatToString(wordCount) + " words", Number(wordCount))
  }

  /** `checkContentLength` on the plain text of the content. */
  function CheckContentLength(text: string): (r: CheckResult)
    ensures 0 <= r.score <= 100
    ensures r.value == Number(WordCount(text))
    ensures r.status == Bad <==> Blank(text)
  {
    WordCountZeroIffBlank(text);
    ContentLengthResult(WordCount(text))
  }

  /** More words never lower the content-length score; the two branches meet
      at the minimum, where both give 50. */
  lemma ContentScoreMonotone(a: nat, b: nat)
    requires a <= b
    ensures ContentLengthResult(a).score <= ContentLengthResult(b).score
  {
    if 0 < a && b < ContentMin {
      RoundHalfUpMonotone(a * 50, b * 50, ContentMin);
    } else if 0 < a < ContentMin <= b {
      RoundHalfUpMonotone(a * 50, ContentMin * 50, ContentMin);
      RoundHalfUpExact(ContentMin * 50, ContentMin, 50);
    } else if ContentMin <= a && b < ContentOptimal {
      RoundHalfUpMonotone((a - ContentMin) * 50, (b - ContentMin) * 50, ContentOptimal - ContentMin);
    }
  }

  // ---------------------------------------------------------------- links

  /** `checkExternalLinks`. */
  function CheckExternalLinks(links: seq<Link>, currentHost: string): (r: CheckResult)
    ensures r.value == Number(ExternalCount(links, currentHost))
    ensures r.status == Good <==> ExternalCount(links, currentHost) >= 1
    ensures r.status == Warning <==> ExternalCount(links, currentHost) == 0
    ensures r.score == 100 <==> 1 <= ExternalCount(links, currentHost) <= 3
    ensures 60 <= r.score <= 100
    ensures ExternalCount(links, currentHost) == 0 ==> r.score == 60
    ensures ExternalCount(links, currentHost) > 3 ==> r.score == 80
  {
    var count := ExternalCount(links, currentHost);
    if count == 0 then
      CheckResult(60, Warning, "No external links", Number(0))
    else if count <= 3 then
      CheckResult(100, Good, NatToString(count) + " external link(s)", Number(count))
    else
      CheckResult(80, Good, NatToString(count) + " external links", Number(count))
  }

  /** `checkInternalLinks`. */
  function CheckInternalLinks(links: seq<Link>, currentHost: string): (r: CheckResult)
    ensures r.value == Number(InternalCount(links, currentHost))
    ensures r.status == Good <==> InternalCount(links, currentHost) >= 2
    ensures r.status == Warning <==> InternalCount(links, currentHost) < 2
    ensures r.score == 100 <==> r.status == Good
    ensures 40 <= r.score <= 100
    ensures InternalCount(links, currentHost) == 0 ==> r.score == 40
    ensures InternalCount(links, currentHost) == 1 ==> r.score == 70
  {
    var count := InternalCount(links, currentHost);
    if count == 0 then
      CheckResult(40, Warning, "No internal links", Number(0))
    else if count >= 2 then
      CheckResult(100, Good, NatToString(count) + " internal link(s)", Number(count))
    else
      CheckResult(70, Warning, "Only " + NatToString(count) + " internal link", Number(count))
  }
}
