/** The keyword-matching compliance engine behind the `analyze_policy`
    handler: per-control keyword matching, confidence and coverage, evidence
    sentences, per-framework scores, the Mapping and Gap records, the
    critical-gap insight, and the policy status transitions. The backend's
    entity store is the class `Backend`; every write the handler makes is
    recorded, in order, in its `log`. */
module AnalyzePolicy {
  import opened Common
  import opened Entities

  // The fixed thresholds of the engine.
  const CoveredThreshold: real := 0.7
  const PartialThreshold: real := 0.3
  const AcceptThreshold: real := 0.6
  const CompliantScore: real := 80.0
  const PartiallyCompliantScore: real := 60.0
  const NoEvidence: string := "No clear evidence found"
  const DefaultSeverity: string := "Medium"

  // ---------------------------------------------------------------------
  // Control matcher
  // ---------------------------------------------------------------------

  /** `policyText.includes(keyword.toLowerCase())` */
  predicate KeywordOccurs(policyText: string, keyword: string)
  {
    Contains(policyText, Lower(keyword))
  }

  /** The number of keywords, duplicates counted separately, whose
      lower-case form occurs in the lower-cased policy text. */
  function MatchCount(keywords: seq<string>, policyText: string): (n: nat)
    ensures n <= |keywords|
    decreases |keywords|
  {
    if |keywords| == 0 then 0
    else MatchCount(keywords[..|keywords| - 1], policyText) + (if KeywordOccurs(policyText, keywords[|keywords| - 1]) then 1 else 0)
  }

  /** No keyword matches exactly when the count is 0, and every keyword
      matches exactly when the count is the number of keywords. */
  lemma {:induction false} MatchCountSpec(keywords: seq<string>, policyText: string)
    ensures MatchCount(keywords, policyText) == 0 <==> forall k :: 0 <= k < |keywords| ==> !KeywordOccurs(policyText, keywords[k])
    ensures MatchCount(keywords, policyText) == |keywords| <==> forall k :: 0 <= k < |keywords| ==> KeywordOccurs(policyText, keywords[k])
    decreases |keywords|
  {
    if |keywords| > 0 {
      var init := keywords[..|keywords| - 1];
      MatchCountSpec(init, policyText);
      assert forall k :: 0 <= k < |init| ==> init[k] == keywords[k];
    }
  }

  /** The keyword loop of the handler, with its `matchCount++` counter. */
  method CountMatches(keywords: seq<string>, policyText: string) returns (matchCount: nat)
    ensures matchCount == MatchCount(keywords, policyText)
  {
    matchCount := 0;
    for i := 0 to |keywords|
      invariant matchCount == MatchCount(keywords[..i], policyText)
    {
      var keywordLower := Lower(keywords[i]);
      if Contains(policyText, keywordLower) {
        matchCount := matchCount + 1;
      }
      assert keywords[..i + 1][..i] == keywords[..i];
    }
    assert keywords[..|keywords|] == keywords;
  }

  /** `matched / total`, or 0 for a control without keywords. */
  function Confidence(matchCount: nat, total: nat): real
  {
    if total > 0 then matchCount as real / total as real else 0.0
  }

  lemma ConfidenceInUnitInterval(matchCount: nat, total: nat)
    requires matchCount <= total
    ensures 0.0 <= Confidence(matchCount, total) <= 1.0
    ensures Confidence(matchCount, total) == 1.0 <==> total > 0 && matchCount == total
    ensures Confidence(matchCount, total) == 0.0 <==> matchCount == 0
  {
    if total > 0 {
      RatioInUnit(matchCount as real, total as real);
    }
  }

  datatype Coverage = Covered | Partial | Missing

  /** The coverage bucket of a confidence value. */
  function CoverageOf(confidence: real): Coverage
  {
    if confidence >= CoveredThreshold then Covered
    else if confidence >= PartialThreshold then Partial
    else Missing
  }

  /** The three buckets are the intervals [0.7, ...), [0.3, 0.7) and (..., 0.3). */
  lemma CoveragePartition(c: real)
    ensures CoverageOf(c) == Covered <==> c >= 0.7
    ensures CoverageOf(c) == Partial <==> 0.3 <= c < 0.7
    ensures CoverageOf(c) == Missing <==> c < 0.3
  {
  }

  /** A fresh mapping is accepted from a confidence of 0.6 on, otherwise left for review. */
  function DecisionFor(confidence: real): Decision
  {
    if confidence >= AcceptThreshold then Accepted else Pending
  }

  /** How the decision threshold sits inside the buckets: every Covered control
      is accepted, every Missing one pending, and a Partial one is accepted
      exactly when its confidence lies in [0.6, 0.7). */
  lemma DecisionByCoverage(c: real)
    ensures CoverageOf(c) == Covered ==> DecisionFor(c) == Accepted
    ensures CoverageOf(c) == Missing ==> DecisionFor(c) == Pending
    ensures CoverageOf(c) == Partial ==> (DecisionFor(c) == Accepted <==> 0.6 <= c < 0.7)
  {
  }

  function RationaleLead(b: Coverage): string
  {
    match b
    case Covered => "Strong match found with "
    case Partial => "Partial match found with "
    case Missing => "Weak or no match found with "
  }

  /** The rationale text of a mapping: the template of the control's bucket,
      naming the ratio `matched/total`. */
  function Rationale(coverage: Coverage, matchCount: nat, total: nat): string
  {
    RationaleLead(coverage) + NatToString(matchCount) + "/" + NatToString(total) + " keywords matched"
  }

  /** The rationale tells the bucket and the ratio: equal rationale texts
      come from the same bucket and the same matched and total counts. */
  lemma RationaleIdentifiesBucket(b: Coverage, m: nat, t: nat, b': Coverage, m': nat, t': nat)
    requires Rationale(b, m, t) == Rationale(b', m', t')
    ensures b == b' && m == m' && t == t'
  {
    assert Rationale(b, m, t)[0] == RationaleLead(b)[0];
    assert Rationale(b', m', t')[0] == RationaleLead(b')[0];
    RatioIdentified(RationaleLead(b), m, t, m', t', " keywords matched");
  }

  /** After a common lead, `matched/total` followed by a text that starts
      with a non-digit names its two counts unambiguously. */
  lemma RatioIdentified(lead: string, m: nat, t: nat, m': nat, t': nat, tail: string)
    requires |tail| > 0 && !IsDigit(tail[0])
    requires lead + NatToString(m) + "/" + NatToString(t) + tail == lead + NatToString(m') + "/" + NatToString(t') + tail
    ensures m == m' && t == t'
  {
    var rest, rest' := "/" + (NatToString(t) + tail), "/" + (NatToString(t') + tail);
    ConcatAssoc(lead, NatToString(m), "/", NatToString(t), tail);
    ConcatAssoc(lead, NatToString(m'), "/", NatToString(t'), tail);
    DropCommonPrefix(lead, NatToString(m) + rest, NatToString(m') + rest');
    NumeralPrefix(m, m', rest, rest');
    DropCommonPrefix("/", NatToString(t) + tail, NatToString(t') + tail);
    NumeralPrefix(t, t', tail, tail);
  }

  /** The bucket of `matched/total` in integer terms: at least 7 in 10
      keywords, at least 3 in 10, or fewer (always Missing without keywords). */
  function RatioCoverage(matchCount: nat, total: nat): Coverage
  {
    if total > 0 && 10 * matchCount >= 7 * total then Covered
    else if total > 0 && 10 * matchCount >= 3 * total then Partial
    else Missing
  }

  /** The decision for `matched/total` in integer terms: at least 6 in 10. */
  function RatioDecision(matchCount: nat, total: nat): Decision
  {
    if total > 0 && 10 * matchCount >= 6 * total then Accepted else Pending
  }

  /** For a positive total, `m / t >= k` is `m >= k * t`. */
  lemma ShareAtLeast(m: real, t: real, k: real)
    requires t > 0.0
    ensures m / t >= k <==> m >= k * t
  {
    var c := m / t;
    assert c * t == m;
    if c >= k {
      assert (c - k) * t >= 0.0;
    } else {
      assert (k - c) * t > 0.0;
    }
  }

  /** The integer forms decide exactly what the thresholds on the confidence
      value decide. */
  lemma RatioThresholds(matchCount: nat, total: nat)
    ensures RatioCoverage(matchCount, total) == CoverageOf(Confidence(matchCount, total))
    ensures RatioDecision(matchCount, total) == DecisionFor(Confidence(matchCount, total))
  {
    if total > 0 {
      var m, t := matchCount as real, total as real;
      ShareAtLeast(m, t, 0.7);
      ShareAtLeast(m, t, 0.3);
      ShareAtLeast(m, t, 0.6);
    }
  }

  // ---------------------------------------------------------------------
  // Evidence sentences
  // ---------------------------------------------------------------------

  predicate IsSentenceDelimiter(c: char)
  {
    c == '.' || c == '!' || c == '?'
  }

  predicate NoDelimiter(s: string)
  {
    forall k :: 0 <= k < |s| ==> !IsSentenceDelimiter(s[k])
  }

  /** The first delimiter at or after `from`, or `|s|` when there is none. */
  function NextDelimiter(s: string, from: nat): (i: nat)
    requires from <= |s|
    ensures from <= i <= |s|
    decreases |s| - from
  {
    if from == |s| || IsSentenceDelimiter(s[from]) then from else NextDelimiter(s, from + 1)
  }

  lemma {:induction false} NextDelimiterSpec(s: string, from: nat)
    requires from <= |s|
    ensures forall k :: from <= k < NextDelimiter(s, from) ==> !IsSentenceDelimiter(s[k])
    ensures NextDelimiter(s, from) < |s| ==> IsSentenceDelimiter(s[NextDelimiter(s, from)])
    decreases |s| - from
  {
    if from < |s| && !IsSentenceDelimiter(s[from]) {
      NextDelimiterSpec(s, from + 1);
    }
  }

  /** The end of the run of delimiters that starts at `from`. */
  function EndOfRun(s: string, from: nat): (j: nat)
    requires from <= |s|
    ensures from <= j <= |s|
    ensures from < |s| && IsSentenceDelimiter(s[from]) ==> from < j
    decreases |s| - from
  {
    if from == |s| || !IsSentenceDelimiter(s[from]) then from else EndOfRun(s, from + 1)
  }

  /** `text.split(/[.!?]+/)`: the pieces between maximal runs of `.`, `!`,
      `?`, with an empty first (last) piece when the text starts (ends)
      with a delimiter. */
  function Sentences(s: string): seq<string>
    decreases |s|
  {
    var i := NextDelimiter(s, 0);
    if i == |s| then [s]
    else
      var j := EndOfRun(s, i);
      [s[..i]] + Sentences(s[j..])
  }

  /** There is at least one sentence, and no sentence holds a delimiter. */
  lemma {:induction false} SentencesAreDelimiterFree(s: string)
    ensures |Sentences(s)| >= 1
    ensures forall k :: 0 <= k < |Sentences(s)| ==> NoDelimiter(Sentences(s)[k])
    decreases |s|
  {
    var i := NextDelimiter(s, 0);
    NextDelimiterSpec(s, 0);
    if i < |s| {
      var j := EndOfRun(s, i);
      SentencesAreDelimiterFree(s[j..]);
      assert NoDelimiter(s[..i]);
    }
  }

  /** Every sentence is a piece of the text it was split from. */
  lemma {:induction false} SentencesArePieces(s: string)
    ensures forall k :: 0 <= k < |Sentences(s)| ==> Contains(s, Sentences(s)[k])
    decreases |s|
  {
    var i := NextDelimiter(s, 0);
    if i == |s| {
      ContainsSlice(s, 0, |s|);
      assert s[0..|s|] == s;
    } else {
      var j := EndOfRun(s, i);
      var rest := s[j..];
      SentencesArePieces(rest);
      ContainsSlice(s, j, |s|);
      assert s[j..|s|] == rest;
      ContainsSlice(s, 0, i);
      assert s[0..i] == s[..i];
      forall k | 0 <= k < |Sentences(s)| ensures Contains(s, Sentences(s)[k]) {
        if k > 0 {
          assert Sentences(s)[k] == Sentences(rest)[k - 1];
          ContainsTransitive(s, rest, Sentences(rest)[k - 1]);
        }
      }
    }
  }

  /** `keywords.some(kw => sentence.toLowerCase().includes(kw.toLowerCase()))` */
  predicate Mentions(sentence: string, keywords: seq<string>)
    decreases |keywords|
  {
    && |keywords| > 0
    && (Mentions(sentence, keywords[..|keywords| - 1]) || KeywordOccurs(Lower(sentence), keywords[|keywords| - 1]))
  }

  /** A sentence mentions the keywords exactly when one of them occurs in it,
      case-insensitively. */
  lemma {:induction false} MentionsSpec(sentence: string, keywords: seq<string>)
    ensures Mentions(sentence, keywords) <==> exists k :: 0 <= k < |keywords| && KeywordOccurs(Lower(sentence), keywords[k])
    decreases |keywords|
  {
    if |keywords| > 0 {
      var init := keywords[..|keywords| - 1];
      MentionsSpec(sentence, init);
      if Mentions(sentence, init) {
        var k :| 0 <= k < |init| && KeywordOccurs(Lower(sentence), init[k]);
        assert keywords[k] == init[k];
      }
      if exists k :: 0 <= k < |keywords| && KeywordOccurs(Lower(sentence), keywords[k]) {
        var k :| 0 <= k < |keywords| && KeywordOccurs(Lower(sentence), keywords[k]);
        if k < |init| {
          assert init[k] == keywords[k];
        }
      }
    }
  }

  /** Sentence `i` is the first one that mentions a keyword. */
  ghost predicate IsFirstMention(sentences: seq<string>, keywords: seq<string>, i: int)
  {
    && 0 <= i < |sentences|
    && Mentions(sentences[i], keywords)
    && forall j :: 0 <= j < i ==> !Mentions(sentences[j], keywords)
  }

  /** The index of the first sentence that mentions a keyword, if any. */
  function FirstMention(sentences: seq<string>, keywords: seq<string>): (r: Option<nat>)
    ensures r.Some? ==> r.value < |sentences|
    decreases |sentences|
  {
    if |sentences| == 0 then None
    else if Mentions(sentences[0], keywords) then Some(0)
    else match FirstMention(sentences[1..], keywords)
      case None => None
      case Some(i) => Some(i + 1)
  }

  /** `FirstMention` finds the first mentioning sentence, and finds none
      exactly when no sentence mentions a keyword. */
  lemma {:induction false} FirstMentionSpec(sentences: seq<string>, keywords: seq<string>)
    ensures FirstMention(sentences, keywords).Some? ==> IsFirstMention(sentences, keywords, FirstMention(sentences, keywords).value)
    ensures FirstMention(sentences, keywords).None? ==> forall j :: 0 <= j < |sentences| ==> !Mentions(sentences[j], keywords)
    decreases |sentences|
  {
    if |sentences| > 0 && !Mentions(sentences[0], keywords) {
      FirstMentionSpec(sentences[1..], keywords);
      assert forall j :: 1 <= j < |sentences| ==> sentences[j] == sentences[1..][j - 1];
    }
  }

  /** `evidenceSnippet || "No clear evidence found"` for a trimmed sentence. */
  function Snippet(sentence: string): string
  {
    if Trim(sentence) != "" then Trim(sentence) else NoEvidence
  }

  /** The evidence text of a mapping. */
  function Evidence(text: string, keywords: seq<string>, matchCount: nat): string
  {
    if matchCount == 0 then NoEvidence
    else
      match FirstMention(Sentences(text), keywords)
      case None => NoEvidence
      case Some(i) => Snippet(Sentences(text)[i])
  }

  /** The evidence of a mapping is the first sentence of the original text
      that mentions a keyword, trimmed; it is the fallback marker when no
      keyword matched, when no sentence mentions one, or when that sentence
      is blank; it is never empty, and otherwise a piece of the text. */
  lemma EvidenceSpec(text: string, keywords: seq<string>, matchCount: nat)
    ensures Evidence(text, keywords, matchCount) != ""
    ensures matchCount == 0 ==> Evidence(text, keywords, matchCount) == NoEvidence
    ensures matchCount > 0 ==> forall i :: IsFirstMention(Sentences(text), keywords, i) ==>
              Evidence(text, keywords, matchCount) == Snippet(Sentences(text)[i])
    ensures (forall i :: 0 <= i < |Sentences(text)| ==> !Mentions(Sentences(text)[i], keywords)) ==>
              Evidence(text, keywords, matchCount) == NoEvidence
    ensures Evidence(text, keywords, matchCount) == NoEvidence || Contains(text, Evidence(text, keywords, matchCount))
  {
    var sentences := Sentences(text);
    FirstMentionSpec(sentences, keywords);
    if matchCount > 0 {
      match FirstMention(sentences, keywords)
      case None =>
      case Some(i) =>
        SentencesArePieces(text);
        assert forall j :: IsFirstMention(sentences, keywords, j) ==> j == i;
        ContainsTransitive(text, sentences[i], Trim(sentences[i]));
    }
  }

  /** The sentence loop of the handler, which stops at the first sentence
      that mentions a keyword. */
  method FindEvidence(text: string, keywords: seq<string>, matchCount: nat) returns (snippet: string)
    ensures snippet == Evidence(text, keywords, matchCount)
  {
    var evidenceSnippet := "";
    if matchCount > 0 {
      var sentences := Sentences(text);
      var i := 0;
      while i < |sentences|
        invariant 0 <= i <= |sentences|
        invariant evidenceSnippet == ""
        invariant forall j :: 0 <= j < i ==> !Mentions(sentences[j], keywords)
      {
        if Mentions(sentences[i], keywords) {
          evidenceSnippet := Trim(sentences[i]);
          assert IsFirstMention(sentences, keywords, i);
          break;
        }
        i := i + 1;
      }
    }
    snippet := if evidenceSnippet != "" then evidenceSnippet else NoEvidence;
    EvidenceSpec(text, keywords, matchCount);
  }

  // ---------------------------------------------------------------------
  // Per-control outcome: Mapping and Gap records
  // ---------------------------------------------------------------------

  /** The keyword matches of one control against the policy text. */
  function ControlMatches(c: Control, text: string): nat
  {
    MatchCount(c.keywords, Lower(text))
  }

  /** The confidence of one control: the share of its keywords that match. */
  function ControlConfidence(c: Control, text: string): real
  {
    Confidence(ControlMatches(c, text), |c.keywords|)
  }

  /** The bucket of one control. */
  function ControlCoverage(c: Control, text: string): Coverage
  {
    RatioCoverage(ControlMatches(c, text), |c.keywords|)
  }

  /** A control's confidence lies in [0, 1]; it is 0 exactly when no keyword
      matches, and 1 exactly when all of at least one keyword match; its
      bucket is the bucket of that confidence. */
  lemma ControlConfidenceSpec(c: Control, text: string)
    ensures 0.0 <= ControlConfidence(c, text) <= 1.0
    ensures ControlConfidence(c, text) == 0.0 <==> ControlMatches(c, text) == 0
    ensures ControlConfidence(c, text) == 1.0 <==> |c.keywords| > 0 && ControlMatches(c, text) == |c.keywords|
    ensures ControlCoverage(c, text) == CoverageOf(ControlConfidence(c, text))
  {
    MatchCountSpec(c.keywords, Lower(text));
    ConfidenceInUnitInterval(ControlMatches(c, text), |c.keywords|);
    RatioThresholds(ControlMatches(c, text), |c.keywords|);
  }

  /** A control without keywords is always Missing, with confidence 0. */
  lemma ZeroKeywordsMissing(c: Control, text: string)
    requires |c.keywords| == 0
    ensures ControlConfidence(c, text) == 0.0 && ControlCoverage(c, text) == Missing
  {
  }

  /** A control is Covered when all its (at least one) keywords match, and
      Missing when none does. */
  lemma CoverageExtremes(c: Control, text: string)
    ensures (|c.keywords| > 0 && forall k :: 0 <= k < |c.keywords| ==> KeywordOccurs(Lower(text), c.keywords[k]))
            ==> ControlCoverage(c, text) == Covered
    ensures (forall k :: 0 <= k < |c.keywords| ==> !KeywordOccurs(Lower(text), c.keywords[k]))
            ==> ControlCoverage(c, text) == Missing
  {
    MatchCountSpec(c.keywords, Lower(text));
  }

  /** The Mapping record the engine writes for one control. */
  function MappingFor(policyId: string, framework: string, c: Control, text: string): Mapping
  {
    var mc := ControlMatches(c, text);
    var total := |c.keywords|;
    Mapping(policyId, c.code, framework, Evidence(text, c.keywords, mc), Confidence(mc, total),
            Rationale(RatioCoverage(mc, total), mc, total), RatioDecision(mc, total))
  }

  /** The severity a gap is filed with: the control's own, "Medium" when unset. */
  function SeverityOf(c: Control): string
  {
    if c.severityIfMissing != "" then c.severityIfMissing else DefaultSeverity
  }

  function GapFor(policyId: string, framework: string, c: Control): Gap
  {
    Gap(policyId, framework, c.code, c.title, SeverityOf(c), Open,
        "Control " + c.code + " not adequately covered in policy", "")
  }

  // ---------------------------------------------------------------------
  // Framework aggregator
  // ---------------------------------------------------------------------

  /** The Mapping records of one framework. */
  function FrameworkMappings(policyId: string, framework: string, controls: seq<Control>, text: string): seq<Mapping>
    decreases |controls|
  {
    if |controls| == 0 then []
    else
      var init := controls[..|controls| - 1];
      FrameworkMappings(policyId, framework, init, text) + [MappingFor(policyId, framework, controls[|controls| - 1], text)]
  }

  /** `MappingFor` with everything but the control fixed. */
  function MappingOf(policyId: string, framework: string, text: string): Control -> Mapping
  {
    c => MappingFor(policyId, framework, c, text)
  }

  /** The mappings of a framework are `controls.map(MappingFor)`. */
  lemma {:induction false} MappingsAreMap(policyId: string, framework: string, controls: seq<Control>, text: string)
    ensures FrameworkMappings(policyId, framework, controls, text) == Map(controls, MappingOf(policyId, framework, text))
    decreases |controls|
  {
    if |controls| > 0 {
      MappingsAreMap(policyId, framework, controls[..|controls| - 1], text);
    }
  }

  /** Exactly one mapping per control, in catalog order. */
  lemma OneMappingPerControl(policyId: string, framework: string, controls: seq<Control>, text: string)
    ensures |FrameworkMappings(policyId, framework, controls, text)| == |controls|
    ensures forall k :: 0 <= k < |controls| ==>
              FrameworkMappings(policyId, framework, controls, text)[k] == MappingFor(policyId, framework, controls[k], text)
  {
    MappingsAreMap(policyId, framework, controls, text);
    MapAt(controls, MappingOf(policyId, framework, text));
  }

  predicate IsMissing(c: Control, text: string)
  {
    ControlCoverage(c, text) == Missing
  }

  /** The Gap records of one framework: one for each Missing control, in order. */
  function FrameworkGaps(policyId: string, framework: string, controls: seq<Control>, text: string): seq<Gap>
    decreases |controls|
  {
    if |controls| == 0 then []
    else
      var c := controls[|controls| - 1];
      FrameworkGaps(policyId, framework, controls[..|controls| - 1], text)
      + (if IsMissing(c, text) then [GapFor(policyId, framework, c)] else [])
  }

  /** The number of controls in a bucket. */
  function CoverageCount(controls: seq<Control>, text: string, b: Coverage): nat
    decreases |controls|
  {
    if |controls| == 0 then 0
    else
      CoverageCount(controls[..|controls| - 1], text, b)
      + (if ControlCoverage(controls[|controls| - 1], text) == b then 1 else 0)
  }

  /** covered + partial + missing is the number of controls. */
  lemma {:induction false} CoverageCountsAddUp(controls: seq<Control>, text: string)
    ensures CoverageCount(controls, text, Covered) + CoverageCount(controls, text, Partial)
            + CoverageCount(controls, text, Missing) == |controls|
    decreases |controls|
  {
    if |controls| > 0 {
      CoverageCountsAddUp(controls[..|controls| - 1], text);
    }
  }

  /** A gap is filed for exactly the Missing controls (not for Partial ones):
      there are as many gaps as Missing controls, ... */
  lemma {:induction false} GapCount(policyId: string, framework: string, controls: seq<Control>, text: string)
    ensures |FrameworkGaps(policyId, framework, controls, text)| == CoverageCount(controls, text, Missing)
    decreases |controls|
  {
    if |controls| > 0 {
      GapCount(policyId, framework, controls[..|controls| - 1], text);
    }
  }

  function MissingIn(text: string): Control -> bool
  {
    c => IsMissing(c, text)
  }

  function GapOf(policyId: string, framework: string): Control -> Gap
  {
    c => GapFor(policyId, framework, c)
  }

  /** The gaps of a framework are `controls.filter(IsMissing).map(GapFor)`. */
  lemma {:induction false} GapsAreMap(policyId: string, framework: string, controls: seq<Control>, text: string)
    ensures FrameworkGaps(policyId, framework, controls, text)
            == Map(Filter(controls, MissingIn(text)), GapOf(policyId, framework))
    decreases |controls|
  {
    if |controls| > 0 {
      var init, last := controls[..|controls| - 1], controls[|controls| - 1];
      var isMissing, gapFor := MissingIn(text), GapOf(policyId, framework);
      GapsAreMap(policyId, framework, init, text);
      var missing := Filter(init, isMissing);
      assert Filter(controls, isMissing) == missing + (if isMissing(last) then [last] else []);
      if IsMissing(last, text) {
        assert isMissing(last) && Filter(controls, isMissing) == missing + [last];
        assert (missing + [last])[..|missing|] == missing;
        calc {
          FrameworkGaps(policyId, framework, controls, text);
          FrameworkGaps(policyId, framework, init, text) + [GapFor(policyId, framework, last)];
          Map(missing, gapFor) + [gapFor(last)];
          Map(missing + [last], gapFor);
          Map(Filter(controls, isMissing), gapFor);
        }
      } else {
        assert !isMissing(last) && Filter(controls, isMissing) == missing;
      }
    }
  }

  /** ... each gap is the gap of a Missing control, ... */
  lemma GapsAreForMissing(policyId: string, framework: string, controls: seq<Control>, text: string)
    ensures forall j :: 0 <= j < |FrameworkGaps(policyId, framework, controls, text)| ==>
              exists k :: 0 <= k < |controls| && IsMissing(controls[k], text)
                && FrameworkGaps(policyId, framework, controls, text)[j] == GapFor(policyId, framework, controls[k])
  {
    var isMissing, gapFor := MissingIn(text), GapOf(policyId, framework);
    var missing := Filter(controls, isMissing);
    var gs := FrameworkGaps(policyId, framework, controls, text);
    GapsAreMap(policyId, framework, controls, text);
    MapAt(missing, gapFor);
    FilterMembers(controls, isMissing);
    forall j | 0 <= j < |gs|
      ensures exists k :: 0 <= k < |controls| && IsMissing(controls[k], text) && gs[j] == GapFor(policyId, framework, controls[k])
    {
      assert missing[j] in missing;
      var k :| 0 <= k < |controls| && controls[k] == missing[j];
      assert gs[j] == gapFor(missing[j]);
    }
  }

  /** ... and every Missing control has its gap among them. */
  lemma MissingHaveGaps(policyId: string, framework: string, controls: seq<Control>, text: string)
    ensures forall k :: 0 <= k < |controls| && IsMissing(controls[k], text) ==>
              GapFor(policyId, framework, controls[k]) in FrameworkGaps(policyId, framework, controls, text)
  {
    var isMissing, gapFor := MissingIn(text), GapOf(policyId, framework);
    var missing := Filter(controls, isMissing);
    var gs := FrameworkGaps(policyId, framework, controls, text);
    GapsAreMap(policyId, framework, controls, text);
    MapAt(missing, gapFor);
    FilterMembers(controls, isMissing);
    forall k | 0 <= k < |controls| && IsMissing(controls[k], text)
      ensures GapFor(policyId, framework, controls[k]) in gs
    {
      assert isMissing(controls[k]);
      var j :| 0 <= j < |missing| && missing[j] == controls[k];
      assert gs[j] == gapFor(missing[j]);
    }
  }

  /** `((covered + 0.5 * partial) / total) * 100`, or 0 for an empty framework. */
  function Score(covered: nat, partial: nat, total: nat): real
  {
    if total > 0 then ((covered as real + partial as real * 0.5) / total as real) * 100.0 else 0.0
  }

  lemma ScoreBounds(covered: nat, partial: nat, total: nat)
    requires covered + partial <= total
    ensures 0.0 <= Score(covered, partial, total) <= 100.0
  {
    if total > 0 {
      RatioInUnit(covered as real + partial as real * 0.5, total as real);
    }
  }

  /** For a fixed number of controls, more covered or partial controls never lower the score. */
  lemma ScoreMonotone(covered: nat, partial: nat, covered': nat, partial': nat, total: nat)
    requires covered <= covered' && partial <= partial'
    ensures Score(covered, partial, total) <= Score(covered', partial', total)
  {
    if total > 0 {
      DivMonotone(covered as real + partial as real * 0.5, covered' as real + partial' as real * 0.5, total as real);
    }
  }

  /** The compliance status of a score: at 80 and at 60. */
  function StatusOf(score: real): ComplianceStatus
  {
    if score >= CompliantScore then Compliant
    else if score >= PartiallyCompliantScore then PartiallyCompliant
    else NotCompliant
  }

  lemma StatusBands(score: real)
    ensures StatusOf(score) == Compliant <==> score >= 80.0
    ensures StatusOf(score) == PartiallyCompliant <==> 60.0 <= score < 80.0
    ensures StatusOf(score) == NotCompliant <==> score < 60.0
  {
  }

  /** The ComplianceResult of one framework; its counts add up to the number
      of controls and its score lies in [0, 100]. */
  function FrameworkResult(policyId: string, framework: string, controls: seq<Control>, text: string, now: string): (r: ComplianceResult)
    ensures r.covered + r.partial + r.missing == |controls|
    ensures 0.0 <= r.score <= 100.0
    ensures r.status == StatusOf(r.score)
  {
    var covered := CoverageCount(controls, text, Covered);
    var partial := CoverageCount(controls, text, Partial);
    var missing := CoverageCount(controls, text, Missing);
    CoverageCountsAddUp(controls, text);
    ScoreBounds(covered, partial, |controls|);
    var score := Score(covered, partial, |controls|);
    ComplianceResult(policyId, framework, score, covered, partial, missing, StatusOf(score), now)
  }

  /** The body of the handler's control loop: match, score and describe one control. */
  method AssessControl(policyId: string, framework: string, control: Control, extractedText: string, policyText: string)
    returns (coverage: Coverage, mapping: Mapping)
    requires policyText == Lower(extractedText)
    ensures coverage == ControlCoverage(control, extractedText)
    ensures mapping == MappingFor(policyId, framework, control, extractedText)
  {
    var keywords := control.keywords;
    var matchCount := CountMatches(keywords, policyText);
    var confidence := Confidence(matchCount, |keywords|);
    var evidenceSnippet := FindEvidence(extractedText, keywords, matchCount);
    coverage := CoverageOf(confidence);
    mapping := Mapping(policyId, control.code, framework, evidenceSnippet, confidence,
                       Rationale(coverage, matchCount, |keywords|), DecisionFor(confidence));
    RatioThresholds(matchCount, |keywords|);
  }

  /** The control loop of the handler for one framework, with its mutable
      counters and the mapping and gap lists it pushes to. */
  method AnalyzeFramework(policyId: string, framework: string, controls: seq<Control>,
                          extractedText: string, policyText: string, now: string)
    returns (result: ComplianceResult, mappings: seq<Mapping>, gaps: seq<Gap>)
    requires policyText == Lower(extractedText)
    ensures result == FrameworkResult(policyId, framework, controls, extractedText, now)
    ensures mappings == FrameworkMappings(policyId, framework, controls, extractedText)
    ensures gaps == FrameworkGaps(policyId, framework, controls, extractedText)
  {
    var controlsCovered, controlsPartial, controlsMissing := 0, 0, 0;
    mappings, gaps := [], [];
    for i := 0 to |controls|
      invariant controlsCovered == CoverageCount(controls[..i], extractedText, Covered)
      invariant controlsPartial == CoverageCount(controls[..i], extractedText, Partial)
      invariant controlsMissing == CoverageCount(controls[..i], extractedText, Missing)
      invariant mappings == FrameworkMappings(policyId, framework, controls[..i], extractedText)
      invariant gaps == FrameworkGaps(policyId, framework, controls[..i], extractedText)
    {
      var control := controls[i];
      var coverage, mapping := AssessControl(policyId, framework, control, extractedText, policyText);
      match coverage {
        case Covered => controlsCovered := controlsCovered + 1;
        case Partial => controlsPartial := controlsPartial + 1;
        case Missing =>
          controlsMissing := controlsMissing + 1;
          gaps := gaps + [GapFor(policyId, framework, control)];
      }
      mappings := mappings + [mapping];
      assert controls[..i + 1][..i] == controls[..i];
    }
    assert controls[..|controls|] == controls;
    var totalControls := |controls|;
    var complianceScore := Score(controlsCovered, controlsPartial, totalControls);
    var status := StatusOf(complianceScore);
    result := ComplianceResult(policyId, framework, complianceScore, controlsCovered, controlsPartial,
                               controlsMissing, status, now);
  }

  // ---------------------------------------------------------------------
  // One analysis run over several frameworks
  // ---------------------------------------------------------------------

  /** `ControlLibrary.filter({ framework })`, in catalog order. */
  function ControlsOf(catalog: seq<Control>, framework: string): seq<Control>
    decreases |catalog|
  {
    if |catalog| == 0 then []
    else
      var c := catalog[|catalog| - 1];
      ControlsOf(catalog[..|catalog| - 1], framework) + (if c.framework == framework then [c] else [])
  }

  /** The framework's controls are exactly the catalog's controls of that framework. */
  lemma {:induction false} ControlsOfMembers(catalog: seq<Control>, framework: string)
    ensures forall c | c in ControlsOf(catalog, framework) :: c in catalog && c.framework == framework
    ensures forall c | c in catalog && c.framework == framework :: c in ControlsOf(catalog, framework)
    decreases |catalog|
  {
    if |catalog| > 0 {
      var init, last := catalog[..|catalog| - 1], catalog[|catalog| - 1];
      ControlsOfMembers(init, framework);
      assert catalog == init + [last];
      assert forall c :: c in catalog <==> c in init || c == last;
    }
  }

  /** One ComplianceResult per requested framework, in request order. */
  function RunResults(policyId: string, frameworks: seq<string>, catalog: seq<Control>, text: string, now: string): (rs: seq<ComplianceResult>)
    ensures |rs| == |frameworks|
    decreases |frameworks|
  {
    if |frameworks| == 0 then []
    else
      var fw := frameworks[|frameworks| - 1];
      RunResults(policyId, frameworks[..|frameworks| - 1], catalog, text, now)
      + [FrameworkResult(policyId, fw, ControlsOf(catalog, fw), text, now)]
  }

  /** Result number `i` is the result of the `i`-th requested framework. */
  lemma {:induction false} RunResultAt(policyId: string, frameworks: seq<string>, catalog: seq<Control>, text: string, now: string, i: nat)
    requires i < |frameworks|
    ensures RunResults(policyId, frameworks, catalog, text, now)[i]
            == FrameworkResult(policyId, frameworks[i], ControlsOf(catalog, frameworks[i]), text, now)
    decreases |frameworks|
  {
    if i < |frameworks| - 1 {
      var init := frameworks[..|frameworks| - 1];
      RunResultAt(policyId, init, catalog, text, now, i);
      assert init[i] == frameworks[i];
    }
  }

  function RunMappings(policyId: string, frameworks: seq<string>, catalog: seq<Control>, text: string): seq<Mapping>
    decreases |frameworks|
  {
    if |frameworks| == 0 then []
    else
      var fw := frameworks[|frameworks| - 1];
      RunMappings(policyId, frameworks[..|frameworks| - 1], catalog, text)
      + FrameworkMappings(policyId, fw, ControlsOf(catalog, fw), text)
  }

  function RunGaps(policyId: string, frameworks: seq<string>, catalog: seq<Control>, text: string): seq<Gap>
    decreases |frameworks|
  {
    if |frameworks| == 0 then []
    else
      var fw := frameworks[|frameworks| - 1];
      RunGaps(policyId, frameworks[..|frameworks| - 1], catalog, text)
      + FrameworkGaps(policyId, fw, ControlsOf(catalog, fw), text)
  }

  /** The run's results, mappings and gaps grow framework by framework. */
  lemma RunSnoc(policyId: string, frameworks: seq<string>, i: nat, catalog: seq<Control>, text: string, now: string)
    requires i < |frameworks|
    ensures var fw := frameworks[i];
            && RunResults(policyId, frameworks[..i + 1], catalog, text, now)
               == RunResults(policyId, frameworks[..i], catalog, text, now) + [FrameworkResult(policyId, fw, ControlsOf(catalog, fw), text, now)]
            && RunMappings(policyId, frameworks[..i + 1], catalog, text)
               == RunMappings(policyId, frameworks[..i], catalog, text) + FrameworkMappings(policyId, fw, ControlsOf(catalog, fw), text)
            && RunGaps(policyId, frameworks[..i + 1], catalog, text)
               == RunGaps(policyId, frameworks[..i], catalog, text) + FrameworkGaps(policyId, fw, ControlsOf(catalog, fw), text)
  {
    assert frameworks[..i + 1][..i] == frameworks[..i];
  }

  /** What every Mapping record promises: a confidence in [0, 1], accepted
      exactly from 0.6 on and pending otherwise. */
  predicate DecisionRule(m: Mapping)
  {
    && 0.0 <= m.confidence <= 1.0
    && (m.decision == Accepted <==> m.confidence >= AcceptThreshold)
    && (m.decision == Accepted || m.decision == Pending)
  }

  lemma MappingForDecision(policyId: string, framework: string, c: Control, text: string)
    ensures DecisionRule(MappingFor(policyId, framework, c, text))
  {
    var mc := ControlMatches(c, text);
    ConfidenceInUnitInterval(mc, |c.keywords|);
    RatioThresholds(mc, |c.keywords|);
  }

  /** Every mapping a run creates keeps the decision rule. */
  lemma {:induction false} RunDecisions(policyId: string, frameworks: seq<string>, catalog: seq<Control>, text: string)
    ensures forall i :: 0 <= i < |RunMappings(policyId, frameworks, catalog, text)| ==>
              DecisionRule(RunMappings(policyId, frameworks, catalog, text)[i])
    decreases |frameworks|
  {
    if |frameworks| > 0 {
      var init := frameworks[..|frameworks| - 1];
      var fw := frameworks[|frameworks| - 1];
      var controls := ControlsOf(catalog, fw);
      RunDecisions(policyId, init, catalog, text);
      OneMappingPerControl(policyId, fw, controls, text);
      var prior, ms := RunMappings(policyId, init, catalog, text), FrameworkMappings(policyId, fw, controls, text);
      var all := RunMappings(policyId, frameworks, catalog, text);
      assert all == prior + ms;
      forall i | 0 <= i < |all|
        ensures DecisionRule(all[i])
      {
        if i < |prior| {
          assert all[i] == prior[i];
        } else {
          assert all[i] == ms[i - |prior|];
          MappingForDecision(policyId, fw, controls[i - |prior|], text);
        }
      }
    }
  }

  /** What every Gap record of a run promises: it is Open, carries the
      control's severity ("Medium" when the control has none), names the
      control's code in its description, and its control is a Missing
      control of the catalog. */
  ghost predicate GapRule(g: Gap, catalog: seq<Control>, text: string)
  {
    && g.status == Open
    && g.severity != ""
    && exists c :: c in catalog && IsMissing(c, text) && g.controlId == c.code
         && g.severity == SeverityOf(c)
         && g.description == "Control " + c.code + " not adequately covered in policy"
  }

  lemma {:induction false} RunGapsShape(policyId: string, frameworks: seq<string>, catalog: seq<Control>, text: string)
    ensures forall i :: 0 <= i < |RunGaps(policyId, frameworks, catalog, text)| ==>
              GapRule(RunGaps(policyId, frameworks, catalog, text)[i], catalog, text)
    decreases |frameworks|
  {
    if |frameworks| > 0 {
      var init := frameworks[..|frameworks| - 1];
      var fw := frameworks[|frameworks| - 1];
      var controls := ControlsOf(catalog, fw);
      RunGapsShape(policyId, init, catalog, text);
      GapsAreForMissing(policyId, fw, controls, text);
      ControlsOfMembers(catalog, fw);
      var prior, gs := RunGaps(policyId, init, catalog, text), FrameworkGaps(policyId, fw, controls, text);
      var all := RunGaps(policyId, frameworks, catalog, text);
      assert all == prior + gs;
      forall i | 0 <= i < |all|
        ensures GapRule(all[i], catalog, text)
      {
        if i < |prior| {
          assert all[i] == prior[i];
        } else {
          var g := gs[i - |prior|];
          assert all[i] == g;
          var k :| 0 <= k < |controls| && IsMissing(controls[k], text) && g == GapFor(policyId, fw, controls[k]);
          assert controls[k] in controls;
        }
      }
    }
  }

  predicate IsCritical(g: Gap)
  {
    g.severity == "Critical"
  }

  /** `allGaps.filter(g => g.severity === 'Critical')` */
  function CriticalGaps(gs: seq<Gap>): seq<Gap>
    decreases |gs|
  {
    if |gs| == 0 then []
    else CriticalGaps(gs[..|gs| - 1]) + (if IsCritical(gs[|gs| - 1]) then [gs[|gs| - 1]] else [])
  }

  /** There are critical gaps exactly when some gap is Critical. */
  lemma {:induction false} CriticalGapsExist(gs: seq<Gap>)
    ensures |CriticalGaps(gs)| > 0 <==> exists i :: 0 <= i < |gs| && IsCritical(gs[i])
    decreases |gs|
  {
    if |gs| > 0 {
      var init := gs[..|gs| - 1];
      CriticalGapsExist(init);
      if exists i :: 0 <= i < |init| && IsCritical(init[i]) {
        var i :| 0 <= i < |init| && IsCritical(init[i]);
        assert gs[i] == init[i];
      }
      if exists i :: 0 <= i < |gs| && IsCritical(gs[i]) {
        var i :| 0 <= i < |gs| && IsCritical(gs[i]);
        if i < |init| {
          assert init[i] == gs[i];
        }
      }
    }
  }

  /** The one `gap_priority` insight of a run with `n` critical gaps. */
  function CriticalInsight(policyId: string, n: nat): Insight
  {
    Insight("", policyId, "gap_priority",
            NatToString(n) + " Critical Gaps Require Immediate Attention",
            "Analysis identified " + NatToString(n) + " critical compliance gaps that should be addressed urgently.",
            "Critical", "", "", 0.95, "New")
  }

  function CompletionAudit(actor: string, policyId: string, frameworkCount: nat): AuditEntry
  {
    AuditEntry(actor, "analysis_complete", "policy", policyId,
               "Completed analysis across " + NatToString(frameworkCount) + " frameworks")
  }

  // ---------------------------------------------------------------------
  // The entity store and the writes the handler makes to it
  // ---------------------------------------------------------------------

  datatype Write =
    | UpdatePolicyStatus(policyId: string, status: PolicyStatus, analyzedAt: Option<string>)
    | CreateResult(result: ComplianceResult)
    | BulkCreateMappings(mappings: seq<Mapping>)
    | BulkCreateGaps(gaps: seq<Gap>)
    | CreateInsight(insight: Insight)
    | CreateAudit(entry: AuditEntry)

  /** The contents of the store. */
  datatype Db = Db(
    policies: map<string, Policy>,
    results: seq<ComplianceResult>,
    mappings: seq<Mapping>,
    gaps: seq<Gap>,
    insights: seq<Insight>,
    audit: seq<AuditEntry>)

  function Apply(db: Db, w: Write): Db
  {
    match w
    case UpdatePolicyStatus(id, s, at) =>
      if id in db.policies then
        var p := db.policies[id];
        db.(policies := db.policies[id := p.(status := s, lastAnalyzedAt := if at.Some? then at.value else p.lastAnalyzedAt)])
      else db
    case CreateResult(r) => db.(results := db.results + [r])
    case BulkCreateMappings(ms) => db.(mappings := db.mappings + ms)
    case BulkCreateGaps(gs) => db.(gaps := db.gaps + gs)
    case CreateInsight(i) => db.(insights := db.insights + [i])
    case CreateAudit(e) => db.(audit := db.audit + [e])
  }

  function ApplyAll(db: Db, ws: seq<Write>): Db
    decreases |ws|
  {
    if |ws| == 0 then db else Apply(ApplyAll(db, ws[..|ws| - 1]), ws[|ws| - 1])
  }

  lemma ApplyAllStep(db: Db, ws: seq<Write>, k: nat)
    requires k < |ws|
    ensures ApplyAll(db, ws[..k + 1]) == Apply(ApplyAll(db, ws[..k]), ws[k])
  {
    assert ws[..k + 1][..k] == ws[..k];
  }

  /** The text the handler analyses: the stored preview, else what the
      extraction service returned for the file ("" when it failed), else "". */
  function ResolveText(p: Policy, extracted: string): string
  {
    if p.contentPreview != "" then p.contentPreview
    else if p.fileUrl != "" then extracted
    else ""
  }

  /** The last two writes of a run: the policy update to `analyzed` and the audit entry. */
  function FinishWrites(policyId: string, frameworkCount: nat, actor: string, now: string): seq<Write>
  {
    [UpdatePolicyStatus(policyId, Analyzed, Some(now)), CreateAudit(CompletionAudit(actor, policyId, frameworkCount))]
  }

  /** The writes after the results: the bulk mappings and the bulk gaps (each
      only when non-empty), the critical-gap insight (only when some gap is
      Critical), then the finishing writes. */
  function ClosingWrites(policyId: string, ms: seq<Mapping>, gs: seq<Gap>, frameworkCount: nat,
                         actor: string, now: string): seq<Write>
  {
    FindingWrites(policyId, ms, gs, FinishWrites(policyId, frameworkCount, actor, now))
  }

  /** The optional closing writes, in order, followed by `rest`. */
  function FindingWrites(policyId: string, ms: seq<Mapping>, gs: seq<Gap>, rest: seq<Write>): seq<Write>
  {
    var fromGaps := GapWrites(policyId, gs, rest);
    if |ms| > 0 then [BulkCreateMappings(ms)] + fromGaps else fromGaps
  }

  /** The gaps, then the gap_priority insight when a gap is Critical. */
  function GapWrites(policyId: string, gs: seq<Gap>, rest: seq<Write>): seq<Write>
  {
    var critical := |CriticalGaps(gs)|;
    var fromInsight := if critical > 0 then [CreateInsight(CriticalInsight(policyId, critical))] + rest else rest;
    if |gs| > 0 then [BulkCreateGaps(gs)] + fromInsight else fromInsight
  }

  /** One CreateResult write per result, in order. */
  function ResultWrites(rs: seq<ComplianceResult>): (ws: seq<Write>)
    ensures |ws| == |rs|
  {
    seq(|rs|, i requires 0 <= i < |rs| => CreateResult(rs[i]))
  }

  /** Every write an admitted request makes, in order, when nothing fails. */
  function Plan(policyId: string, policy: Policy, frameworks: seq<string>, catalog: seq<Control>,
                extracted: string, actor: string, now: string): seq<Write>
  {
    var text := ResolveText(policy, extracted);
    if text == "" then
      [UpdatePolicyStatus(policyId, Processing, None), UpdatePolicyStatus(policyId, Failed, None)]
    else
      RunWrites(policyId, RunResults(policyId, frameworks, catalog, text, now), RunMappings(policyId, frameworks, catalog, text),
                RunGaps(policyId, frameworks, catalog, text), |frameworks|, actor, now)
  }

  /** The writes of a run that has text to analyse and produced `rs`, `ms` and `gs`. */
  function RunWrites(policyId: string, rs: seq<ComplianceResult>, ms: seq<Mapping>, gs: seq<Gap>, frameworkCount: nat,
                     actor: string, now: string): seq<Write>
  {
    [UpdatePolicyStatus(policyId, Processing, None)] + ResultWrites(rs) + ClosingWrites(policyId, ms, gs, frameworkCount, actor, now)
  }

  /** How many writes take effect when write number `failingWrite` (counting
      from 0) throws. */
  function WritesDone(plan: seq<Write>, failingWrite: Option<nat>): nat
  {
    if failingWrite.Some? && failingWrite.value < |plan| then failingWrite.value else |plan|
  }

  datatype AnalyzeError =
    | Unauthorized      // 401
    | MissingArguments  // 400: no policy_id or no frameworks
    | PolicyNotFound    // 404
    | NoText            // 400: nothing could be extracted
    | ServerError       // 500: a write threw

  datatype AnalyzeResponse =
    | Success(results: seq<ComplianceResult>, mappingsCreated: nat, gapsCreated: nat)
    | Failure(error: AnalyzeError)

  /** The response to a request turned away before any write. */
  function Rejection(user: Option<string>, policyId: string, frameworks: seq<string>, policies: map<string, Policy>): Option<AnalyzeError>
  {
    if user.None? then Some(Unauthorized)
    else if policyId == "" || |frameworks| == 0 then Some(MissingArguments)
    else if policyId !in policies then Some(PolicyNotFound)
    else None
  }

  /** The response to an admitted request whose first `done` planned writes took effect. */
  function Outcome(plan: seq<Write>, done: nat, policyId: string, frameworks: seq<string>, catalog: seq<Control>,
                   text: string, now: string): AnalyzeResponse
  {
    if done < |plan| then Failure(ServerError)
    else if text == "" then Failure(NoText)
    else Success(RunResults(policyId, frameworks, catalog, text, now),
                 |RunMappings(policyId, frameworks, catalog, text)|,
                 |RunGaps(policyId, frameworks, catalog, text)|)
  }

  /** Turned away exactly when there is no user, no policy id, no framework
      or no such policy, in that order of checks. */
  lemma RejectionSpec(user: Option<string>, policyId: string, frameworks: seq<string>, policies: map<string, Policy>)
    ensures Rejection(user, policyId, frameworks, policies).None?
            <==> user.Some? && policyId != "" && |frameworks| > 0 && policyId in policies
    ensures Rejection(user, policyId, frameworks, policies) == Some(PolicyNotFound)
            <==> user.Some? && policyId != "" && |frameworks| > 0 && policyId !in policies
  {
  }

  // ---------------------------------------------------------------------
  // What a run leaves in the store
  // ---------------------------------------------------------------------

  lemma {:induction false} ApplyAllAppend(db: Db, a: seq<Write>, b: seq<Write>)
    ensures ApplyAll(db, a + b) == ApplyAll(ApplyAll(db, a), b)
    decreases |b|
  {
    if |b| == 0 {
      assert a + b == a;
    } else {
      ApplyAllAppend(db, a, b[..|b| - 1]);
      assert (a + b)[..|a + b| - 1] == a + b[..|b| - 1];
    }
  }

  lemma ApplyOne(db: Db, w: Write)
    ensures ApplyAll(db, [w]) == Apply(db, w)
  {
    assert [w][..0] == [];
  }

  /** The result writes append the results, in order, and change nothing else. */
  lemma {:induction false} ApplyResultWrites(db: Db, rs: seq<ComplianceResult>)
    ensures ApplyAll(db, ResultWrites(rs)) == db.(results := db.results + rs)
    decreases |rs|
  {
    if |rs| == 0 {
      assert db.results + rs == db.results;
    } else {
      var init := rs[..|rs| - 1];
      ApplyResultWrites(db, init);
      assert ResultWrites(rs)[..|rs| - 1] == ResultWrites(init);
      assert rs == init + [rs[|rs| - 1]];
    }
  }

  /** The insight a run adds: the gap_priority one exactly when some gap is Critical. */
  function InsightsAdded(policyId: string, gs: seq<Gap>): seq<Insight>
  {
    if |CriticalGaps(gs)| > 0 then [CriticalInsight(policyId, |CriticalGaps(gs)|)] else []
  }

  /** A write made only when `cond` holds. */
  lemma ApplyWhen(db: Db, cond: bool, w: Write, rest: seq<Write>)
    ensures ApplyAll(db, if cond then [w] + rest else rest) == ApplyAll(if cond then Apply(db, w) else db, rest)
  {
    if cond {
      ApplyAllAppend(db, [w], rest);
      ApplyOne(db, w);
    }
  }

  lemma ApplyGapWrites(db: Db, policyId: string, gs: seq<Gap>, rest: seq<Write>)
    ensures ApplyAll(db, GapWrites(policyId, gs, rest))
            == ApplyAll(db.(gaps := db.gaps + gs, insights := db.insights + InsightsAdded(policyId, gs)), rest)
  {
    var critical := |CriticalGaps(gs)|;
    var insight := CreateInsight(CriticalInsight(policyId, critical));
    var fromInsight := if critical > 0 then [insight] + rest else rest;
    var db' := if |gs| > 0 then Apply(db, BulkCreateGaps(gs)) else db;
    ApplyWhen(db, |gs| > 0, BulkCreateGaps(gs), fromInsight);
    ApplyWhen(db', critical > 0, insight, rest);
    if |gs| == 0 {
      assert db.gaps + gs == db.gaps;
      assert CriticalGaps(gs) == [];
    }
    if critical == 0 {
      assert db.insights + InsightsAdded(policyId, gs) == db.insights;
    }
  }

  lemma ApplyFindingWrites(db: Db, policyId: string, ms: seq<Mapping>, gs: seq<Gap>, rest: seq<Write>)
    ensures ApplyAll(db, FindingWrites(policyId, ms, gs, rest))
            == ApplyAll(db.(mappings := db.mappings + ms, gaps := db.gaps + gs,
                            insights := db.insights + InsightsAdded(policyId, gs)), rest)
  {
    ApplyWhen(db, |ms| > 0, BulkCreateMappings(ms), GapWrites(policyId, gs, rest));
    ApplyGapWrites(db.(mappings := db.mappings + ms), policyId, gs, rest);
    if |ms| == 0 {
      assert db.mappings + ms == db.mappings;
    }
  }

  /** The policy `id` with its status, and its analysis time when one is given. */
  function WithStatus(policies: map<string, Policy>, id: string, status: PolicyStatus, at: Option<string>): map<string, Policy>
    requires id in policies
  {
    var p := policies[id];
    policies[id := p.(status := status, lastAnalyzedAt := if at.Some? then at.value else p.lastAnalyzedAt)]
  }

  lemma ApplyFinishWrites(db: Db, policyId: string, frameworkCount: nat, actor: string, now: string)
    requires policyId in db.policies
    ensures ApplyAll(db, FinishWrites(policyId, frameworkCount, actor, now))
            == db.(policies := WithStatus(db.policies, policyId, Analyzed, Some(now)),
                   audit := db.audit + [CompletionAudit(actor, policyId, frameworkCount)])
  {
    var ws := FinishWrites(policyId, frameworkCount, actor, now);
    assert ws[..1] == [ws[0]] && ws[..2] == ws;
    ApplyAllStep(db, ws, 1);
    ApplyOne(db, ws[0]);
  }

  /** What the writes of a run leave in the store when all of them take effect. */
  lemma ApplyRunWrites(db0: Db, policyId: string, rs: seq<ComplianceResult>, ms: seq<Mapping>, gs: seq<Gap>,
                       frameworkCount: nat, actor: string, now: string)
    requires policyId in db0.policies
    ensures var db := ApplyAll(db0, RunWrites(policyId, rs, ms, gs, frameworkCount, actor, now));
            && db.policies == WithStatus(db0.policies, policyId, Analyzed, Some(now))
            && db.results == db0.results + rs
            && db.mappings == db0.mappings + ms
            && db.gaps == db0.gaps + gs
            && db.insights == db0.insights + InsightsAdded(policyId, gs)
            && db.audit == db0.audit + [CompletionAudit(actor, policyId, frameworkCount)]
  {
    var first := UpdatePolicyStatus(policyId, Processing, None);
    var finish := FinishWrites(policyId, frameworkCount, actor, now);
    ApplyAllAppend(db0, [first] + ResultWrites(rs), FindingWrites(policyId, ms, gs, finish));
    ApplyAllAppend(db0, [first], ResultWrites(rs));
    ApplyOne(db0, first);
    var db1 := db0.(policies := WithStatus(db0.policies, policyId, Processing, None));
    ApplyResultWrites(db1, rs);
    var db2 := db1.(results := db1.results + rs);
    ApplyFindingWrites(db2, policyId, ms, gs, finish);
    var db3 := db2.(mappings := db2.mappings + ms, gaps := db2.gaps + gs,
                    insights := db2.insights + InsightsAdded(policyId, gs));
    ApplyFinishWrites(db3, policyId, frameworkCount, actor, now);
    assert WithStatus(db1.policies, policyId, Analyzed, Some(now)) == WithStatus(db0.policies, policyId, Analyzed, Some(now));
  }

  /** A run that completes: the policy ends Analyzed at `now`, and the store
      gains the run's results, mappings and gaps in order, at most one
      gap_priority insight (exactly one when some gap is Critical) and the
      completion audit entry. */
  lemma CompletedRun(db0: Db, policyId: string, policy: Policy, frameworks: seq<string>, catalog: seq<Control>,
                     extracted: string, actor: string, now: string)
    requires policyId in db0.policies && ResolveText(policy, extracted) != ""
    ensures var text := ResolveText(policy, extracted);
            var gs := RunGaps(policyId, frameworks, catalog, text);
            var db := ApplyAll(db0, Plan(policyId, policy, frameworks, catalog, extracted, actor, now));
            && db.policies == WithStatus(db0.policies, policyId, Analyzed, Some(now))
            && db.results == db0.results + RunResults(policyId, frameworks, catalog, text, now)
            && db.mappings == db0.mappings + RunMappings(policyId, frameworks, catalog, text)
            && db.gaps == db0.gaps + gs
            && db.insights == db0.insights
                              + (if exists i :: 0 <= i < |gs| && IsCritical(gs[i])
                                 then [CriticalInsight(policyId, |CriticalGaps(gs)|)] else [])
            && db.audit == db0.audit + [CompletionAudit(actor, policyId, |frameworks|)]
  {
    var text := ResolveText(policy, extracted);
    var gs := RunGaps(policyId, frameworks, catalog, text);
    ApplyRunWrites(db0, policyId, RunResults(policyId, frameworks, catalog, text, now),
                   RunMappings(policyId, frameworks, catalog, text), gs, |frameworks|, actor, now);
    CriticalGapsExist(gs);
  }

  /** `ws` is some writes that touch no policy, followed by `rest`. */
  ghost predicate KeepsStatusThen(ws: seq<Write>, rest: seq<Write>)
  {
    && |rest| <= |ws|
    && ws[|ws| - |rest|..] == rest
    && forall j :: 0 <= j < |ws| - |rest| ==> !ws[j].UpdatePolicyStatus?
  }

  lemma PrependKeepsStatus(w: Write, ws: seq<Write>, rest: seq<Write>)
    requires !w.UpdatePolicyStatus? && KeepsStatusThen(ws, rest)
    ensures KeepsStatusThen([w] + ws, rest)
  {
    var ws' := [w] + ws;
    assert ws'[|ws'| - |rest|..] == ws[|ws| - |rest|..];
    forall j | 0 <= j < |ws'| - |rest|
      ensures !ws'[j].UpdatePolicyStatus?
    {
      if j > 0 {
        assert ws'[j] == ws[j - 1];
      }
    }
  }

  /** The optional closing writes touch no policy. */
  lemma FindingWritesKeepStatus(policyId: string, ms: seq<Mapping>, gs: seq<Gap>, rest: seq<Write>)
    ensures KeepsStatusThen(FindingWrites(policyId, ms, gs, rest), rest)
  {
    var critical := |CriticalGaps(gs)|;
    var insight := CreateInsight(CriticalInsight(policyId, critical));
    var fromInsight := if critical > 0 then [insight] + rest else rest;
    var fromGaps := if |gs| > 0 then [BulkCreateGaps(gs)] + fromInsight else fromInsight;
    assert rest[|rest| - |rest|..] == rest;
    assert KeepsStatusThen(rest, rest);
    if critical > 0 {
      PrependKeepsStatus(insight, rest, rest);
    }
    if |gs| > 0 {
      PrependKeepsStatus(BulkCreateGaps(gs), fromInsight, rest);
    }
    assert GapWrites(policyId, gs, rest) == fromGaps;
    if |ms| > 0 {
      PrependKeepsStatus(BulkCreateMappings(ms), fromGaps, rest);
    }
  }

  /** The writes between the `processing` update and the `analyzed` one touch
      no policy. */
  lemma MiddleWritesKeepStatus(policyId: string, rs: seq<ComplianceResult>, ms: seq<Mapping>, gs: seq<Gap>,
                               frameworkCount: nat, actor: string, now: string)
    ensures var ws := RunWrites(policyId, rs, ms, gs, frameworkCount, actor, now);
            && |ws| >= 3
            && forall i :: 1 <= i < |ws| - 2 ==> !ws[i].UpdatePolicyStatus?
  {
    var finish := FinishWrites(policyId, frameworkCount, actor, now);
    FindingWritesKeepStatus(policyId, ms, gs, finish);
    SandwichKeepsStatus(UpdatePolicyStatus(policyId, Processing, None), ResultWrites(rs),
                        FindingWrites(policyId, ms, gs, finish), finish);
  }

  lemma SandwichKeepsStatus(first: Write, middle: seq<Write>, closing: seq<Write>, finish: seq<Write>)
    requires forall j :: 0 <= j < |middle| ==> !middle[j].UpdatePolicyStatus?
    requires KeepsStatusThen(closing, finish)
    ensures var ws := [first] + middle + closing;
            forall i :: 1 <= i < |ws| - |finish| ==> !ws[i].UpdatePolicyStatus?
  {
    var ws := [first] + middle + closing;
    forall i | 1 <= i < |ws| - |finish|
      ensures !ws[i].UpdatePolicyStatus?
    {
      if i < 1 + |middle| {
        assert ws[i] == middle[i - 1];
      } else {
        assert ws[i] == closing[i - 1 - |middle|];
      }
    }
  }

  lemma {:induction false} KeepPolicies(db: Db, ws: seq<Write>)
    requires forall i :: 0 <= i < |ws| ==> !ws[i].UpdatePolicyStatus?
    ensures ApplyAll(db, ws).policies == db.policies
    decreases |ws|
  {
    if |ws| > 0 {
      KeepPolicies(db, ws[..|ws| - 1]);
    }
  }

  /** A write that throws after the `processing` update and before the
      `analyzed` one leaves the policy stuck in Processing. */
  lemma InterruptedWrites(db0: Db, policyId: string, rs: seq<ComplianceResult>, ms: seq<Mapping>, gs: seq<Gap>,
                          frameworkCount: nat, actor: string, now: string, k: nat)
    requires policyId in db0.policies
    requires 1 <= k <= |RunWrites(policyId, rs, ms, gs, frameworkCount, actor, now)| - 2
    ensures ApplyAll(db0, RunWrites(policyId, rs, ms, gs, frameworkCount, actor, now)[..k]).policies
            == WithStatus(db0.policies, policyId, Processing, None)
  {
    MiddleWritesKeepStatus(policyId, rs, ms, gs, frameworkCount, actor, now);
    PrefixKeepsFirstStatus(db0, RunWrites(policyId, rs, ms, gs, frameworkCount, actor, now), k, 2);
  }

  /** The first `k` writes leave the policies as the first write left them
      when none of the writes after it and before the last `tail` does. */
  lemma PrefixKeepsFirstStatus(db0: Db, ws: seq<Write>, k: nat, tail: nat)
    requires 1 <= k <= |ws| - tail
    requires forall i :: 1 <= i < |ws| - tail ==> !ws[i].UpdatePolicyStatus?
    ensures ApplyAll(db0, ws[..k]).policies == Apply(db0, ws[0]).policies
  {
    assert ws[..k] == [ws[0]] + ws[1..k];
    ApplyAllAppend(db0, [ws[0]], ws[1..k]);
    ApplyOne(db0, ws[0]);
    KeepPolicies(Apply(db0, ws[0]), ws[1..k]);
  }

  /** The same for the handler's run: the policy stays Processing and the
      handler answers 500. */
  lemma InterruptedRun(db0: Db, policyId: string, policy: Policy, frameworks: seq<string>, catalog: seq<Control>,
                       extracted: string, actor: string, now: string, failingWrite: nat)
    requires policyId in db0.policies && ResolveText(policy, extracted) != ""
    requires 1 <= failingWrite <= |Plan(policyId, policy, frameworks, catalog, extracted, actor, now)| - 2
    ensures var plan := Plan(policyId, policy, frameworks, catalog, extracted, actor, now);
            var done := WritesDone(plan, Some(failingWrite));
            && ApplyAll(db0, plan[..done]).policies == WithStatus(db0.policies, policyId, Processing, None)
            && Outcome(plan, done, policyId, frameworks, catalog, ResolveText(policy, extracted), now) == Failure(ServerError)
  {
    var text := ResolveText(policy, extracted);
    InterruptedWrites(db0, policyId, RunResults(policyId, frameworks, catalog, text, now),
                      RunMappings(policyId, frameworks, catalog, text), RunGaps(policyId, frameworks, catalog, text),
                      |frameworks|, actor, now, failingWrite);
  }

  /** Nothing to analyse: the policy ends Failed, nothing else is written,
      and the handler answers 400 with no results, mappings or gaps. */
  lemma UnreadablePolicy(db0: Db, policyId: string, policy: Policy, frameworks: seq<string>, catalog: seq<Control>,
                         extracted: string, actor: string, now: string)
    requires policyId in db0.policies && ResolveText(policy, extracted) == ""
    ensures var plan := Plan(policyId, policy, frameworks, catalog, extracted, actor, now);
            && ApplyAll(db0, plan) == db0.(policies := WithStatus(db0.policies, policyId, Failed, None))
            && Outcome(plan, |plan|, policyId, frameworks, catalog, "", now) == Failure(NoText)
  {
    var plan := Plan(policyId, policy, frameworks, catalog, extracted, actor, now);
    ApplyAllStep(db0, plan, 1);
    ApplyOne(db0, plan[0]);
    assert plan[..1] == [plan[0]] && plan[..2] == plan;
  }

  class Backend {
    var policies: map<string, Policy>
    var catalog: seq<Control>
    var results: seq<ComplianceResult>
    var mappings: seq<Mapping>
    var gaps: seq<Gap>
    var insights: seq<Insight>
    var audit: seq<AuditEntry>
    /** Every write made so far, in order. */
    var log: seq<Write>

    function State(): Db
      reads this
    {
      Db(policies, results, mappings, gaps, insights, audit)
    }

    constructor (policies: map<string, Policy>, catalog: seq<Control>)
      ensures this.policies == policies && this.catalog == catalog
      ensures results == [] && mappings == [] && gaps == [] && insights == [] && audit == [] && log == []
    {
      this.policies := policies;
      this.catalog := catalog;
      results, mappings, gaps, insights, audit, log := [], [], [], [], [], [];
    }

    /** One write to the store, or an exception when `fails`. */
    method Perform(w: Write, fails: bool) returns (ok: bool)
      modifies this
      ensures ok == !fails
      ensures ok ==> State() == Apply(old(State()), w) && log == old(log) + [w]
      ensures !ok ==> State() == old(State()) && log == old(log)
      ensures catalog == old(catalog)
    {
      if fails {
        return false;
      }
      match w {
        case UpdatePolicyStatus(id, s, at) =>
          if id in policies {
            var p := policies[id];
            policies := policies[id := p.(status := s, lastAnalyzedAt := if at.Some? then at.value else p.lastAnalyzedAt)];
          }
        case CreateResult(r) => results := results + [r];
        case BulkCreateMappings(ms) => mappings := mappings + ms;
        case BulkCreateGaps(gs) => gaps := gaps + gs;
        case CreateInsight(i) => insights := insights + [i];
        case CreateAudit(e) => audit := audit + [e];
      }
      log := log + [w];
      return true;
    }

    /** The store and its log are what the writes `ws` make of `db0` and `log0`. */
    ghost predicate Agrees(db0: Db, log0: seq<Write>, ws: seq<Write>)
      reads this
    {
      log == log0 + ws && State() == ApplyAll(db0, ws)
    }

    /** Write number `written` of `plan`, applied on top of the first `written` ones. */
    method Step(w: Write, ghost plan: seq<Write>, ghost db0: Db, ghost log0: seq<Write>, written: nat,
                failingWrite: Option<nat>) returns (ok: bool)
      modifies this
      requires written < |plan| && plan[written] == w
      requires Agrees(db0, log0, plan[..written])
      ensures catalog == old(catalog)
      ensures ok <==> !(failingWrite.Some? && failingWrite.value == written)
      ensures ok ==> Agrees(db0, log0, plan[..written + 1])
      ensures !ok ==> log == old(log) && State() == old(State())
    {
      ok := Perform(w, failingWrite == Some(written));
      if ok {
        ApplyAllStep(db0, plan, written);
        assert plan[..written + 1] == plan[..written] + [w];
      }
    }

    /** One round of the framework loop: analyse framework `i`, store its
        ComplianceResult as write `1 + i` of `plan`, and extend the running
        results, mappings and gaps by that framework's. */
    method WriteFramework(policyId: string, frameworks: seq<string>, i: nat, extractedText: string, policyText: string,
                          now: string, ghost plan: seq<Write>, ghost db0: Db, ghost log0: seq<Write>,
                          failingWrite: Option<nat>, created: seq<ComplianceResult>, allMappings: seq<Mapping>, allGaps: seq<Gap>)
      returns (ok: bool, created': seq<ComplianceResult>, allMappings': seq<Mapping>, allGaps': seq<Gap>)
      modifies this
      requires policyText == Lower(extractedText)
      requires i < |frameworks| && 1 + |frameworks| <= |plan|
      requires plan[1..1 + |frameworks|] == ResultWrites(RunResults(policyId, frameworks, catalog, extractedText, now))
      requires Agrees(db0, log0, plan[..1 + i])
      requires created == RunResults(policyId, frameworks[..i], catalog, extractedText, now)
      requires allMappings == RunMappings(policyId, frameworks[..i], catalog, extractedText)
      requires allGaps == RunGaps(policyId, frameworks[..i], catalog, extractedText)
      ensures catalog == old(catalog)
      ensures ok <==> !(failingWrite.Some? && failingWrite.value == 1 + i)
      ensures !ok ==> Agrees(db0, log0, plan[..1 + i])
      ensures ok ==> && Agrees(db0, log0, plan[..2 + i])
                     && created' == RunResults(policyId, frameworks[..i + 1], catalog, extractedText, now)
                     && allMappings' == RunMappings(policyId, frameworks[..i + 1], catalog, extractedText)
                     && allGaps' == RunGaps(policyId, frameworks[..i + 1], catalog, extractedText)
    {
      RunResultAt(policyId, frameworks, catalog, extractedText, now, i);
      RunSnoc(policyId, frameworks, i, catalog, extractedText, now);
      assert plan[1 + i] == plan[1..1 + |frameworks|][i];
      var controls := ControlsOf(catalog, frameworks[i]);
      var result, frameworkMappings, frameworkGaps := AnalyzeFramework(policyId, frameworks[i], controls, extractedText, policyText, now);
      ok := Step(CreateResult(result), plan, db0, log0, 1 + i, failingWrite);
      created', allMappings', allGaps' := created + [result], allMappings + frameworkMappings, allGaps + frameworkGaps;
    }

    /** The framework loop of the handler: analyse each framework and store
        its ComplianceResult, as writes `1 .. |frameworks|` of `plan`. */
    method WriteResults(policyId: string, frameworks: seq<string>, extractedText: string, policyText: string,
                        now: string, ghost plan: seq<Write>, ghost db0: Db, ghost log0: seq<Write>,
                        failingWrite: Option<nat>)
      returns (ok: bool, created: seq<ComplianceResult>, allMappings: seq<Mapping>, allGaps: seq<Gap>)
      modifies this
      requires policyText == Lower(extractedText)
      requires 1 + |frameworks| <= |plan|
      requires plan[1..1 + |frameworks|] == ResultWrites(RunResults(policyId, frameworks, catalog, extractedText, now))
      requires Agrees(db0, log0, plan[..1])
      ensures catalog == old(catalog)
      ensures var n := if failingWrite.Some? && 1 <= failingWrite.value <= |frameworks| then failingWrite.value else 1 + |frameworks|;
              && (ok <==> n == 1 + |frameworks|)
              && Agrees(db0, log0, plan[..n])
      ensures ok ==> && created == RunResults(policyId, frameworks, catalog, extractedText, now)
                     && allMappings == RunMappings(policyId, frameworks, catalog, extractedText)
                     && allGaps == RunGaps(policyId, frameworks, catalog, extractedText)
    {
      created, allMappings, allGaps := [], [], [];
      for i := 0 to |frameworks|
        invariant catalog == old(catalog)
        invariant failingWrite.Some? ==> !(1 <= failingWrite.value < 1 + i)
        invariant Agrees(db0, log0, plan[..1 + i])
        invariant created == RunResults(policyId, frameworks[..i], catalog, extractedText, now)
        invariant allMappings == RunMappings(policyId, frameworks[..i], catalog, extractedText)
        invariant allGaps == RunGaps(policyId, frameworks[..i], catalog, extractedText)
      {
        ok, created, allMappings, allGaps :=
          WriteFramework(policyId, frameworks, i, extractedText, policyText, now, plan, db0, log0, failingWrite,
                         created, allMappings, allGaps);
        if !ok {
          return;
        }
      }
      ok := true;
      assert frameworks[..|frameworks|] == frameworks;
    }

    /** The `analyze_policy` handler. `user` is the signed-in user's e-mail,
        `extracted` what the extraction service returns for the policy's file
        ("" when it fails), `failingWrite` the write (counting from 0) at
        which the store throws, if any, and `now` the clock. */
    method Analyze(user: Option<string>, policyId: string, frameworks: seq<string>, extracted: string,
                   failingWrite: Option<nat>, now: string) returns (response: AnalyzeResponse)
      modifies this
      ensures catalog == old(catalog)
      ensures Rejection(user, policyId, frameworks, old(policies)).Some? ==>
                && response == Failure(Rejection(user, policyId, frameworks, old(policies)).value)
                && State() == old(State()) && log == old(log)
      ensures Rejection(user, policyId, frameworks, old(policies)).None? ==>
                var policy := old(policies)[policyId];
                var plan := Plan(policyId, policy, frameworks, old(catalog), extracted, user.value, now);
                var done := WritesDone(plan, failingWrite);
                && log == old(log) + plan[..done]
                && State() == ApplyAll(old(State()), plan[..done])
                && response == Outcome(plan, done, policyId, frameworks, old(catalog), ResolveText(policy, extracted), now)
    {
      if user.None? {
        return Failure(Unauthorized);
      }
      if policyId == "" || |frameworks| == 0 {
        return Failure(MissingArguments);
      }
      if policyId !in policies {
        return Failure(PolicyNotFound);
      }
      var policy := policies[policyId];
      response := Admitted(user.value, policyId, policy, frameworks, extracted, failingWrite, now);
    }

    /** The handler once the request is admitted: everything from the
        `processing` status update on. */
    method Admitted(actor: string, policyId: string, policy: Policy, frameworks: seq<string>, extracted: string,
                    failingWrite: Option<nat>, now: string) returns (response: AnalyzeResponse)
      modifies this
      ensures catalog == old(catalog)
      ensures var plan := Plan(policyId, policy, frameworks, old(catalog), extracted, actor, now);
              var done := WritesDone(plan, failingWrite);
              && Agrees(old(State()), old(log), plan[..done])
              && response == Outcome(plan, done, policyId, frameworks, old(catalog), ResolveText(policy, extracted), now)
    {
      ghost var db0, log0 := State(), log;
      ghost var plan := Plan(policyId, policy, frameworks, catalog, extracted, actor, now);
      assert plan[..0] == [];

      var ok := Step(UpdatePolicyStatus(policyId, Processing, None), plan, db0, log0, 0, failingWrite);
      if !ok {
        return Failure(ServerError);
      }

      var extractedText := policy.contentPreview;
      if extractedText == "" && policy.fileUrl != "" {
        extractedText := extracted;
      }
      assert extractedText == ResolveText(policy, extracted);
      if extractedText == "" {
        response := MarkUnreadable(policyId, plan, db0, log0, failingWrite);
      } else {
        ghost var rws := ResultWrites(RunResults(policyId, frameworks, catalog, extractedText, now));
        assert plan[1..1 + |frameworks|] == rws;
        response := AnalyzeText(actor, policyId, frameworks, extractedText, now, plan, db0, log0, failingWrite);
      }
    }

    /** Nothing could be extracted: the policy is marked Failed and the
        handler answers 400. */
    method MarkUnreadable(policyId: string, ghost plan: seq<Write>, ghost db0: Db, ghost log0: seq<Write>,
                          failingWrite: Option<nat>) returns (response: AnalyzeResponse)
      modifies this
      requires plan == [UpdatePolicyStatus(policyId, Processing, None), UpdatePolicyStatus(policyId, Failed, None)]
      requires Agrees(db0, log0, plan[..1])
      requires !(failingWrite.Some? && failingWrite.value == 0)
      ensures catalog == old(catalog)
      ensures Agrees(db0, log0, plan[..WritesDone(plan, failingWrite)])
      ensures response == if WritesDone(plan, failingWrite) < |plan| then Failure(ServerError) else Failure(NoText)
    {
      var ok := Step(UpdatePolicyStatus(policyId, Failed, None), plan, db0, log0, 1, failingWrite);
      if !ok {
        return Failure(ServerError);
      }
      assert plan[..2] == plan;
      return Failure(NoText);
    }

    /** The handler once it has text to analyse: the framework loop, then the
        closing writes, as writes `1 ..` of `plan`. */
    method AnalyzeText(actor: string, policyId: string, frameworks: seq<string>, extractedText: string, now: string,
                       ghost plan: seq<Write>, ghost db0: Db, ghost log0: seq<Write>, failingWrite: Option<nat>)
      returns (response: AnalyzeResponse)
      modifies this
      requires 1 + |frameworks| <= |plan|
      requires plan[1..1 + |frameworks|] == ResultWrites(RunResults(policyId, frameworks, catalog, extractedText, now))
      requires plan[1 + |frameworks|..] == ClosingWrites(policyId, RunMappings(policyId, frameworks, catalog, extractedText),
                                                         RunGaps(policyId, frameworks, catalog, extractedText), |frameworks|, actor, now)
      requires Agrees(db0, log0, plan[..1])
      requires !(failingWrite.Some? && failingWrite.value == 0)
      ensures catalog == old(catalog)
      ensures Agrees(db0, log0, plan[..WritesDone(plan, failingWrite)])
      ensures response == if WritesDone(plan, failingWrite) < |plan| then Failure(ServerError)
                          else Success(RunResults(policyId, frameworks, catalog, extractedText, now),
                                       |RunMappings(policyId, frameworks, catalog, extractedText)|,
                                       |RunGaps(policyId, frameworks, catalog, extractedText)|)
    {
      var policyText := Lower(extractedText);
      var ok, created, allMappings, allGaps := WriteResults(policyId, frameworks, extractedText, policyText, now, plan, db0, log0, failingWrite);
      if !ok {
        return Failure(ServerError);
      }
      ok := Close(policyId, allMappings, allGaps, |frameworks|, actor, now, plan, db0, log0, 1 + |frameworks|, failingWrite);
      if !ok {
        return Failure(ServerError);
      }
      return Success(created, |allMappings|, |allGaps|);
    }

    /** A write the handler makes only when `cond` holds (a non-empty list, a
        critical gap); `rest` is what `plan` holds after it. */
    method StepWhen(cond: bool, w: Write, ghost rest: seq<Write>, ghost plan: seq<Write>, ghost db0: Db,
                    ghost log0: seq<Write>, written: nat, failingWrite: Option<nat>) returns (ok: bool, next: nat)
      modifies this
      requires written <= |plan| && plan[written..] == (if cond then [w] + rest else rest)
      requires Agrees(db0, log0, plan[..written])
      ensures catalog == old(catalog)
      ensures ok <==> !(cond && failingWrite.Some? && failingWrite.value == written)
      ensures ok ==> && written <= next <= |plan| && plan[next..] == rest && Agrees(db0, log0, plan[..next])
                     && !(failingWrite.Some? && written <= failingWrite.value < next)
      ensures !ok ==> next == written < |plan| && Agrees(db0, log0, plan[..written])
    {
      next := written;
      ok := true;
      if cond {
        assert plan[written] == plan[written..][0];
        ok := Step(w, plan, db0, log0, written, failingWrite);
        if ok {
          next := written + 1;
          assert plan[next..] == plan[written..][1..];
        }
      }
    }

    /** The bulk writes of the mappings and gaps and the gap_priority insight,
        each only when there is something to write, as writes `start ..` of `plan`. */
    method WriteFindings(policyId: string, allMappings: seq<Mapping>, allGaps: seq<Gap>, ghost finish: seq<Write>,
                         ghost plan: seq<Write>, ghost db0: Db, ghost log0: seq<Write>,
                         start: nat, failingWrite: Option<nat>) returns (ok: bool, written: nat)
      modifies this
      requires start <= |plan|
      requires plan[start..] == FindingWrites(policyId, allMappings, allGaps, finish)
      requires Agrees(db0, log0, plan[..start])
      ensures catalog == old(catalog)
      ensures start <= written <= |plan|
      ensures ok ==> plan[written..] == finish && Agrees(db0, log0, plan[..written])
                     && !(failingWrite.Some? && start <= failingWrite.value < written)
      ensures !ok ==> failingWrite.Some? && failingWrite.value == written < |plan| && Agrees(db0, log0, plan[..written])
    {
      ok, written := StepWhen(|allMappings| > 0, BulkCreateMappings(allMappings), GapWrites(policyId, allGaps, finish),
                              plan, db0, log0, start, failingWrite);
      if ok {
        var next;
        ok, next := WriteGapFindings(policyId, allGaps, finish, plan, db0, log0, written, failingWrite);
        written := next;
      }
    }

    /** The gaps and the gap_priority insight, as writes `start ..` of `plan`. */
    method WriteGapFindings(policyId: string, allGaps: seq<Gap>, ghost finish: seq<Write>,
                            ghost plan: seq<Write>, ghost db0: Db, ghost log0: seq<Write>,
                            start: nat, failingWrite: Option<nat>) returns (ok: bool, written: nat)
      modifies this
      requires start <= |plan|
      requires plan[start..] == GapWrites(policyId, allGaps, finish)
      requires Agrees(db0, log0, plan[..start])
      ensures catalog == old(catalog)
      ensures start <= written <= |plan|
      ensures ok ==> plan[written..] == finish && Agrees(db0, log0, plan[..written])
                     && !(failingWrite.Some? && start <= failingWrite.value < written)
      ensures !ok ==> failingWrite.Some? && failingWrite.value == written < |plan| && Agrees(db0, log0, plan[..written])
    {
      var criticalGaps := CriticalGaps(allGaps);
      ghost var fromInsight := if |criticalGaps| > 0 then [CreateInsight(CriticalInsight(policyId, |criticalGaps|))] + finish else finish;
      ok, written := StepWhen(|allGaps| > 0, BulkCreateGaps(allGaps), fromInsight, plan, db0, log0, start, failingWrite);
      if ok {
        var next;
        ok, next := StepWhen(|criticalGaps| > 0, CreateInsight(CriticalInsight(policyId, |criticalGaps|)), finish,
                             plan, db0, log0, written, failingWrite);
        written := next;
      }
    }

    /** The handler after its framework loop: the closing writes, as writes
        `start ..` of `plan`. */
    method Close(policyId: string, allMappings: seq<Mapping>, allGaps: seq<Gap>, frameworkCount: nat,
                 actor: string, now: string, ghost plan: seq<Write>, ghost db0: Db, ghost log0: seq<Write>,
                 start: nat, failingWrite: Option<nat>) returns (ok: bool)
      modifies this
      requires start <= |plan| && plan[start..] == ClosingWrites(policyId, allMappings, allGaps, frameworkCount, actor, now)
      requires Agrees(db0, log0, plan[..start])
      requires !(failingWrite.Some? && failingWrite.value < start)
      ensures catalog == old(catalog)
      ensures ok <==> WritesDone(plan, failingWrite) == |plan|
      ensures Agrees(db0, log0, plan[..WritesDone(plan, failingWrite)])
    {
      ghost var finish := FinishWrites(policyId, frameworkCount, actor, now);
      var written;
      ok, written := WriteFindings(policyId, allMappings, allGaps, finish, plan, db0, log0, start, failingWrite);
      if ok {
        ok := Finish(policyId, frameworkCount, actor, now, plan, db0, log0, written, failingWrite);
      }
    }

    /** The last two writes: the policy becomes Analyzed, then the audit entry. */
    method Finish(policyId: string, frameworkCount: nat, actor: string, now: string,
                  ghost plan: seq<Write>, ghost db0: Db, ghost log0: seq<Write>,
                  start: nat, failingWrite: Option<nat>) returns (ok: bool)
      modifies this
      requires start <= |plan| && plan[start..] == FinishWrites(policyId, frameworkCount, actor, now)
      requires Agrees(db0, log0, plan[..start])
      requires !(failingWrite.Some? && failingWrite.value < start)
      ensures catalog == old(catalog)
      ensures ok <==> WritesDone(plan, failingWrite) == |plan|
      ensures Agrees(db0, log0, plan[..WritesDone(plan, failingWrite)])
    {
      assert plan[start] == UpdatePolicyStatus(policyId, Analyzed, Some(now));
      assert plan[start + 1] == CreateAudit(CompletionAudit(actor, policyId, frameworkCount));
      ok := Step(UpdatePolicyStatus(policyId, Analyzed, Some(now)), plan, db0, log0, start, failingWrite);
      if ok {
        ok := Step(CreateAudit(CompletionAudit(actor, policyId, frameworkCount)), plan, db0, log0, start + 1, failingWrite);
        if ok {
          assert plan[..start + 2] == plan;
        }
      }
    }
  }
}
