/** The claim verifier: it splits a text into claims, scores each claim by how
    many of its words occur in the sources, puts the score in one of three
    fixed confidence buckets and reports the mean confidence. */
module FactChecker {
  import opened Results
  import opened Text
  import opened Scanners
  import opened Stats

  // ---------------------------------------------------------------------------
  // Splitting a text into claims
  // ---------------------------------------------------------------------------

  /** A character at which `re.split(r'[.!?]+|\n+', ...)` cuts the text. */
  predicate ClaimBreak(c: char) {
    c == '.' || c == '!' || c == '?' || c == '\n'
  }

  predicate NotBreak(c: char) { !ClaimBreak(c) }

  /** The pieces between the break characters. `re.split` cuts at whole runs of
      breaks; cutting at each one only adds empty pieces, which no claim keeps. */
  function Sentences(s: string): (r: seq<string>)
    ensures |r| >= 1
    ensures forall k :: 0 <= k < |r| ==> forall c :: c in r[k] ==> !ClaimBreak(c)
    decreases |s|
  {
    var e := SpanFrom(s, 0, NotBreak);
    assert forall c :: c in s[..e] ==> !ClaimBreak(c) by {
      forall c | c in s[..e] ensures !ClaimBreak(c) {
        var k :| 0 <= k < e && s[..e][k] == c;
        assert NotBreak(s[k]);
      }
    }
    if e == |s| then [s] else [s[..e]] + Sentences(s[e + 1..])
  }

  /** The filter of `_parse_claims`: after stripping, longer than ten characters
      and not starting with "http" or "www". */
  predicate Keeps(sentence: string) {
    var t := Strip(sentence);
    |t| > 10 && !StartsWith(t, "http") && !StartsWith(t, "www")
  }

  /** The kept sentences, stripped, in their order. */
  function KeptClaims(sentences: seq<string>): seq<string>
  {
    if sentences == [] then []
    else
      var init := sentences[..|sentences| - 1];
      var last := sentences[|sentences| - 1];
      KeptClaims(init) + (if Keeps(last) then [Strip(last)] else [])
  }

  /** What `_parse_claims(text)` returns. */
  function ClaimsOf(text: string): seq<string>
  {
    KeptClaims(Sentences(text))
  }

  /** `_parse_claims`: strips each piece and keeps the ones that pass the filter. */
  method ParseClaims(text: string) returns (claims: seq<string>)
    ensures claims == ClaimsOf(text)
  {
    var sentences := Sentences(text);
    claims := [];
    var i := 0;
    while i < |sentences|
      invariant 0 <= i <= |sentences|
      invariant claims == KeptClaims(sentences[..i])
    {
      var sentence := Strip(sentences[i]);
      KeptStep(sentences, i);
      if |sentence| > 10 && !StartsWith(sentence, "http") && !StartsWith(sentence, "www") {
        claims := claims + [sentence];
      }
      i := i + 1;
    }
    assert sentences[..i] == sentences;
  }

  lemma KeptStep(sentences: seq<string>, i: nat)
    requires i < |sentences|
    ensures KeptClaims(sentences[..i + 1])
         == KeptClaims(sentences[..i]) + (if Keeps(sentences[i]) then [Strip(sentences[i])] else [])
  {
    assert sentences[..i + 1][..i] == sentences[..i];
  }

  /** A claim as `_parse_claims` promises it: trimmed, longer than ten
      characters, not a link, and free of sentence breaks. */
  ghost predicate CleanClaim(c: string) {
    Strip(c) == c && |c| > 10 && !StartsWith(c, "http") && !StartsWith(c, "www")
    && forall ch :: ch in c ==> !ClaimBreak(ch)
  }

  /** Each kept sentence is a clean claim. */
  lemma {:induction false} KeptClaimsAreClean(sentences: seq<string>, j: nat)
    requires forall k :: 0 <= k < |sentences| ==> forall c :: c in sentences[k] ==> !ClaimBreak(c)
    requires j < |KeptClaims(sentences)|
    ensures CleanClaim(KeptClaims(sentences)[j])
    decreases |sentences|
  {
    var init := sentences[..|sentences| - 1];
    var last := sentences[|sentences| - 1];
    if j < |KeptClaims(init)| {
      KeptClaimsAreClean(init, j);
    } else {
      var t := Strip(last);
      assert KeptClaims(sentences)[j] == t;
      StripIdempotent(last);
      assert forall c :: c in t ==> c in last by {
        forall c | c in t ensures c in last {
          var k :| 0 <= k < |t| && t[k] == c;
          assert t[k] == last[StripStart(last) + k];
        }
      }
    }
  }

  /** Every parsed claim is trimmed, longer than ten characters, not a link,
      and contains no '.', '!', '?' or newline. */
  lemma ClaimsAreClean(text: string, j: nat)
    requires j < |ClaimsOf(text)|
    ensures CleanClaim(ClaimsOf(text)[j])
  {
    KeptClaimsAreClean(Sentences(text), j);
  }

  /** A text without breaks that passes the filter is one claim: itself, stripped. */
  lemma SingleSentenceClaim(text: string)
    requires forall c :: c in text ==> !ClaimBreak(c)
    ensures Sentences(text) == [text]
    ensures ClaimsOf(text) == if Keeps(text) then [Strip(text)] else []
  {
    assert forall k | 0 <= k < |text| :: NotBreak(text[k]) by {
      forall k | 0 <= k < |text| ensures NotBreak(text[k]) {
        assert text[k] in text;
      }
    }
    assert KeptClaims([text]) == KeptClaims([text][..0]) + (if Keeps(text) then [Strip(text)] else []);
  }

  /** A text whose only pieces are links and short fragments gives no claims:
      here, a text of at most ten characters. */
  lemma {:induction false} ShortTextHasNoClaims(sentences: seq<string>)
    requires forall k :: 0 <= k < |sentences| ==> |sentences[k]| <= 10
    ensures KeptClaims(sentences) == []
    decreases |sentences|
  {
    if sentences != [] {
      ShortTextHasNoClaims(sentences[..|sentences| - 1]);
      assert |Strip(sentences[|sentences| - 1])| <= 10;
    }
  }

  // ---------------------------------------------------------------------------
  // Verifying one claim
  // ---------------------------------------------------------------------------

  /** `set(re.findall(r'\b\w+\b', claim.lower()))`. */
  function Keywords(claim: string): (r: set<string>)
    ensures forall w :: w in r ==> w != [] && forall c :: c in w ==> IsWordChar(c)
  {
    var words := FindAll(Word, Lower(claim), 0);
    assert forall w :: w in words ==> Shape(Word, w) by {
      forall w | w in words ensures Shape(Word, w) {
        FoundHasShape(Word, Lower(claim), 0, w);
      }
    }
    set w | w in words
  }

  /** The keywords that occur (as substrings) in the lower-cased sources. */
  function Matching(keywords: set<string>, sources: string): (r: set<string>)
    ensures r <= keywords
  {
    set kw | kw in keywords && Contains(Lower(sources), kw)
  }

  /** `len(matching) / len(claim_keywords) if claim_keywords else 0`. */
  function Overlap(claim: string, sources: string): real
  {
    var ks := Keywords(claim);
    if |ks| == 0 then 0.0 else |Matching(ks, sources)| as real / |ks| as real
  }

  /** The overlap is a ratio in [0, 1], and 0 for a claim without words. */
  lemma OverlapBounds(claim: string, sources: string)
    ensures 0.0 <= Overlap(claim, sources) <= 1.0
    ensures Keywords(claim) == {} ==> Overlap(claim, sources) == 0.0
  {
    var ks := Keywords(claim);
    if |ks| > 0 {
      var m := Matching(ks, sources);
      assert |m| <= |ks| by { SubsetCardinality(m, ks); }
      var o := |m| as real / |ks| as real;
      assert o * |ks| as real == |m| as real;
    }
  }

  datatype Status = Unverified | StronglySupported | PartiallySupported | InsufficientEvidence

  function StatusName(s: Status): string {
    match s
    case Unverified => "unverified"
    case StronglySupported => "strongly_supported"
    case PartiallySupported => "partially_supported"
    case InsufficientEvidence => "insufficient_evidence"
  }

  /** The record `_verify_claim_against_sources` returns. The evidence lists
      are always empty: nothing ever fills them. */
  datatype Verification = Verification(
    claimNumber: nat,
    claim: string,
    confidence: real,
    status: Status,
    supporting: seq<string>,
    contradicting: seq<string>,
    analysis: string)

  /** The status for an overlap ratio: thresholds 0.7 and 0.4. */
  function BucketOf(overlap: real): Status
  {
    if overlap >= 0.7 then StronglySupported
    else if overlap >= 0.4 then PartiallySupported
    else InsufficientEvidence
  }

  /** The confidence that goes with a status; an unverified claim keeps the
      initial 0.0. */
  function Confidence(s: Status): real {
    match s
    case Unverified => 0.0
    case StronglySupported => 0.9
    case PartiallySupported => 0.6
    case InsufficientEvidence => 0.3
  }

  const StrongAnalysis := "High keyword overlap with sources suggests strong support"
  const PartialAnalysis := "Moderate keyword overlap suggests partial support"
  const InsufficientAnalysis := "Low keyword overlap suggests insufficient supporting evidence"

  /** The analysis text that goes with a status; an unverified claim keeps the
      initial empty text. */
  function Analysis(s: Status): string {
    match s
    case Unverified => ""
    case StronglySupported => StrongAnalysis
    case PartiallySupported => PartialAnalysis
    case InsufficientEvidence => InsufficientAnalysis
  }

  function VerifyClaim(claim: string, sources: string, claimNumber: nat): (v: Verification)
    ensures v.claimNumber == claimNumber && v.claim == claim
    ensures v.supporting == [] && v.contradicting == []
  {
    var status := BucketOf(Overlap(claim, sources));
    Verification(claimNumber, claim, Confidence(status), status, [], [], Analysis(status))
  }

  /** The three buckets: the status and confidence follow the thresholds 0.7
      and 0.4 on the overlap, and no claim is left "unverified". */
  lemma BucketsOfClaim(claim: string, sources: string, n: nat)
    ensures var v := VerifyClaim(claim, sources, n);
      var o := Overlap(claim, sources);
      (v.status == StronglySupported <==> o >= 0.7)
      && (v.status == PartiallySupported <==> 0.4 <= o < 0.7)
      && (v.status == InsufficientEvidence <==> o < 0.4)
      && v.status != Unverified
      && (v.confidence == 0.9 <==> v.status == StronglySupported)
      && (v.confidence == 0.6 <==> v.status == PartiallySupported)
      && (v.confidence == 0.3 <==> v.status == InsufficientEvidence)
  {
    BucketCases(Overlap(claim, sources));
  }

  lemma BucketCases(o: real)
    ensures var s := BucketOf(o);
      (s == StronglySupported <==> o >= 0.7)
      && (s == PartiallySupported <==> 0.4 <= o < 0.7)
      && (s == InsufficientEvidence <==> o < 0.4)
      && (Confidence(s) == 0.9 <==> s == StronglySupported)
      && (Confidence(s) == 0.6 <==> s == PartiallySupported)
      && (Confidence(s) == 0.3 <==> s == InsufficientEvidence)
  {
  }

  /** A larger overlap never gives a lower confidence. */
  lemma ConfidenceMonotone(o1: real, o2: real)
    requires o1 <= o2
    ensures Confidence(BucketOf(o1)) <= Confidence(BucketOf(o2))
  {
  }

  /** A claim with words, all of which occur in the sources, is strongly supported. */
  lemma AllWordsFoundIsStrong(claim: string, sources: string, n: nat)
    requires Keywords(claim) != {}
    requires forall kw :: kw in Keywords(claim) ==> Contains(Lower(sources), kw)
    ensures VerifyClaim(claim, sources, n).status == StronglySupported
    ensures VerifyClaim(claim, sources, n).confidence == 0.9
  {
    var ks := Keywords(claim);
    assert Matching(ks, sources) == ks;
    FullRatio(|ks|);
    BucketCases(Overlap(claim, sources));
  }

  lemma FullRatio(n: nat)
    requires n > 0
    ensures n as real / n as real == 1.0
  {
  }

  /** A claim none of whose words occur in the sources has insufficient evidence. */
  lemma NoWordFoundIsInsufficient(claim: string, sources: string, n: nat)
    requires forall kw :: kw in Keywords(claim) ==> !Contains(Lower(sources), kw)
    ensures VerifyClaim(claim, sources, n).status == InsufficientEvidence
    ensures VerifyClaim(claim, sources, n).confidence == 0.3
  {
    assert Matching(Keywords(claim), sources) == {};
    BucketCases(Overlap(claim, sources));
  }

  /** An occurrence of `w` inside an occurrence of `t` is an occurrence of `w`. */
  lemma OccursTransitive(s: string, t: string, w: string, o: int, p: int)
    requires OccursAt(s, t, o) && OccursAt(t, w, p)
    ensures OccursAt(s, w, o + p)
  {
    forall i | 0 <= i < |w| ensures s[o + p + i] == w[i] {
      assert s[o..o + |t|][p + i] == t[p + i];
      assert t[p..p + |w|][i] == w[i];
    }
  }

  /** A word `findall` reports is a substring of the text. */
  lemma WordOccurs(s: string, w: string) returns (j: nat)
    requires w in FindAll(Word, s, 0)
    ensures OccursAt(s, w, j)
  {
    j := FindAllSound(Word, s, 0, w);
  }

  /** If the lower-cased claim appears verbatim in the lower-cased sources, and
      has at least one word, it is strongly supported. */
  lemma QuotedClaimIsStrong(claim: string, sources: string, n: nat)
    requires Keywords(claim) != {}
    requires Contains(Lower(sources), Lower(claim))
    ensures VerifyClaim(claim, sources, n).status == StronglySupported
  {
    var src := Lower(sources);
    var lc := Lower(claim);
    var o := FindFrom(src, lc, 0).value;
    forall kw | kw in Keywords(claim) ensures Contains(src, kw) {
      assert kw in FindAll(Word, lc, 0);
      var j := WordOccurs(lc, kw);
      OccursTransitive(src, lc, kw, o, j);
      OccursMeansContains(src, kw, o + j);
    }
    AllWordsFoundIsStrong(claim, sources, n);
  }

  // ---------------------------------------------------------------------------
  // The tool
  // ---------------------------------------------------------------------------

  /** The JSON record `fact_checker` returns, without its timestamp and its
      fixed methodology text. */
  datatype FactCheck = FactCheck(totalClaims: nat, verifications: seq<Verification>, overallReliability: real)

  /** The verifications of `claims`, numbered from 1. */
  function Verifications(claims: seq<string>, sources: string): (r: seq<Verification>)
    ensures |r| == |claims|
  {
    Numbered(claims, VerifyAgainst(sources))
  }

  /** The verification of one claim given its number. */
  function VerifyAgainst(sources: string): (string, nat) -> Verification
  {
    (claim: string, number: nat) => VerifyClaim(claim, sources, number)
  }

  function Confidences(vs: seq<Verification>): (r: seq<real>)
    ensures |r| == |vs|
    ensures forall k :: 0 <= k < |r| ==> r[k] == vs[k].confidence
  {
    if vs == [] then [] else Confidences(vs[..|vs| - 1]) + [vs[|vs| - 1].confidence]
  }

  /** What `fact_checker(claims, sources)` reports. */
  function FactCheckOf(text: string, sources: string): FactCheck
  {
    var claims := ClaimsOf(text);
    var vs := Verifications(claims, sources);
    FactCheck(|claims|, vs, Mean(Confidences(vs)))
  }

  lemma VerificationsStep(claims: seq<string>, sources: string, i: nat)
    requires i < |claims|
    ensures Verifications(claims[..i + 1], sources)
         == Verifications(claims[..i], sources) + [VerifyClaim(claims[i], sources, i + 1)]
  {
    NumberedStep(claims, VerifyAgainst(sources), i);
  }

  /** `fact_checker`: one verification per claim, the confidences summed as the
      loop goes, and their mean as the overall reliability. */
  method CheckFacts(text: string, sources: string) returns (result: FactCheck)
    ensures result == FactCheckOf(text, sources)
  {
    var claims := ParseClaims(text);
    var verifications, totalConfidence := VerifyAll(claims, sources);
    var reliability := 0.0;
    if |claims| > 0 {
      reliability := totalConfidence / |claims| as real;
    }
    result := FactCheck(|claims|, verifications, reliability);
  }

  /** The loop of `fact_checker`: verify each claim in turn and add up the
      confidences. */
  method VerifyAll(claims: seq<string>, sources: string) returns (verifications: seq<Verification>, totalConfidence: real)
    ensures verifications == Verifications(claims, sources)
    ensures totalConfidence == Sum(Confidences(verifications))
  {
    verifications := [];
    totalConfidence := 0.0;
    var i := 0;
    while i < |claims|
      invariant 0 <= i <= |claims|
      invariant verifications == Verifications(claims[..i], sources)
      invariant totalConfidence == Sum(Confidences(verifications))
    {
      var verification := VerifyClaim(claims[i], sources, i + 1);
      VerificationsStep(claims, sources, i);
      ConfidencesStep(verifications, verification);
      verifications := verifications + [verification];
      totalConfidence := totalConfidence + verification.confidence;
      i := i + 1;
    }
    assert claims[..i] == claims;
  }

  lemma ConfidencesStep(vs: seq<Verification>, v: Verification)
    ensures Sum(Confidences(vs + [v])) == Sum(Confidences(vs)) + v.confidence
  {
    assert (vs + [v])[..|vs|] == vs;
  }

  /** Every verification carries its claim, numbered by position from 1. */
  lemma VerificationsNumbered(claims: seq<string>, sources: string, k: nat)
    requires k < |claims|
    ensures Verifications(claims, sources)[k].claimNumber == k + 1
    ensures Verifications(claims, sources)[k].claim == claims[k]
    ensures Verifications(claims, sources)[k] == VerifyClaim(claims[k], sources, k + 1)
  {
    NumberedAt(claims, VerifyAgainst(sources), k);
  }

  lemma ConfidencesAreBuckets(claims: seq<string>, sources: string)
    ensures Within(Confidences(Verifications(claims, sources)), 0.3, 0.9)
  {
    var vs := Verifications(claims, sources);
    forall k | 0 <= k < |vs| ensures 0.3 <= Confidences(vs)[k] <= 0.9 {
      VerificationsNumbered(claims, sources, k);
      BucketsOfClaim(claims[k], sources, k + 1);
    }
  }

  /** The report counts the claims, numbers them from 1, and its overall
      reliability is the mean confidence: 0 without claims, otherwise between
      the lowest bucket (0.3) and the highest (0.9). */
  lemma ReportShape(text: string, sources: string)
    ensures var r := FactCheckOf(text, sources);
      r.totalClaims == |ClaimsOf(text)| == |r.verifications|
      && (forall k :: 0 <= k < r.totalClaims ==>
            r.verifications[k].claimNumber == k + 1 && r.verifications[k].claim == ClaimsOf(text)[k])
      && (r.totalClaims == 0 ==> r.overallReliability == 0.0)
      && (r.totalClaims > 0 ==> 0.3 <= r.overallReliability <= 0.9)
  {
    var claims := ClaimsOf(text);
    var vs := Verifications(claims, sources);
    forall k | 0 <= k < |claims|
      ensures vs[k].claimNumber == k + 1 && vs[k].claim == claims[k]
    {
      VerificationsNumbered(claims, sources, k);
    }
    ConfidencesAreBuckets(claims, sources);
    MeanWithin(Confidences(vs), 0.3, 0.9);
  }
}
