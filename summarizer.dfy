/** The arithmetic of the summarizer tool: it counts the words of the content,
    picks a target summary length for the requested summary type, and reports
    the compression ratio and a reading-time estimate. The summary itself is
    written later by a language model and is not part of this model. */
module Summarizer {
  import opened Results
  import opened Text

  datatype SummaryKind = Brief | Comprehensive | BulletPoints | Abstract

  /** The `summary_type` strings the tool knows. */
  const BriefName := "brief"
  const ComprehensiveName := "comprehensive"
  const BulletPointsName := "bullet_points"
  const AbstractName := "abstract"

  /** The dictionary keys of `summary_lengths` and `instructions`; any other
      `summary_type` string is unknown. */
  function KindOf(summaryType: string): Option<SummaryKind>
  {
    if summaryType == BriefName then Some(Brief)
    else if summaryType == ComprehensiveName then Some(Comprehensive)
    else if summaryType == BulletPointsName then Some(BulletPoints)
    else if summaryType == AbstractName then Some(Abstract)
    else None
  }

  /** The cap and the divisor of each known type: `min(cap, word_count // divisor)`. */
  function Cap(k: SummaryKind): nat {
    match k
    case Brief => 100
    case Comprehensive => 300
    case BulletPoints => 150
    case Abstract => 250
  }

  function Divisor(k: SummaryKind): (d: nat)
    ensures d >= 5
  {
    match k
    case Brief => 10
    case Comprehensive => 5
    case BulletPoints => 8
    case Abstract => 6
  }

  /** `summary_lengths.get(summary_type, 200)`. */
  function TargetLength(kind: Option<SummaryKind>, wordCount: nat): nat
  {
    match kind
    case None => 200
    case Some(k) => if Cap(k) <= wordCount / Divisor(k) then Cap(k) else wordCount / Divisor(k)
  }

  const BriefInstructions := "Create a concise summary highlighting only the most essential points."
  const ComprehensiveInstructions := "Create a detailed summary covering all major points and key details."
  const BulletPointsInstructions := "Extract key points and present as structured bullet points."
  const AbstractInstructions := "Create an academic-style abstract with background, methods, results, and conclusions."

  function InstructionsFor(k: SummaryKind): string {
    match k
    case Brief => BriefInstructions
    case Comprehensive => ComprehensiveInstructions
    case BulletPoints => BulletPointsInstructions
    case Abstract => AbstractInstructions
  }

  /** `instructions.get(summary_type, instructions["comprehensive"])`. */
  function Instructions(kind: Option<SummaryKind>): string {
    InstructionsFor(kind.GetOr(Comprehensive))
  }

  /** The JSON record `content_summarizer` returns, without its timestamp. */
  datatype SummaryPlan = SummaryPlan(
    summaryType: string,
    originalLength: nat,
    targetLength: nat,
    compressionRatio: real,
    instructions: string,
    wordCount: nat,
    characterCount: nat,
    readingTime: string)

  /** `f"{word_count // 200} minutes"`. */
  function ReadingTime(wordCount: nat): string {
    Decimal(wordCount / 200) + " minutes"
  }

  function Plan(content: string, summaryType: string): SummaryPlan
  {
    var wc := |Words(content)|;
    var kind := KindOf(summaryType);
    var target := TargetLength(kind, wc);
    SummaryPlan(summaryType, wc, target,
                if wc > 0 then target as real / wc as real else 0.0,
                Instructions(kind), wc, |content|, ReadingTime(wc))
  }

  /** For a known type the target is `min(cap, word_count // divisor)`: never
      above the cap, never more than a fifth of the words, and the largest such
      length when the cap does not bind. */
  lemma KnownTargetBounds(k: SummaryKind, wordCount: nat)
    ensures var t := TargetLength(Some(k), wordCount);
      t <= Cap(k) && t * Divisor(k) <= wordCount && 5 * t <= wordCount
      && (t < Cap(k) ==> wordCount < (t + 1) * Divisor(k))
  {
  }

  /** A longer text never gets a shorter target. */
  lemma TargetMonotone(kind: Option<SummaryKind>, w1: nat, w2: nat)
    requires w1 <= w2
    ensures TargetLength(kind, w1) <= TargetLength(kind, w2)
  {
    if kind.Some? {
      DivMonotone(w1, w2, Divisor(kind.value));
    }
  }

  lemma DivMonotone(a: nat, b: nat, d: nat)
    requires a <= b && d > 0
    ensures a / d <= b / d
  {
    var q, r := a / d, b / d;
    assert d * q <= a;
    assert b < d * (r + 1);
    MulCancel(d, q, r + 1);
  }

  lemma MulCancel(d: nat, x: nat, y: nat)
    requires d > 0 && d * x < d * y
    ensures x < y
  {
    if x >= y {
      MulMono(d, y, x);
      assert false;
    }
  }

  lemma MulMono(d: nat, x: nat, y: nat)
    requires x <= y
    ensures d * x <= d * y
  {
    assert d * y == d * x + d * (y - x);
  }

  /** The report's counts: words as `split()` finds them, characters as `len`;
      for a known type the compression ratio is at most 1 (at most 0.2 in fact),
      and it is 0 for a text without words. */
  lemma PlanFigures(content: string, summaryType: string)
    ensures var p := Plan(content, summaryType);
      p.wordCount == p.originalLength == |Words(content)| && p.characterCount == |content|
      && (p.wordCount == 0 ==> p.compressionRatio == 0.0)
      && (KindOf(summaryType).Some? ==> 0.0 <= p.compressionRatio <= 0.2)
      && (KindOf(summaryType).None? ==> p.targetLength == 200)
  {
    var wc := |Words(content)|;
    if KindOf(summaryType).Some? && wc > 0 {
      KnownRatio(KindOf(summaryType).value, wc);
    }
  }

  lemma KnownRatio(k: SummaryKind, wordCount: nat)
    requires wordCount > 0
    ensures 0.0 <= TargetLength(Some(k), wordCount) as real / wordCount as real <= 0.2
  {
    KnownTargetBounds(k, wordCount);
    FifthRatio(TargetLength(Some(k), wordCount) as real, wordCount as real);
  }

  lemma FifthRatio(t: real, w: real)
    requires 0.0 <= t && 0.0 < w && 5.0 * t <= w
    ensures 0.0 <= t / w <= 0.2
  {
    var q := t / w;
    assert q * w == t;
  }

  /** With an unknown type and fewer than 200 words the target exceeds the
      text: the ratio is then above 1. */
  lemma UnknownTypeCanExceedText(content: string, summaryType: string)
    requires KindOf(summaryType).None?
    requires 0 < |Words(content)| < 200
    ensures Plan(content, summaryType).compressionRatio > 1.0
  {
    var p := Plan(content, summaryType);
    var w := |Words(content)| as real;
    assert p.compressionRatio * w == 200.0;
  }

  /** An unknown type is given the instructions of the comprehensive summary. */
  lemma UnknownTypeFallsBack(content: string, summaryType: string)
    requires summaryType !in [BriefName, ComprehensiveName, BulletPointsName, AbstractName]
    ensures Plan(content, summaryType).instructions == InstructionsFor(Comprehensive)
    ensures Plan(content, summaryType).targetLength == 200
  {
  }

  /** The reading time reads back as `word_count // 200` minutes. */
  lemma ReadingTimeMinutes(wordCount: nat)
    ensures var r := ReadingTime(wordCount);
      var n := |Decimal(wordCount / 200)|;
      r[n..] == " minutes" && (forall c :: c in r[..n] ==> IsDigit(c)) && ParseDecimal(r[..n]) == wordCount / 200
  {
    var d := Decimal(wordCount / 200);
    assert ReadingTime(wordCount)[..|d|] == d;
    ParseDecimalInverts(wordCount / 200);
  }
}
