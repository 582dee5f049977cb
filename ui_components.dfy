/** The display helpers of src/components/UIComponents.tsx: the score bar's
    percentage and colour band, the match indicator's guarded percentages and
    capped job-description bar, and the Tailwind classes chosen by size and
    compact mode. */
module UIComponents {
  import opened Candidates
  import RecruiterPanel

  // ---------------------------------------------------------------------------
  // Score bar
  // ---------------------------------------------------------------------------

  /** `(score / maxScore) * 100`, with `maxScore` defaulting to 10 when the
      prop is not given. The result is not clamped. */
  function ScorePercentage(score: real, maxScore: Option<real>): (r: real)
    requires maxScore.Some? ==> maxScore.value > 0.0
    ensures var m := if maxScore.Some? then maxScore.value else 10.0;
      (0.0 <= score <= m ==> 0.0 <= r <= 100.0) &&
      (r >= 100.0 <==> score >= m) &&
      (score > m ==> r > 100.0) &&
      (r < 0.0 <==> score < 0.0)
  {
    var m := if maxScore.Some? then maxScore.value else 10.0;
    PercentBounds(score, m);
    (score / m) * 100.0
  }

  /** Where `(score / m) * 100` lies, for a positive scale `m`. */
  lemma PercentBounds(score: real, m: real)
    requires m > 0.0
    ensures var r := (score / m) * 100.0;
      (0.0 <= score <= m ==> 0.0 <= r <= 100.0) &&
      (r >= 100.0 <==> score >= m) &&
      (score > m ==> r > 100.0) &&
      (r < 0.0 <==> score < 0.0)
  {
    var q := score / m;
    assert q * m == score && 1.0 * m == m && 0.0 * m == 0.0;
    ScaleOrder(q, 1.0, m);
    ScaleOrder(0.0, q, m);
    assert 1.0 * 100.0 == 100.0 && 0.0 * 100.0 == 0.0;
    ScaleOrder(q, 1.0, 100.0);
    ScaleOrder(0.0, q, 100.0);
  }

  /** Multiplying by a positive factor keeps the order. */
  lemma ScaleOrder(a: real, b: real, m: real)
    requires m > 0.0
    ensures a <= b <==> a * m <= b * m
    ensures a < b <==> a * m < b * m
  {
    assert b * m - a * m == (b - a) * m;
  }

  /** The four colours `getColorClass` chooses between. */
  datatype Colour = Green | Yellow | Orange | Red

  /** `getColorClass`: thresholds tested from the top. */
  function ColourOf(percentage: real): (r: Colour)
    ensures r == Green <==> percentage >= 80.0
    ensures r == Yellow <==> 60.0 <= percentage < 80.0
    ensures r == Orange <==> 40.0 <= percentage < 60.0
    ensures r == Red <==> percentage < 40.0
  {
    if percentage >= 80.0 then Green
    else if percentage >= 60.0 then Yellow
    else if percentage >= 40.0 then Orange
    else Red
  }

  /** Position of a colour from worst (red) to best (green). */
  function Rank(c: Colour): nat {
    match c
    case Red => 0
    case Orange => 1
    case Yellow => 2
    case Green => 3
  }

  /** A higher percentage never gets a worse colour. */
  lemma ColourMonotone(p: real, q: real)
    requires p <= q
    ensures Rank(ColourOf(p)) <= Rank(ColourOf(q))
  {
  }

  /** With the default scale of 10 the bar is green from a score of 8 and red below 4. */
  lemma DefaultScaleBands(score: real)
    ensures ColourOf(ScorePercentage(score, None)) == Green <==> score >= 8.0
    ensures ColourOf(ScorePercentage(score, None)) == Red <==> score < 4.0
  {
    assert ScorePercentage(score, None) == score * 10.0;
  }

  /** The sizes a score bar comes in. */
  datatype BarSize = Sm | Md | Lg

  /** `sizeClasses` of `ScoreBar`. */
  function ScoreBarSizeClasses(size: BarSize): string {
    match size
    case Sm => "h-2 text-xs"
    case Md => "h-3 text-sm"
    case Lg => "h-4 text-base"
  }

  /** `compactClasses` of `ScoreBar`. */
  function ScoreBarCompactClasses(size: BarSize): string {
    match size
    case Sm => "h-1.5 text-[10px]"
    case Md => "h-2 text-xs"
    case Lg => "h-2.5 text-xs"
  }

  /** `finalClasses` of `ScoreBar`: the compact table in compact mode, the
      size table otherwise; sizes differ within each table, and each size
      looks different in the two modes. */
  function ScoreBarClasses(size: BarSize, compact: bool): (r: string)
    ensures compact ==> r == ScoreBarCompactClasses(size)
    ensures !compact ==> r == ScoreBarSizeClasses(size)
    ensures forall other: BarSize :: other != size ==> ScoreBarCompactClasses(other) != ScoreBarCompactClasses(size)
    ensures forall other: BarSize :: other != size ==> ScoreBarSizeClasses(other) != ScoreBarSizeClasses(size)
    ensures ScoreBarCompactClasses(size) != ScoreBarSizeClasses(size)
  {
    if compact then ScoreBarCompactClasses(size) else ScoreBarSizeClasses(size)
  }

  // ---------------------------------------------------------------------------
  // Skill tag
  // ---------------------------------------------------------------------------

  /** The sizes a skill tag comes in. */
  datatype TagSize = TagSm | TagMd

  /** `typeClasses` of `SkillTag`, one per label. */
  function TagTypeClass(kind: RecruiterPanel.SkillLabel): (r: string)
    ensures forall other: RecruiterPanel.SkillLabel :: other != kind ==> TagTypeClassTable(other) != r
  {
    TagTypeClassTable(kind)
  }

  function TagTypeClassTable(kind: RecruiterPanel.SkillLabel): string {
    match kind
    case Required => "bg-green-500/20 text-green-300 border-green-500/50"
    case Preferred => "bg-yellow-500/20 text-yellow-300 border-yellow-500/50"
    case Matched => "bg-blue-500/20 text-blue-300 border-blue-500/50"
    case Unmatched => "bg-gray-500/20 text-gray-400 border-gray-500/50"
  }

  /** `sizeClasses` of `SkillTag`. */
  function TagSizeClasses(size: TagSize): string {
    match size
    case TagSm => "px-2 py-0.5 text-[10px]"
    case TagMd => "px-2 py-1 text-xs"
  }

  /** `compactClasses` of `SkillTag`. */
  function TagCompactClasses(size: TagSize): string {
    match size
    case TagSm => "px-1.5 py-0.5 text-[9px]"
    case TagMd => "px-1.5 py-0.5 text-[10px]"
  }

  /** `finalClasses` of `SkillTag`, chosen like the score bar's. */
  function TagClasses(size: TagSize, compact: bool): (r: string)
    ensures compact ==> r == TagCompactClasses(size)
    ensures !compact ==> r == TagSizeClasses(size)
    ensures forall other: TagSize :: other != size ==> TagCompactClasses(other) != TagCompactClasses(size)
    ensures forall other: TagSize :: other != size ==> TagSizeClasses(other) != TagSizeClasses(size)
    ensures TagCompactClasses(size) != TagSizeClasses(size)
  {
    if compact then TagCompactClasses(size) else TagSizeClasses(size)
  }

  // ---------------------------------------------------------------------------
  // Match indicator
  // ---------------------------------------------------------------------------

  /** `total > 0 ? (matches / total) * 100 : 0`. */
  function MatchPercentage(matches: nat, total: nat): (r: real)
    ensures total == 0 ==> r == 0.0
    ensures total > 0 ==> r * (total as real) == (matches as real) * 100.0
    ensures 0.0 <= r
    ensures matches <= total ==> r <= 100.0
    ensures total > 0 ==> (r == 100.0 <==> matches == total)
  {
    if total > 0 then
      var t := total as real;
      var q := (matches as real) / t;
      ScaleOrder(q, 1.0, t);
      ScaleOrder(0.0, q, t);
      assert (q * 100.0) * t == (q * t) * 100.0;
      q * 100.0
    else 0.0
  }

  /** The indicator's bars are score bars on a scale of 100, so each shows
      its percentage as it is, and is green from 80% of the terms matched. */
  lemma IndicatorBarShowsPercentage(matches: nat, total: nat)
    ensures ScorePercentage(MatchPercentage(matches, total), Some(100.0)) == MatchPercentage(matches, total)
    ensures total > 0 ==>
      (ColourOf(MatchPercentage(matches, total)) == Green <==> (matches as real) * 100.0 >= 80.0 * (total as real))
  {
    var p := MatchPercentage(matches, total);
    if total > 0 {
      var t := total as real;
      ThresholdOfProduct(p, t, (matches as real) * 100.0, 80.0);
    }
  }

  /** A percentage `p` with `p * t == x` reaches `k` exactly when `x` reaches `k * t`. */
  lemma ThresholdOfProduct(p: real, t: real, x: real, k: real)
    requires t > 0.0 && p * t == x
    ensures p >= k <==> x >= k * t
  {
    ScaleOrder(k, p, t);
  }

  /** `Math.min(jobDescriptionMatches * 10, 100)`: ten points per term, full at ten. */
  function JdBarWidth(jd: nat): (r: nat)
    ensures r <= 100
    ensures r == 100 <==> jd >= 10
    ensures jd < 10 ==> r == jd * 10
  {
    if jd * 10 < 100 then jd * 10 else 100
  }

  /** More matched terms never give a shorter bar. */
  lemma JdBarMonotone(a: nat, b: nat)
    requires a <= b
    ensures JdBarWidth(a) <= JdBarWidth(b)
  {
  }
}
