/**
 * The investigation stage model behind the progress tracker: six stages in
 * a fixed order, the lookup from a stage identifier to its position, the
 * width of the progress bar, and the flags and icon of each of the six
 * stage indicators.
 *
 * The tracker receives the stage as the identifier string stored with the
 * investigation, so the lookup is modelled over strings and can miss.
 */
module InvestigationProgress {
  import opened Options

  datatype Stage = NotStarted | DataCollection | Analysis | Recommendations | Review | Completed

  /** The order of the `stages` table. */
  const Stages: seq<Stage> := [NotStarted, DataCollection, Analysis, Recommendations, Review, Completed]

  /** Index of the last stage. */
  const LastIndex: int := 5

  function StageId(s: Stage): string {
    match s
    case NotStarted => "not_started"
    case DataCollection => "data_collection"
    case Analysis => "analysis"
    case Recommendations => "recommendations"
    case Review => "review"
    case Completed => "completed"
  }

  function StageLabel(s: Stage): string {
    match s
    case NotStarted => "Not Started"
    case DataCollection => "Data Collection"
    case Analysis => "Analysis"
    case Recommendations => "Recommendations"
    case Review => "Review"
    case Completed => "Completed"
  }

  /** The icon drawn for a stage; the first two stages share the document glyph. */
  datatype StageGlyph = DocumentGlyph | AlertGlyph | MessageGlyph | BookGlyph | CheckCircleGlyph

  function StageIcon(s: Stage): StageGlyph {
    match s
    case NotStarted => DocumentGlyph
    case DataCollection => DocumentGlyph
    case Analysis => AlertGlyph
    case Recommendations => MessageGlyph
    case Review => BookGlyph
    case Completed => CheckCircleGlyph
  }

  /** The identifiers of the closed set, in order. */
  const StageIds: seq<string> := ["not_started", "data_collection", "analysis", "recommendations", "review", "completed"]

  /**
   * `getStageIndex`: `stages.findIndex(s => s.id === stage)`, the first
   * position whose identifier equals `id`, or -1 when there is none.
   */
  function FindStageIndex(id: string): (r: int)
    ensures -1 <= r <= LastIndex
    ensures r >= 0 ==> StageId(Stages[r]) == id
    ensures r == -1 <==> id !in StageIds
  {
    FindFrom(id, 0)
  }

  function FindFrom(id: string, k: nat): (r: int)
    requires k <= |Stages|
    ensures r == -1 || k <= r < |Stages|
    ensures r >= 0 ==> StageId(Stages[r]) == id
    ensures r == -1 <==> forall j | k <= j < |Stages| :: StageId(Stages[j]) != id
    decreases |Stages| - k
  {
    if k == |Stages| then -1
    else if StageId(Stages[k]) == id then k
    else FindFrom(id, k + 1)
  }

  /** The position of a stage in the order. */
  function Position(s: Stage): nat {
    match s
    case NotStarted => 0
    case DataCollection => 1
    case Analysis => 2
    case Recommendations => 3
    case Review => 4
    case Completed => 5
  }

  /** Identifier lookup and `Position` agree on the closed set, and `Position` is a bijection onto 0..5. */
  lemma StageIndexBijective(s: Stage, i: int)
    ensures FindStageIndex(StageId(s)) == Position(s)
    ensures Stages[Position(s)] == s
    ensures 0 <= i <= LastIndex ==> Position(Stages[i]) == i
  {
    assert StageId(s) in StageIds;
  }

  /** The identifier table lists the stages' identifiers in stage order. */
  lemma StageIdsInOrder(j: int)
    requires 0 <= j < |Stages|
    ensures |StageIds| == |Stages| && StageIds[j] == StageId(Stages[j])
  {
  }

  /** A stage's identifier determines the stage. */
  lemma StageIdInjective(s: Stage, t: Stage)
    ensures StageId(s) == StageId(t) ==> s == t
  {
  }

  /** A value outside the closed set indexes -1. */
  lemma UnknownStageIndexesMinusOne(id: string)
    requires forall s: Stage :: StageId(s) != id
    ensures FindStageIndex(id) == -1
  {
    forall j | 0 <= j < |StageIds|
      ensures StageIds[j] != id
    {
      assert StageIds[j] == StageId(Stages[j]);
    }
  }

  /**
   * The "Current Stage" line reads `stages[currentStageIndex].label`; at
   * index -1 that entry does not exist and the page fails to render, which
   * the model reports as `None`.
   */
  function CurrentStageLabel(id: string): (r: Option<string>)
    ensures r.None? <==> id !in StageIds
  {
    var i := FindStageIndex(id);
    if i < 0 then None else Some(StageLabel(Stages[i]))
  }

  // ---------------------------------------------------------------------
  // Progress bar

  /**
   * The fill width in percent: "0%" at index 0, "100%" at the last index,
   * `(index / 5) * 100` otherwise — computed here on exact rationals.
   */
  function ProgressWidth(index: int): real {
    if index == 0 then 0.0
    else if index == LastIndex then 100.0
    else (index as real / LastIndex as real) * 100.0
  }

  /**
   * The special cases agree with the general formula, so the width is 20%
   * per stage everywhere, including -20% for an unknown stage.
   */
  lemma ProgressWidthLinear(index: int)
    ensures ProgressWidth(index) == 20.0 * index as real
    ensures ProgressWidth(0) == 0.0 && ProgressWidth(2) == 40.0 && ProgressWidth(5) == 100.0
    ensures ProgressWidth(-1) == -20.0
  {
  }

  /** A later stage never shows a shorter bar. */
  lemma ProgressWidthMonotone(i: int, j: int)
    requires i <= j
    ensures ProgressWidth(i) <= ProgressWidth(j)
  {
    ProgressWidthLinear(i);
    ProgressWidthLinear(j);
  }

  // ---------------------------------------------------------------------
  // Stage indicators

  /** What an indicator circle shows: the check mark, or the stage's own glyph. */
  datatype IndicatorIcon = CheckMark | Glyph(glyph: StageGlyph)

  datatype Indicator = Indicator(
    stage: Stage,
    caption: string,
    isActive: bool,
    isCurrent: bool,
    isPast: bool,
    icon: IndicatorIcon)

  /** The indicator at position `index` when the current stage index is `current`. */
  function IndicatorAt(index: nat, current: int): (r: Indicator)
    requires index < |Stages|
  {
    var stage := Stages[index];
    var isPast := index < current;
    Indicator(stage, StageLabel(stage), index <= current, index == current, isPast,
              if isPast then CheckMark else Glyph(StageIcon(stage)))
  }

  /** The indicators from position `k` to the last, in order. */
  function IndicatorsFrom(k: nat, current: int): (r: seq<Indicator>)
    requires k <= |Stages|
    ensures |r| == |Stages| - k
    ensures forall i :: 0 <= i < |r| ==> r[i] == IndicatorAt(k + i, current)
    decreases |Stages| - k
  {
    if k == |Stages| then [] else [IndicatorAt(k, current)] + IndicatorsFrom(k + 1, current)
  }

  /** `stages.map(...)`: all six indicators. */
  function Indicators(current: int): (r: seq<Indicator>)
    ensures |r| == |Stages|
    ensures forall i :: 0 <= i < |r| ==> r[i].stage == Stages[i]
  {
    IndicatorsFrom(0, current)
  }

  function CountActive(ind: seq<Indicator>): nat {
    if |ind| == 0 then 0 else (if ind[0].isActive then 1 else 0) + CountActive(ind[1..])
  }

  function CountCurrent(ind: seq<Indicator>): nat {
    if |ind| == 0 then 0 else (if ind[0].isCurrent then 1 else 0) + CountCurrent(ind[1..])
  }

  function Min(a: int, b: int): int { if a <= b then a else b }
  function Max(a: int, b: int): int { if a <= b then b else a }

  lemma {:induction false} ActiveFrom(k: nat, current: int)
    requires k <= |Stages|
    ensures CountActive(IndicatorsFrom(k, current)) == Max(0, Min(current + 1, |Stages|) - k)
    decreases |Stages| - k
  {
    if k < |Stages| {
      ActiveFrom(k + 1, current);
      assert IndicatorsFrom(k, current)[1..] == IndicatorsFrom(k + 1, current);
    }
  }

  lemma {:induction false} CurrentFrom(k: nat, current: int)
    requires k <= |Stages|
    ensures CountCurrent(IndicatorsFrom(k, current)) == (if k <= current < |Stages| then 1 else 0)
    decreases |Stages| - k
  {
    if k < |Stages| {
      CurrentFrom(k + 1, current);
      assert IndicatorsFrom(k, current)[1..] == IndicatorsFrom(k + 1, current);
    }
  }

  /**
   * For a stage index from `getStageIndex` (-1 through 5): the number of
   * active indicators is index + 1, and exactly one indicator is current
   * when the stage is known and none when it is not.
   */
  lemma IndicatorFlags(current: int)
    requires -1 <= current <= LastIndex
    ensures CountActive(Indicators(current)) == current + 1
    ensures CountCurrent(Indicators(current)) == (if current >= 0 then 1 else 0)
  {
    ActiveFrom(0, current);
    CurrentFrom(0, current);
  }

  /**
   * Every past indicator is active and shows the check mark; every other
   * indicator shows its own stage's glyph.
   */
  lemma IndicatorIcons(current: int, i: int)
    requires 0 <= i < |Stages|
    ensures var ind := Indicators(current)[i];
      (ind.isPast ==> ind.isActive) &&
      (ind.isPast <==> ind.icon == CheckMark) &&
      (!ind.isPast ==> ind.icon == Glyph(StageIcon(Stages[i])))
  {
    assert Indicators(current)[i] == IndicatorAt(i, current);
  }

  /** At most one indicator is current, and it sits at the current index. */
  lemma CurrentIndicatorUnique(current: int, i: int, j: int)
    requires 0 <= i < |Stages| && 0 <= j < |Stages|
    requires Indicators(current)[i].isCurrent && Indicators(current)[j].isCurrent
    ensures i == j == current
  {
  }

  /** The tracker for a known stage: its label is the one paired with it, and it is the current indicator. */
  lemma TrackerForKnownStage(s: Stage)
    ensures CurrentStageLabel(StageId(s)) == Some(StageLabel(s))
    ensures Indicators(FindStageIndex(StageId(s)))[Position(s)].isCurrent
    ensures Indicators(FindStageIndex(StageId(s)))[Position(s)].caption == StageLabel(s)
  {
    StageIndexBijective(s, 0);
  }
}
