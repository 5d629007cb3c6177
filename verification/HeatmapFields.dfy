/**
 The row fields of the two heatmaps, and what they hold after any history of
 answers for one row.
 */
module HeatmapFields {
  import opened Wrappers
  import opened Heatmap
  import opened HeatmapHistory

  function Or<T>(next: Option<T>, previous: Option<T>): Option<T> {
    if next.Some? then next else previous
  }

  // ---------- Momentum ----------

  datatype SqueezeStatus = Deferred | SqueezeOk | SqueezeUnavailable
  datatype Squeeze = Squeeze(status: SqueezeStatus, detail: string)

  datatype Momentum = Momentum(
    symbol: string, displayName: string, providerSymbol: string,
    longTermScore: Option<real>, shortTermScore: Option<real>, strengthPercent: Option<real>,
    squeeze: Squeeze, stale: bool)

  predicate AnyStale<V>(cells: map<Timeframe, Cell<V>>) {
    exists tf :: tf in cells && cells[tf].stale == Some(true)
  }

  function CarryMomentum<V>(prev: Momentum, next: Momentum, cells: map<Timeframe, Cell<V>>): Momentum {
    next.(longTermScore := Or(next.longTermScore, prev.longTermScore),
          shortTermScore := Or(next.shortTermScore, prev.shortTermScore),
          strengthPercent := Or(next.strengthPercent, prev.strengthPercent),
          squeeze := if next.squeeze.status == SqueezeOk then next.squeeze else prev.squeeze,
          stale := AnyStale(cells))
  }

  function MomentumPolicy(): Policy<Option<real>, Momentum> {
    Policy("stale_previous_value_after_refresh_failed:",
           (prev, next, cells) => CarryMomentum(prev, next, cells))
  }

  // ---------- HACO ----------

  datatype Bias = BiasLong | BiasShort

  datatype Haco = Haco(
    symbol: string, displayName: string, providerSymbol: string,
    overallBias: Option<Bias>, overallAlignmentPercent: Option<real>,
    shortTermBias: Option<Bias>, shortTermAlignmentPercent: Option<real>)

  function CarryHaco<V>(prev: Haco, next: Haco, cells: map<Timeframe, Cell<V>>): Haco {
    next.(overallBias := Or(next.overallBias, prev.overallBias),
          overallAlignmentPercent := Or(next.overallAlignmentPercent, prev.overallAlignmentPercent),
          shortTermBias := Or(next.shortTermBias, prev.shortTermBias),
          shortTermAlignmentPercent := Or(next.shortTermAlignmentPercent, prev.shortTermAlignmentPercent))
  }

  function HacoPolicy(): Policy<Option<Bias>, Haco> {
    Policy("stale_previous_haco_value_after_refresh_failed:",
           (prev, next, cells) => CarryHaco(prev, next, cells))
  }

  // ---------- Fields that keep their last known value ----------

  /** The last answer that gives the field a value, or -1. */
  function LastGiven<V, F, T>(answers: seq<Option<Row<V, F>>>, k: nat, get: F -> Option<T>): (i: int)
    requires k <= |answers|
    ensures -1 <= i < k
    ensures i >= 0 ==> answers[i].Some? && get(answers[i].value.fields).Some?
    ensures forall j :: i < j < k ==> answers[j].None? || get(answers[j].value.fields).None?
  {
    if k == 0 then -1
    else if answers[k - 1].Some? && get(answers[k - 1].value.fields).Some? then k - 1
    else LastGiven(answers, k - 1, get)
  }

  /** `get` is merged with `next ?? previous`. */
  ghost predicate KeepsLast<V(!new), F(!new), T>(pol: Policy<V, F>, get: F -> Option<T>) {
    forall prev, next, cells :: get(pol.carry(prev, next, cells)) == Or(get(next), get(prev))
  }

  lemma {:induction false} FieldHistory<V(!new), F(!new), T>(pol: Policy<V, F>, get: F -> Option<T>,
                                                 answers: seq<Option<Row<V, F>>>, k: nat)
    requires k <= |answers| && KeepsLast(pol, get)
    ensures FoldRow(pol, answers, k).Some? <==> LastNamed(answers, k) >= 0
    ensures FoldRow(pol, answers, k).Some? ==>
              get(FoldRow(pol, answers, k).value.fields) ==
              var i := LastGiven(answers, k, get);
              if i < 0 then None else get(answers[i].value.fields)
  {
    if k > 0 {
      FieldHistory(pol, get, answers, k - 1);
    }
  }

  /** The last value any of the first `k` answers gave, if there was one. */
  function LastValue<V, F, T>(answers: seq<Option<Row<V, F>>>, k: nat, get: F -> Option<T>): Option<T>
    requires k <= |answers|
  {
    var i := LastGiven(answers, k, get);
    if i < 0 then None else get(answers[i].value.fields)
  }

  /** The same of a row in the state after any history of responses. */
  lemma {:induction false} FieldAfterHistory<V(!new), F(!new), T>(pol: Policy<V, F>, get: F -> Option<T>,
                                               h: seq<Response<Row<V, F>>>, k: nat, c: string, r: string)
    requires History(h) && k <= |h| && KeepsLast(pol, get)
    ensures StateRow(pol, h, k, c, r).Some? ==>
              get(StateRow(pol, h, k, c, r).value.fields) == LastValue(Answers(h, c, r), k, get)
  {
    StateRowFolds(pol, h, k, c, r);
    FieldHistory(pol, get, Answers(h, c, r), k);
  }

  function LongTerm(m: Momentum): Option<real> {
    m.longTermScore
  }

  function ShortTerm(m: Momentum): Option<real> {
    m.shortTermScore
  }

  function Strength(m: Momentum): Option<real> {
    m.strengthPercent
  }

  /** The three momentum scores hold the last value any response gave the row. */
  lemma {:induction false} MomentumScoresKeepLast(h: seq<Response<Row<Option<real>, Momentum>>>, k: nat,
                                                  c: string, r: string)
    requires History(h) && k <= |h| && StateRow(MomentumPolicy(), h, k, c, r).Some?
    ensures var fields, answers := StateRow(MomentumPolicy(), h, k, c, r).value.fields, Answers(h, c, r);
            && fields.longTermScore == LastValue(answers, k, LongTerm)
            && fields.shortTermScore == LastValue(answers, k, ShortTerm)
            && fields.strengthPercent == LastValue(answers, k, Strength)
  {
    FieldAfterHistory(MomentumPolicy(), LongTerm, h, k, c, r);
    FieldAfterHistory(MomentumPolicy(), ShortTerm, h, k, c, r);
    FieldAfterHistory(MomentumPolicy(), Strength, h, k, c, r);
  }

  function OverallBias(f: Haco): Option<Bias> {
    f.overallBias
  }

  function OverallAlignment(f: Haco): Option<real> {
    f.overallAlignmentPercent
  }

  function ShortTermBias(f: Haco): Option<Bias> {
    f.shortTermBias
  }

  function ShortTermAlignment(f: Haco): Option<real> {
    f.shortTermAlignmentPercent
  }

  /** So do the four HACO fields. */
  lemma {:induction false} HacoFieldsKeepLast(h: seq<Response<Row<Option<Bias>, Haco>>>, k: nat, c: string, r: string)
    requires History(h) && k <= |h| && StateRow(HacoPolicy(), h, k, c, r).Some?
    ensures var fields, answers := StateRow(HacoPolicy(), h, k, c, r).value.fields, Answers(h, c, r);
            && fields.overallBias == LastValue(answers, k, OverallBias)
            && fields.overallAlignmentPercent == LastValue(answers, k, OverallAlignment)
            && fields.shortTermBias == LastValue(answers, k, ShortTermBias)
            && fields.shortTermAlignmentPercent == LastValue(answers, k, ShortTermAlignment)
  {
    FieldAfterHistory(HacoPolicy(), OverallBias, h, k, c, r);
    FieldAfterHistory(HacoPolicy(), OverallAlignment, h, k, c, r);
    FieldAfterHistory(HacoPolicy(), ShortTermBias, h, k, c, r);
    FieldAfterHistory(HacoPolicy(), ShortTermAlignment, h, k, c, r);
  }

  // ---------- The squeeze and the row flag ----------

  function FirstNamed<R>(answers: seq<Option<R>>, k: nat): (i: int)
    requires k <= |answers|
    ensures -1 <= i < k
    ensures i >= 0 ==> answers[i].Some?
    ensures forall j :: 0 <= j < (if i < 0 then k else i) ==> answers[j].None?
  {
    if k == 0 then -1
    else if FirstNamed(answers, k - 1) >= 0 then FirstNamed(answers, k - 1)
    else if answers[k - 1].Some? then k - 1
    else -1
  }

  function LastSqueeze<V>(answers: seq<Option<Row<V, Momentum>>>, k: nat): (i: int)
    requires k <= |answers|
    ensures -1 <= i < k
    ensures i >= 0 ==> answers[i].Some? && answers[i].value.fields.squeeze.status == SqueezeOk
    ensures forall j :: i < j < k ==> answers[j].None? || answers[j].value.fields.squeeze.status != SqueezeOk
  {
    if k == 0 then -1
    else if answers[k - 1].Some? && answers[k - 1].value.fields.squeeze.status == SqueezeOk then k - 1
    else LastSqueeze(answers, k - 1)
  }

  /**
   The squeeze is the latest good one; before any good one it is the very first
   answer's, so a later status such as unavailable never replaces deferred.
   */
  lemma {:induction false} SqueezeHistory(answers: seq<Option<Row<Option<real>, Momentum>>>, k: nat)
    requires k <= |answers|
    ensures FoldRow(MomentumPolicy(), answers, k).Some? <==> FirstNamed(answers, k) >= 0
    ensures FoldRow(MomentumPolicy(), answers, k).Some? ==>
              FoldRow(MomentumPolicy(), answers, k).value.fields.squeeze ==
              var good := LastSqueeze(answers, k);
              answers[if good >= 0 then good else FirstNamed(answers, k)].value.fields.squeeze
  {
    if k > 0 {
      SqueezeHistory(answers, k - 1);
    }
  }

  /** What one would expect: the latest good squeeze, else the latest answer's. */
  function LatestSqueeze<V>(answers: seq<Option<Row<V, Momentum>>>, k: nat): Squeeze
    requires k <= |answers| && LastNamed(answers, k) >= 0
  {
    var good := LastSqueeze(answers, k);
    answers[if good >= 0 then good else LastNamed(answers, k)].value.fields.squeeze
  }

  lemma FirstIffLast<R>(answers: seq<Option<R>>, k: nat)
    requires k <= |answers|
    ensures FirstNamed(answers, k) >= 0 <==> LastNamed(answers, k) >= 0
  {
  }

  /** The row shows it exactly when there was a good one, or the first answer says the same as the last. */
  lemma SqueezeIsLatestIff(answers: seq<Option<Row<Option<real>, Momentum>>>, k: nat)
    requires k <= |answers| && LastNamed(answers, k) >= 0
    ensures FirstNamed(answers, k) >= 0 && FoldRow(MomentumPolicy(), answers, k).Some?
    ensures FoldRow(MomentumPolicy(), answers, k).value.fields.squeeze == LatestSqueeze(answers, k)
       <==> || LastSqueeze(answers, k) >= 0
            || answers[FirstNamed(answers, k)].value.fields.squeeze
               == answers[LastNamed(answers, k)].value.fields.squeeze
  {
    FirstIffLast(answers, k);
    SqueezeHistory(answers, k);
  }

  /** Deferred, then unavailable: the row goes on showing deferred. */
  lemma DeferredStays(first: Row<Option<real>, Momentum>, second: Row<Option<real>, Momentum>)
    requires first.fields.squeeze.status == Deferred && second.fields.squeeze.status == SqueezeUnavailable
    ensures FoldRow(MomentumPolicy(), [Some(first), Some(second)], 2).Some?
    ensures FoldRow(MomentumPolicy(), [Some(first), Some(second)], 2).value.fields.squeeze.status == Deferred
  {
    var answers := [Some(first), Some(second)];
    assert FoldRow(MomentumPolicy(), answers, 1) == Some(first);
  }

  /** The squeeze of a row in the state after any history of responses. */
  lemma {:induction false} SqueezeAfterHistory(h: seq<Response<Row<Option<real>, Momentum>>>, k: nat,
                                               c: string, r: string)
    requires History(h) && k <= |h| && StateRow(MomentumPolicy(), h, k, c, r).Some?
    ensures FirstNamed(Answers(h, c, r), k) >= 0
    ensures var answers, squeeze := Answers(h, c, r), StateRow(MomentumPolicy(), h, k, c, r).value.fields.squeeze;
            var good := LastSqueeze(answers, k);
            squeeze == answers[if good >= 0 then good else FirstNamed(answers, k)].value.fields.squeeze
  {
    StateRowFolds(MomentumPolicy(), h, k, c, r);
    SqueezeHistory(Answers(h, c, r), k);
  }

  ghost predicate NoStaleAnswer<V, F>(answers: seq<Option<Row<V, F>>>) {
    forall i, tf :: 0 <= i < |answers| && AnsweredCell(answers[i], tf).Some? ==>
      AnsweredCell(answers[i], tf).value.stale != Some(true)
  }

  predicate IsStale<V>(cell: Option<Cell<V>>) {
    cell.Some? && cell.value.stale == Some(true)
  }

  /** The last good value is older than the last answer for the row. */
  predicate Lagging<V, F>(answers: seq<Option<Row<V, F>>>, k: nat, tf: Timeframe)
    requires k <= |answers|
  {
    0 <= LastOk(answers, k, tf) < LastNamed(answers, k)
  }

  lemma ShownStaleIff<V, F>(prefix: string, answers: seq<Option<Row<V, F>>>, k: nat, tf: Timeframe)
    requires k <= |answers| && NoStaleAnswer(answers)
    ensures IsStale(ShownCell(prefix, answers, k, tf)) <==> Lagging(answers, k, tf)
  {
  }

  lemma AnyStaleIff<V, F>(cells: map<Timeframe, Cell<V>>, answers: seq<Option<Row<V, F>>>, k: nat)
    requires k <= |answers|
    requires forall tf :: IsStale(CellOf(cells, tf)) <==> Lagging(answers, k, tf)
    ensures AnyStale(cells) <==> exists tf :: Lagging(answers, k, tf)
  {
    if tf :| Lagging(answers, k, tf) {
      assert IsStale(CellOf(cells, tf));
    }
    if tf :| tf in cells && cells[tf].stale == Some(true) {
      assert IsStale(CellOf(cells, tf));
    }
  }

  lemma FoldStaleIff<V, F>(pol: Policy<V, F>, answers: seq<Option<Row<V, F>>>, k: nat, tf: Timeframe)
    requires k <= |answers| && NoStaleAnswer(answers)
    ensures IsStale(AnsweredCell(FoldRow(pol, answers, k), tf)) <==> Lagging(answers, k, tf)
  {
    FoldRowShown(pol, answers, k, tf);
    ShownStaleIff(pol.prefix, answers, k, tf);
  }

  /**
   With incoming cells not stale, a row answered again is flagged exactly when
   some timeframe had its last good value before the row's last answer.
   */
  lemma RowFlaggedStale(answers: seq<Option<Row<Option<real>, Momentum>>>, k: nat)
    requires k <= |answers| && FirstNamed(answers, k) < LastNamed(answers, k) && NoStaleAnswer(answers)
    ensures FoldRow(MomentumPolicy(), answers, k).Some?
    ensures FoldRow(MomentumPolicy(), answers, k).value.fields.stale <==> exists tf :: Lagging(answers, k, tf)
  {
    FlagMatchesCells(answers, k);
    var cells := FoldRow(MomentumPolicy(), answers, k).value.cells;
    forall tf
      ensures IsStale(CellOf(cells, tf)) <==> Lagging(answers, k, tf)
    {
      FoldStaleIff(MomentumPolicy(), answers, k, tf);
    }
    AnyStaleIff(cells, answers, k);
  }

  /** The flag of a row in the state after any history of responses. */
  lemma {:induction false} FlagAfterHistory(h: seq<Response<Row<Option<real>, Momentum>>>, k: nat, c: string, r: string)
    requires History(h) && k <= |h| && NoStaleAnswer(Answers(h, c, r))
    requires FirstNamed(Answers(h, c, r), k) < LastNamed(Answers(h, c, r), k)
    ensures StateRow(MomentumPolicy(), h, k, c, r).Some?
    ensures StateRow(MomentumPolicy(), h, k, c, r).value.fields.stale
       <==> exists tf :: Lagging(Answers(h, c, r), k, tf)
  {
    StateRowFolds(MomentumPolicy(), h, k, c, r);
    RowFlaggedStale(Answers(h, c, r), k);
  }

  lemma {:induction false} FlagMatchesCells(answers: seq<Option<Row<Option<real>, Momentum>>>, k: nat)
    requires k <= |answers| && FirstNamed(answers, k) < LastNamed(answers, k)
    ensures FoldRow(MomentumPolicy(), answers, k).Some?
    ensures var row := FoldRow(MomentumPolicy(), answers, k).value;
            row.fields.stale <==> AnyStale(row.cells)
  {
    if answers[k - 1].None? {
      FlagMatchesCells(answers, k - 1);
    } else {
      SqueezeHistory(answers, k - 1);
    }
  }

  // ---------- Names, single answers, prefixes ----------

  /** A row answered once is shown as it was answered. */
  lemma {:induction false} SoleAnswer<V, F>(pol: Policy<V, F>, answers: seq<Option<Row<V, F>>>, k: nat)
    requires k <= |answers| && 0 <= FirstNamed(answers, k) == LastNamed(answers, k)
    ensures FoldRow(pol, answers, k) == answers[FirstNamed(answers, k)]
  {
    if answers[k - 1].None? {
      SoleAnswer(pol, answers, k - 1);
    } else {
      NothingNamed(pol, answers, k - 1);
    }
  }

  lemma {:induction false} NothingNamed<V, F>(pol: Policy<V, F>, answers: seq<Option<Row<V, F>>>, k: nat)
    requires k <= |answers| && forall j :: 0 <= j < k ==> answers[j].None?
    ensures FoldRow(pol, answers, k).None?
  {
    if k > 0 {
      NothingNamed(pol, answers, k - 1);
    }
  }

  /** A field that `carry` always takes from the newer row. */
  ghost predicate TakesNext<V(!new), F(!new), T>(pol: Policy<V, F>, get: F -> T) {
    forall prev, next, cells :: get(pol.carry(prev, next, cells)) == get(next)
  }

  lemma {:induction false} NextHistory<V(!new), F(!new), T>(pol: Policy<V, F>, get: F -> T,
                                                            answers: seq<Option<Row<V, F>>>, k: nat)
    requires k <= |answers| && TakesNext(pol, get)
    ensures FoldRow(pol, answers, k).Some? <==> LastNamed(answers, k) >= 0
    ensures FoldRow(pol, answers, k).Some? ==>
              get(FoldRow(pol, answers, k).value.fields) == get(answers[LastNamed(answers, k)].value.fields)
  {
    if k > 0 {
      NextHistory(pol, get, answers, k - 1);
    }
  }

  function MomentumNames(m: Momentum): (string, string, string) {
    (m.symbol, m.displayName, m.providerSymbol)
  }

  function HacoNames(f: Haco): (string, string, string) {
    (f.symbol, f.displayName, f.providerSymbol)
  }

  /** Symbol, display name and provider symbol of a momentum row are those of its last answer... */
  lemma MomentumNamesAreLast(h: seq<Response<Row<Option<real>, Momentum>>>, k: nat, c: string, r: string)
    requires History(h) && k <= |h| && LastNamed(Answers(h, c, r), k) >= 0
    ensures StateRow(MomentumPolicy(), h, k, c, r).Some?
    ensures var shown := StateRow(MomentumPolicy(), h, k, c, r).value.fields;
            var last := Answers(h, c, r)[LastNamed(Answers(h, c, r), k)].value.fields;
            && shown.symbol == last.symbol && shown.displayName == last.displayName
            && shown.providerSymbol == last.providerSymbol
  {
    StateRowFolds(MomentumPolicy(), h, k, c, r);
    NextHistory(MomentumPolicy(), MomentumNames, Answers(h, c, r), k);
  }

  /** ...and so are those of a HACO row. */
  lemma HacoNamesAreLast(h: seq<Response<Row<Option<Bias>, Haco>>>, k: nat, c: string, r: string)
    requires History(h) && k <= |h| && LastNamed(Answers(h, c, r), k) >= 0
    ensures StateRow(HacoPolicy(), h, k, c, r).Some?
    ensures var shown := StateRow(HacoPolicy(), h, k, c, r).value.fields;
            var last := Answers(h, c, r)[LastNamed(Answers(h, c, r), k)].value.fields;
            && shown.symbol == last.symbol && shown.displayName == last.displayName
            && shown.providerSymbol == last.providerSymbol
  {
    StateRowFolds(HacoPolicy(), h, k, c, r);
    NextHistory(HacoPolicy(), HacoNames, Answers(h, c, r), k);
  }

  /** The reasons of the two pages begin differently. */
  lemma Prefixes()
    ensures MomentumPolicy().prefix == "stale_previous_value_after_refresh_failed:"
    ensures HacoPolicy().prefix == "stale_previous_haco_value_after_refresh_failed:"
  {
  }
}
