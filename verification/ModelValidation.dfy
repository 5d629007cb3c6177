/**
 The model-validation report: the drawdown of a sequence of profits, and the
 attribution of recommendations and closed trades to groups. Amounts are reals,
 before the report rounds them.
 */
module ModelValidation {
  import opened Reals
  import opened Wrappers
  import opened OrderedMap

  // ---------- Drawdown ----------

  function PrefixSum(values: seq<real>, k: nat): real
    requires k <= |values|
  {
    if k == 0 then 0.0 else PrefixSum(values, k - 1) + values[k - 1]
  }

  /** The largest fall from any point of the equity curve to a later one, the start included. */
  ghost predicate IsMaxDrawdown(values: seq<real>, k: nat, worst: real)
    requires k <= |values|
  {
    && (forall i, j :: 0 <= i <= j <= k ==> PrefixSum(values, i) - PrefixSum(values, j) <= worst)
    && (exists i, j :: 0 <= i <= j <= k && PrefixSum(values, i) - PrefixSum(values, j) == worst)
  }

  /** The running peak and the running drawdown after `k` values. */
  function Peak(values: seq<real>, k: nat): real
    requires k <= |values|
  {
    if k == 0 then 0.0 else Max(Peak(values, k - 1), PrefixSum(values, k))
  }

  function Drawdown(values: seq<real>, k: nat): real
    requires k <= |values|
  {
    if k == 0 then 0.0 else Max(Drawdown(values, k - 1), Peak(values, k) - PrefixSum(values, k))
  }

  lemma {:induction false} PeakIsHighest(values: seq<real>, k: nat) returns (top: nat)
    requires k <= |values|
    ensures top <= k && PrefixSum(values, top) == Peak(values, k)
    ensures forall i :: 0 <= i <= k ==> PrefixSum(values, i) <= Peak(values, k)
  {
    if k == 0 {
      top := 0;
    } else {
      var before := PeakIsHighest(values, k - 1);
      top := if Peak(values, k - 1) >= PrefixSum(values, k) then before else k;
    }
  }

  lemma {:induction false} NoDeeper(values: seq<real>, k: nat, i: nat, j: nat)
    requires i <= j <= k <= |values|
    ensures PrefixSum(values, i) - PrefixSum(values, j) <= Drawdown(values, k)
  {
    if j < k {
      NoDeeper(values, k - 1, i, j);
    } else {
      var top := PeakIsHighest(values, k);
    }
  }

  lemma {:induction false} DrawdownIsAttained(values: seq<real>, k: nat) returns (top: nat, bottom: nat)
    requires k <= |values|
    ensures top <= bottom <= k && PrefixSum(values, top) - PrefixSum(values, bottom) == Drawdown(values, k)
  {
    if k == 0 {
      top, bottom := 0, 0;
    } else {
      top, bottom := DrawdownIsAttained(values, k - 1);
      if Drawdown(values, k - 1) < Peak(values, k) - PrefixSum(values, k) {
        top := PeakIsHighest(values, k);
        bottom := k;
      }
    }
  }

  /** The running drawdown is the deepest fall. */
  lemma DrawdownIsDeepest(values: seq<real>, k: nat)
    requires k <= |values|
    ensures IsMaxDrawdown(values, k, Drawdown(values, k))
  {
    forall i, j | 0 <= i <= j <= k
      ensures PrefixSum(values, i) - PrefixSum(values, j) <= Drawdown(values, k)
    {
      NoDeeper(values, k, i, j);
    }
    var top, bottom := DrawdownIsAttained(values, k);
  }

  /** One pass, three running values. */
  method MaxDrawdown(values: seq<real>) returns (r: Option<real>)
    ensures r.None? <==> values == []
    ensures r.Some? ==> IsMaxDrawdown(values, |values|, r.value)
  {
    if |values| == 0 {
      return None;
    }
    var cumulative, peak, worst := 0.0, 0.0, 0.0;
    for k := 0 to |values|
      invariant cumulative == PrefixSum(values, k)
      invariant peak == Peak(values, k)
      invariant worst == Drawdown(values, k)
    {
      cumulative := cumulative + values[k];
      peak := Max(peak, cumulative);
      worst := Max(worst, peak - cumulative);
    }
    DrawdownIsDeepest(values, |values|);
    r := Some(worst);
  }

  lemma {:induction false} PrefixSumsRise(values: seq<real>, i: nat, j: nat)
    requires i <= j <= |values| && forall k :: 0 <= k < |values| ==> values[k] >= 0.0
    ensures PrefixSum(values, i) <= PrefixSum(values, j)
  {
    if i < j {
      PrefixSumsRise(values, i, j - 1);
    }
  }

  /** A drawdown is never negative, and is zero exactly when no value is a loss. */
  lemma ZeroDrawdownIff(values: seq<real>, worst: real)
    requires IsMaxDrawdown(values, |values|, worst)
    ensures worst >= 0.0
    ensures worst == 0.0 <==> forall k :: 0 <= k < |values| ==> values[k] >= 0.0
  {
    assert PrefixSum(values, 0) - PrefixSum(values, 0) <= worst;
    if forall k :: 0 <= k < |values| ==> values[k] >= 0.0 {
      var i, j :| 0 <= i <= j <= |values| && PrefixSum(values, i) - PrefixSum(values, j) == worst;
      PrefixSumsRise(values, i, j);
    } else {
      var k :| 0 <= k < |values| && values[k] < 0.0;
      assert PrefixSum(values, k) - PrefixSum(values, k + 1) <= worst;
    }
  }

  // ---------- Attribution ----------

  datatype Dimension = BySetup | ByRegime | ByCatalystType | ByTimeframe | ByRiskCalendarState
                     | ByProviderSource | ByAlreadyOpen

  const DIMENSIONS: seq<Dimension> := [
    BySetup, ByRegime, ByCatalystType, ByTimeframe, ByRiskCalendarState, ByProviderSource, ByAlreadyOpen
  ]

  datatype Recommendation = Recommendation(
    setup: string, regime: string, catalystType: string, timeframe: string,
    riskCalendarState: string, providerSource: string, alreadyOpen: bool)

  /** A trade row; a field that is missing or unreadable is None, an open trade has no closing time. */
  datatype Trade = Trade(closedAt: string, recommendationId: string,
                         netPnl: Option<real>, realizedPnl: Option<real>, grossPnl: Option<real>)

  datatype Group = Group(recommendations: nat, closedTrades: nat, netPnl: real, wins: nat)

  const EMPTY_GROUP := Group(0, 0, 0.0, 0)

  function Plus(a: Group, b: Group): Group {
    Group(a.recommendations + b.recommendations, a.closedTrades + b.closedTrades, a.netPnl + b.netPnl, a.wins + b.wins)
  }

  function OrUnknown(text: string): string {
    if text == [] then "unknown" else text
  }

  function LabelOf(rec: Recommendation, d: Dimension): string {
    match d
    case BySetup => OrUnknown(rec.setup)
    case ByRegime => OrUnknown(rec.regime)
    case ByCatalystType => OrUnknown(rec.catalystType)
    case ByTimeframe => OrUnknown(rec.timeframe)
    case ByRiskCalendarState => OrUnknown(rec.riskCalendarState)
    case ByProviderSource => OrUnknown(rec.providerSource)
    case ByAlreadyOpen => if rec.alreadyOpen then "already_open" else "fresh_or_unknown"
  }

  function TradeLabel(recs: seq<Entry<Recommendation>>, trade: Trade, d: Dimension): string {
    match Find(recs, trade.recommendationId)
    case None => "unlinked"
    case Some(rec) => LabelOf(rec, d)
  }

  /** The first of net, realized and gross profit that is there. */
  function TradeNetPnl(trade: Trade): real {
    match (trade.netPnl, trade.realizedPnl, trade.grossPnl)
    case (Some(net), _, _) => net
    case (None, Some(realized), _) => realized
    case (None, None, Some(gross)) => gross
    case _ => 0.0
  }

  function IsClosed(trade: Trade): bool {
    trade.closedAt != []
  }

  function TradeGroup(trade: Trade): Group {
    Group(0, 1, TradeNetPnl(trade), if TradeNetPnl(trade) > 0.0 then 1 else 0)
  }

  /** `groups[label]` of a default dictionary, increased. */
  function Bump(groups: seq<Entry<Group>>, name: string, more: Group): seq<Entry<Group>> {
    Set(groups, name, Plus(OrEmpty(Find(groups, name)), more))
  }

  function OrEmpty(g: Option<Group>): Group {
    if g.Some? then g.value else EMPTY_GROUP
  }

  /** One entry in the books of a dimension: so much more for a label. */
  type Posting = (string, Group)

  function RecPosting(rec: Recommendation, d: Dimension): Posting {
    (LabelOf(rec, d), Group(1, 0, 0.0, 0))
  }

  function RecPostings(recs: seq<Entry<Recommendation>>, k: nat, d: Dimension): seq<Posting>
    requires k <= |recs|
  {
    if k == 0 then [] else RecPostings(recs, k - 1, d) + [RecPosting(recs[k - 1].value, d)]
  }

  function TradePosting(recs: seq<Entry<Recommendation>>, trade: Trade, d: Dimension): Posting {
    (TradeLabel(recs, trade, d), TradeGroup(trade))
  }

  /** All recommendations, then the closed ones among the first `k` trades. */
  function Postings(recs: seq<Entry<Recommendation>>, trades: seq<Trade>, k: nat, d: Dimension): seq<Posting>
    requires k <= |trades|
  {
    if k == 0 then RecPostings(recs, |recs|, d)
    else
      Postings(recs, trades, k - 1, d)
      + if IsClosed(trades[k - 1]) then [TradePosting(recs, trades[k - 1], d)] else []
  }

  function Tally(postings: seq<Posting>): seq<Entry<Group>> {
    if postings == [] then []
    else
      var last := postings[|postings| - 1];
      Bump(Tally(postings[..|postings| - 1]), last.0, last.1)
  }

  lemma TallyAppend(postings: seq<Posting>, p: Posting)
    ensures Tally(postings + [p]) == Bump(Tally(postings), p.0, p.1)
  {
    assert (postings + [p])[..|postings|] == postings;
  }

  lemma AllDimensions(d: Dimension)
    ensures d in DIMENSIONS[..|DIMENSIONS|]
  {
    assert DIMENSIONS[..|DIMENSIONS|] == DIMENSIONS;
    assert DIMENSIONS[0] == BySetup && DIMENSIONS[1] == ByRegime && DIMENSIONS[2] == ByCatalystType
        && DIMENSIONS[3] == ByTimeframe && DIMENSIONS[4] == ByRiskCalendarState
        && DIMENSIONS[5] == ByProviderSource && DIMENSIONS[6] == ByAlreadyOpen;
  }

  predicate AllDifferent(dims: seq<Dimension>) {
    forall i, j :: 0 <= i < j < |dims| ==> dims[i] != dims[j]
  }

  function NoGroups(): (r: map<Dimension, seq<Entry<Group>>>)
    ensures forall d :: d in r && r[d] == []
  {
    assert forall d :: d in DIMENSIONS by {
      forall d
        ensures d in DIMENSIONS
      {
        AllDimensions(d);
      }
    }
    map d | d in DIMENSIONS :: []
  }

  type Groups = m: map<Dimension, seq<Entry<Group>>> | forall d :: d in m witness NoGroups()

  /** The inner loop over the dimensions. */
  method BumpAll(groups: Groups, postings: Dimension -> Posting) returns (r: Groups)
    ensures forall d :: r[d] == Bump(groups[d], postings(d).0, postings(d).1)
  {
    r := BumpEach(groups, postings, DIMENSIONS);
    forall d
      ensures d in DIMENSIONS
    {
      AllDimensions(d);
    }
  }

  method BumpEach(groups: Groups, postings: Dimension -> Posting, dims: seq<Dimension>) returns (r: Groups)
    requires AllDifferent(dims)
    ensures forall d :: r[d] == if d in dims then Bump(groups[d], postings(d).0, postings(d).1) else groups[d]
  {
    r := groups;
    for i := 0 to |dims|
      invariant forall d :: r[d] ==
                  if d in dims[..i] then Bump(groups[d], postings(d).0, postings(d).1) else groups[d]
    {
      var d := dims[i];
      assert dims[..i + 1] == dims[..i] + [d];
      r := r[d := Bump(r[d], postings(d).0, postings(d).1)];
    }
    assert dims[..|dims|] == dims;
  }

  method BuildAttribution(recs: seq<Entry<Recommendation>>, trades: seq<Trade>) returns (groups: Groups)
    ensures forall d :: groups[d] == Tally(Postings(recs, trades, |trades|, d))
  {
    groups := NoGroups();
    for k := 0 to |recs|
      invariant forall d :: groups[d] == Tally(RecPostings(recs, k, d))
    {
      groups := BumpAll(groups, d => RecPosting(recs[k].value, d));
      forall d
        ensures groups[d] == Tally(RecPostings(recs, k + 1, d))
      {
        TallyAppend(RecPostings(recs, k, d), RecPosting(recs[k].value, d));
      }
    }
    for k := 0 to |trades|
      invariant forall d :: groups[d] == Tally(Postings(recs, trades, k, d))
    {
      if !IsClosed(trades[k]) {
        forall d
          ensures Postings(recs, trades, k + 1, d) == Postings(recs, trades, k, d)
        {
        }
        continue;
      }
      groups := BumpAll(groups, d => TradePosting(recs, trades[k], d));
      forall d
        ensures groups[d] == Tally(Postings(recs, trades, k + 1, d))
      {
        TallyAppend(Postings(recs, trades, k, d), TradePosting(recs, trades[k], d));
      }
    }
  }

  // ---------- Conservation ----------

  function Total(groups: seq<Entry<Group>>): Group {
    if groups == [] then EMPTY_GROUP else Plus(Total(groups[..|groups| - 1]), groups[|groups| - 1].value)
  }

  lemma {:induction false} TotalUpdate(groups: seq<Entry<Group>>, i: nat, more: Group)
    requires i < |groups|
    ensures Total(groups[i := Entry(groups[i].key, Plus(groups[i].value, more))]) == Plus(Total(groups), more)
  {
    var n := |groups| - 1;
    var changed := groups[i := Entry(groups[i].key, Plus(groups[i].value, more))];
    if i == n {
      assert changed[..n] == groups[..n];
    } else {
      TotalUpdate(groups[..n], i, more);
      assert changed[..n] == groups[..n][i := changed[i]];
    }
  }

  lemma TotalBump(groups: seq<Entry<Group>>, name: string, more: Group)
    ensures Total(Bump(groups, name, more)) == Plus(Total(groups), more)
  {
    var i := IndexOf(Keys(groups), name);
    if i < |groups| {
      TotalUpdate(groups, i, more);
    } else {
      var after := groups + [Entry(name, Plus(EMPTY_GROUP, more))];
      assert after[..|groups|] == groups;
    }
  }

  /** The closed trades, as the trade summary filters them. */
  function Closed(trades: seq<Trade>, k: nat): seq<Trade>
    requires k <= |trades|
  {
    if k == 0 then []
    else Closed(trades, k - 1) + if IsClosed(trades[k - 1]) then [trades[k - 1]] else []
  }

  function NetPnls(trades: seq<Trade>): (r: seq<real>)
    ensures |r| == |trades|
  {
    seq(|trades|, i requires 0 <= i < |trades| => TradeNetPnl(trades[i]))
  }

  function Wins(pnls: seq<real>): seq<real> {
    if pnls == [] then []
    else Wins(pnls[..|pnls| - 1]) + if pnls[|pnls| - 1] > 0.0 then [pnls[|pnls| - 1]] else []
  }

  datatype TradeSummary = TradeSummary(count: nat, closedCount: nat, totalNetPnl: real, winCount: nat)

  function AnalyzeTrades(trades: seq<Trade>): TradeSummary {
    var pnls := NetPnls(Closed(trades, |trades|));
    TradeSummary(|trades|, |pnls|, PrefixSum(pnls, |pnls|), |Wins(pnls)|)
  }

  function SummaryGroup(recommendations: nat, pnls: seq<real>): Group {
    Group(recommendations, |pnls|, PrefixSum(pnls, |pnls|), |Wins(pnls)|)
  }

  lemma {:induction false} PrefixSumPrefix(values: seq<real>, more: seq<real>, k: nat)
    requires k <= |values|
    ensures PrefixSum(values + more, k) == PrefixSum(values, k)
  {
    if k > 0 {
      PrefixSumPrefix(values, more, k - 1);
    }
  }

  lemma SummaryAppend(recommendations: nat, pnls: seq<real>, pnl: real)
    ensures SummaryGroup(recommendations, pnls + [pnl])
            == Plus(SummaryGroup(recommendations, pnls), Group(0, 1, pnl, if pnl > 0.0 then 1 else 0))
  {
    PrefixSumPrefix(pnls, [pnl], |pnls|);
    assert (pnls + [pnl])[..|pnls|] == pnls;
  }

  /** What the postings add up to, whatever their labels. */
  function Sum(postings: seq<Posting>): Group {
    if postings == [] then EMPTY_GROUP
    else Plus(Sum(postings[..|postings| - 1]), postings[|postings| - 1].1)
  }

  lemma {:induction false} TallyTotal(postings: seq<Posting>)
    ensures Total(Tally(postings)) == Sum(postings)
  {
    if postings != [] {
      var front, last := postings[..|postings| - 1], postings[|postings| - 1];
      TallyTotal(front);
      TotalBump(Tally(front), last.0, last.1);
    }
  }

  lemma SumAppend(postings: seq<Posting>, p: Posting)
    ensures Sum(postings + [p]) == Plus(Sum(postings), p.1)
  {
    assert (postings + [p])[..|postings|] == postings;
  }

  lemma {:induction false} RecsSum(recs: seq<Entry<Recommendation>>, k: nat, d: Dimension)
    requires k <= |recs|
    ensures Sum(RecPostings(recs, k, d)) == Group(k, 0, 0.0, 0)
  {
    if k > 0 {
      RecsSum(recs, k - 1, d);
      SumAppend(RecPostings(recs, k - 1, d), RecPosting(recs[k - 1].value, d));
    }
  }

  /** What trade number `k` adds: itself when it is closed, else nothing. */
  function Share(trade: Trade): Group {
    if IsClosed(trade) then TradeGroup(trade) else EMPTY_GROUP
  }

  lemma PostingsStep(recs: seq<Entry<Recommendation>>, trades: seq<Trade>, k: nat, d: Dimension)
    requires 0 < k <= |trades|
    ensures Sum(Postings(recs, trades, k, d)) == Plus(Sum(Postings(recs, trades, k - 1, d)), Share(trades[k - 1]))
  {
    var before := Postings(recs, trades, k - 1, d);
    if IsClosed(trades[k - 1]) {
      SumAppend(before, TradePosting(recs, trades[k - 1], d));
    } else {
      assert Postings(recs, trades, k, d) == before;
    }
  }

  /** The recommendations and the shares of the first `k` trades, added up. */
  function Expected(recommendations: nat, trades: seq<Trade>, k: nat): Group
    requires k <= |trades|
  {
    if k == 0 then Group(recommendations, 0, 0.0, 0)
    else Plus(Expected(recommendations, trades, k - 1), Share(trades[k - 1]))
  }

  lemma NothingSummed(recommendations: nat, trades: seq<Trade>, k: nat)
    requires 0 == k <= |trades|
    ensures SummaryGroup(recommendations, NetPnls(Closed(trades, k))) == Group(recommendations, 0, 0.0, 0)
  {
    var pnls := NetPnls(Closed(trades, k));
    assert pnls == [];
  }

  lemma SummaryStep(recommendations: nat, trades: seq<Trade>, k: nat)
    requires 0 < k <= |trades|
    ensures SummaryGroup(recommendations, NetPnls(Closed(trades, k)))
            == Plus(SummaryGroup(recommendations, NetPnls(Closed(trades, k - 1))), Share(trades[k - 1]))
  {
    var before := NetPnls(Closed(trades, k - 1));
    if IsClosed(trades[k - 1]) {
      SummaryAppend(recommendations, before, TradeNetPnl(trades[k - 1]));
      assert NetPnls(Closed(trades, k)) == before + [TradeNetPnl(trades[k - 1])];
    } else {
      assert Closed(trades, k) == Closed(trades, k - 1);
    }
  }

  lemma {:induction false} ExpectedIsSummary(recommendations: nat, trades: seq<Trade>, k: nat)
    requires k <= |trades|
    ensures Expected(recommendations, trades, k) == SummaryGroup(recommendations, NetPnls(Closed(trades, k)))
  {
    if k == 0 {
      NothingSummed(recommendations, trades, k);
    } else {
      ExpectedIsSummary(recommendations, trades, k - 1);
      SummaryStep(recommendations, trades, k);
    }
  }

  lemma NothingPosted(recs: seq<Entry<Recommendation>>, trades: seq<Trade>, k: nat, d: Dimension)
    requires 0 == k <= |trades|
    ensures Sum(Postings(recs, trades, k, d)) == Group(|recs|, 0, 0.0, 0)
  {
    RecsSum(recs, |recs|, d);
  }

  /** Sums that start alike and grow alike stay alike. */
  lemma {:induction false} SameSteps(a: seq<Group>, shares: seq<Trade>, recommendations: nat, k: nat)
    requires k <= |shares| && |a| == |shares| + 1 && a[0] == Group(recommendations, 0, 0.0, 0)
    requires forall i, j :: 0 <= i < |shares| && j == i + 1 ==> a[j] == Plus(a[i], Share(shares[i]))
    ensures a[k] == Expected(recommendations, shares, k)
  {
    if k > 0 {
      SameSteps(a, shares, recommendations, k - 1);
    }
  }

  lemma PostingsSum(recs: seq<Entry<Recommendation>>, trades: seq<Trade>, k: nat, d: Dimension)
    requires k <= |trades|
    ensures Sum(Postings(recs, trades, k, d)) == Expected(|recs|, trades, k)
  {
    var sums := seq(|trades| + 1, i requires 0 <= i <= |trades| => Sum(Postings(recs, trades, i, d)));
    NothingPosted(recs, trades, 0, d);
    forall i, j | 0 <= i < |trades| && j == i + 1
      ensures sums[j] == Plus(sums[i], Share(trades[i]))
    {
      PostingsStep(recs, trades, j, d);
    }
    SameSteps(sums, trades, |recs|, k);
  }

  /** In every dimension the groups add up to the recommendations and to the trade summary. */
  lemma AttributionConserves(recs: seq<Entry<Recommendation>>, trades: seq<Trade>, d: Dimension)
    ensures var total, summary := Total(Tally(Postings(recs, trades, |trades|, d))), AnalyzeTrades(trades);
            && total.recommendations == |recs|
            && total.closedTrades == summary.closedCount
            && total.netPnl == summary.totalNetPnl
            && total.wins == summary.winCount
  {
    TallyTotal(Postings(recs, trades, |trades|, d));
    PostingsSum(recs, trades, |trades|, d);
    ExpectedIsSummary(|recs|, trades, |trades|);
  }

  // ---------- Each group on its own ----------

  /** The postings that carry a label. */
  function Carrying(postings: seq<Posting>, name: string): seq<Posting> {
    if postings == [] then []
    else
      var last := postings[|postings| - 1];
      Carrying(postings[..|postings| - 1], name) + if last.0 == name then [last] else []
  }

  lemma FindBump(groups: seq<Entry<Group>>, name: string, more: Group, other: string)
    ensures Find(Bump(groups, name, more), other) ==
            if other == name then Some(Plus(OrEmpty(Find(groups, name)), more)) else Find(groups, other)
  {
    FindSet(groups, name, Plus(OrEmpty(Find(groups, name)), more), other);
  }

  /** A group exists exactly for the labels that occur, and holds exactly what carries its label. */
  lemma {:induction false} TallyPointwise(postings: seq<Posting>, name: string)
    ensures Find(Tally(postings), name) ==
            if Carrying(postings, name) == [] then None else Some(Sum(Carrying(postings, name)))
  {
    if postings != [] {
      var front, last := postings[..|postings| - 1], postings[|postings| - 1];
      TallyPointwise(front, name);
      FindBump(Tally(front), last.0, last.1, name);
      if last.0 == name {
        SumAppend(Carrying(front, name), last);
      } else {
        assert Carrying(postings, name) == Carrying(front, name);
      }
    }
  }

  // ---------- Labels, profits and one row more ----------

  /** Each dimension reads its own field and no other; an empty one is unknown. */
  lemma LabelsByField(rec: Recommendation, x: string, open: bool, d: Dimension)
    ensures var name := if x == "" then "unknown" else x;
            && LabelOf(rec.(setup := x), d) == (if d == BySetup then name else LabelOf(rec, d))
            && LabelOf(rec.(regime := x), d) == (if d == ByRegime then name else LabelOf(rec, d))
            && LabelOf(rec.(catalystType := x), d) == (if d == ByCatalystType then name else LabelOf(rec, d))
            && LabelOf(rec.(timeframe := x), d) == (if d == ByTimeframe then name else LabelOf(rec, d))
            && LabelOf(rec.(riskCalendarState := x), d)
               == (if d == ByRiskCalendarState then name else LabelOf(rec, d))
            && LabelOf(rec.(providerSource := x), d) == (if d == ByProviderSource then name else LabelOf(rec, d))
    ensures LabelOf(rec.(alreadyOpen := open), d) ==
            if d != ByAlreadyOpen then LabelOf(rec, d) else if open then "already_open" else "fresh_or_unknown"
  {
  }

  /** A trade is labelled as its recommendation, or as unlinked. */
  lemma TradeLabels(recs: seq<Entry<Recommendation>>, trade: Trade, d: Dimension)
    ensures trade.recommendationId !in Keys(recs) ==> TradeLabel(recs, trade, d) == "unlinked"
    ensures forall i :: 0 <= i < |recs| && Unique(recs) && recs[i].key == trade.recommendationId ==>
              TradeLabel(recs, trade, d) == LabelOf(recs[i].value, d)
  {
    forall i | 0 <= i < |recs| && Unique(recs) && recs[i].key == trade.recommendationId
      ensures TradeLabel(recs, trade, d) == LabelOf(recs[i].value, d)
    {
      IndexOfUnique(Keys(recs), i);
    }
  }

  /** Net before realized before gross; nothing readable is nothing earned. */
  lemma PnlPrecedence(trade: Trade)
    ensures trade.netPnl.Some? ==> TradeNetPnl(trade) == trade.netPnl.value
    ensures trade.netPnl.None? && trade.realizedPnl.Some? ==> TradeNetPnl(trade) == trade.realizedPnl.value
    ensures trade.netPnl.None? && trade.realizedPnl.None? && trade.grossPnl.Some? ==>
              TradeNetPnl(trade) == trade.grossPnl.value
    ensures trade.netPnl.None? && trade.realizedPnl.None? && trade.grossPnl.None? ==> TradeNetPnl(trade) == 0.0
  {
  }

  lemma {:induction false} ClosedPrefix(trades: seq<Trade>, more: seq<Trade>, k: nat)
    requires k <= |trades|
    ensures Closed(trades + more, k) == Closed(trades, k)
  {
    if k > 0 {
      ClosedPrefix(trades, more, k - 1);
    }
  }

  /** One more trade: an open one is only counted, a closed one adds its profit, and a win when that is positive. */
  lemma SummaryOfOneMore(trades: seq<Trade>, t: Trade)
    ensures var before, after, pnl := AnalyzeTrades(trades), AnalyzeTrades(trades + [t]), TradeNetPnl(t);
            after == if t.closedAt == "" then before.(count := before.count + 1)
                     else TradeSummary(before.count + 1, before.closedCount + 1, before.totalNetPnl + pnl,
                                       before.winCount + if pnl > 0.0 then 1 else 0)
  {
    var n := |trades|;
    ClosedPrefix(trades, [t], n);
    var before := NetPnls(Closed(trades, n));
    if t.closedAt == "" {
      assert Closed(trades + [t], n + 1) == Closed(trades, n);
    } else {
      assert NetPnls(Closed(trades + [t], n + 1)) == before + [TradeNetPnl(t)];
      SummaryAppend(0, before, TradeNetPnl(t));
    }
  }

  lemma {:induction false} PostingsPrefix(recs: seq<Entry<Recommendation>>, trades: seq<Trade>, more: seq<Trade>,
                                          k: nat, d: Dimension)
    requires k <= |trades|
    ensures Postings(recs, trades + more, k, d) == Postings(recs, trades, k, d)
  {
    if k > 0 {
      PostingsPrefix(recs, trades, more, k - 1, d);
    }
  }

  /** The groups of a dimension. */
  function GroupsOf(recs: seq<Entry<Recommendation>>, trades: seq<Trade>, d: Dimension): seq<Entry<Group>> {
    Tally(Postings(recs, trades, |trades|, d))
  }

  lemma GroupsStep(recs: seq<Entry<Recommendation>>, trades: seq<Trade>, t: Trade, d: Dimension)
    ensures GroupsOf(recs, trades + [t], d) ==
            if t.closedAt == "" then GroupsOf(recs, trades, d)
            else Bump(GroupsOf(recs, trades, d), TradeLabel(recs, t, d), TradeGroup(t))
  {
    var n := |trades|;
    PostingsPrefix(recs, trades, [t], n, d);
    if t.closedAt == "" {
      assert Postings(recs, trades + [t], n + 1, d) == Postings(recs, trades, n, d);
    } else {
      TallyAppend(Postings(recs, trades, n, d), TradePosting(recs, t, d));
    }
  }

  /** One more trade: an open one changes no group, a closed one adds itself to the group of its label alone. */
  lemma GroupsOfOneMore(recs: seq<Entry<Recommendation>>, trades: seq<Trade>, t: Trade, d: Dimension, name: string)
    ensures var before, after := OrEmpty(Find(GroupsOf(recs, trades, d), name)),
                                 OrEmpty(Find(GroupsOf(recs, trades + [t], d), name));
            after == if t.closedAt == "" || name != TradeLabel(recs, t, d) then before
                     else Group(before.recommendations, before.closedTrades + 1, before.netPnl + TradeNetPnl(t),
                                before.wins + if TradeNetPnl(t) > 0.0 then 1 else 0)
  {
    GroupsStep(recs, trades, t, d);
    FindBump(GroupsOf(recs, trades, d), TradeLabel(recs, t, d), TradeGroup(t), name);
  }

  lemma {:induction false} RecPostingsPrefix(recs: seq<Entry<Recommendation>>, more: seq<Entry<Recommendation>>,
                                             k: nat, d: Dimension)
    requires k <= |recs|
    ensures RecPostings(recs + more, k, d) == RecPostings(recs, k, d)
  {
    if k > 0 {
      RecPostingsPrefix(recs, more, k - 1, d);
    }
  }

  /** One more recommendation adds one to the group of its label alone. */
  lemma GroupsOfOneRecommendation(recs: seq<Entry<Recommendation>>, rec: Entry<Recommendation>, d: Dimension,
                                  name: string)
    ensures var before, after := OrEmpty(Find(GroupsOf(recs, [], d), name)),
                                 OrEmpty(Find(GroupsOf(recs + [rec], [], d), name));
            after == if name == LabelOf(rec.value, d) then before.(recommendations := before.recommendations + 1)
                     else before
  {
    var n, p := |recs|, RecPosting(rec.value, d);
    RecPostingsPrefix(recs, [rec], n, d);
    TallyAppend(RecPostings(recs, n, d), p);
    FindBump(Tally(RecPostings(recs, n, d)), p.0, p.1, name);
  }
}
