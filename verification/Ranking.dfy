/**
 Ranks: the published queue of the ranking engine, and the impact review that
 estimates the rank of every candidate if momentum scores were applied.
 */
module Ranking {
  import Sorting
  import opened Wrappers
  import TextKeys

  // ---------- Sort keys ----------

  /** Score, published rank and position, compared in that order. */
  datatype Key = Key(score: real, rank: int, index: nat)

  predicate Before(a: Key, b: Key) {
    || a.score > b.score
    || (a.score == b.score && (a.rank < b.rank || (a.rank == b.rank && a.index < b.index)))
  }

  predicate Ordered(keys: seq<Key>) {
    forall i, j :: 0 <= i < j < |keys| ==> Before(keys[i], keys[j])
  }

  predicate DistinctPositions(keys: seq<Key>) {
    forall i, j :: 0 <= i < |keys| && 0 <= j < |keys| && i != j ==> keys[i].index != keys[j].index
  }

  /** The built-in sort: any way of sorting gives this result, see SortUnique. */
  function SortKeys(keys: seq<Key>): seq<Key> {
    Sorting.Sort(Before, keys)
  }

  lemma SortIsSorted(keys: seq<Key>)
    requires DistinctPositions(keys)
    ensures Ordered(SortKeys(keys)) && multiset(SortKeys(keys)) == multiset(keys)
    ensures |SortKeys(keys)| == |keys|
  {
    Sorting.SortMembers(Before, keys);
    Sorting.SortOrdered(Before, Before, keys);
    assert Sorting.Ordered(Before, SortKeys(keys));
  }

  /** There is one strictly ordered arrangement of a collection of keys. */
  lemma SortUnique(a: seq<Key>, b: seq<Key>)
    requires Ordered(a) && Ordered(b) && multiset(a) == multiset(b)
    ensures a == b
  {
    forall k
      ensures k in a <==> k in b
    {
      assert k in a <==> k in multiset(a);
    }
    Sorting.OrderUnique(Before, a, b);
  }

  // ---------- The published queue ----------

  /** `sort(key=score, reverse=True)`, stable, then ranks from 1: the positions in rank order. */
  function QueueKeys(scores: seq<real>): (r: seq<Key>)
    ensures |r| == |scores|
  {
    seq(|scores|, i requires 0 <= i < |scores| => Key(scores[i], 0, i))
  }

  function Queue(scores: seq<real>): seq<Key> {
    SortKeys(QueueKeys(scores))
  }

  // ---------- Estimated scores ----------

  datatype Mode = Off | Shadow | Active

  datatype Contribution = Contribution(enabled: bool, mode: Mode, directionUnknown: bool,
                                       shadow: real, activeDeltaScale: Option<real>)

  datatype Candidate = Candidate(symbol: string, strategy: string, rank: int, score: real,
                                 contribution: Option<Contribution>)

  const RANKING_SCORE_SCALE := 100.0
  const DEFAULT_ACTIVE_DELTA_SCALE := 0.35

  function ClampUnit(x: real): real {
    if x < 0.0 then 0.0 else if x > 1.0 then 1.0 else x
  }

  function ResolveScale(scale: Option<real>): real {
    if scale.None? || scale.value < 0.0 || scale.value > 1.0 then DEFAULT_ACTIVE_DELTA_SCALE else scale.value
  }

  function EstimateActiveScore(c: Candidate): real {
    var score := ClampUnit(c.score);
    match c.contribution
    case None => score
    case Some(m) =>
      if !m.enabled || m.mode != Shadow || m.directionUnknown then score
      else ClampUnit(score + m.shadow / RANKING_SCORE_SCALE * ResolveScale(m.activeDeltaScale))
  }

  /** `x`, or the nearer end of the unit interval. */
  predicate Clamped(r: real, x: real) {
    if x < 0.0 then r == 0.0 else if x > 1.0 then r == 1.0 else r == x
  }

  /** The candidate's shadow contribution is to be applied. */
  predicate Shadowed(c: Candidate) {
    c.contribution.Some? && c.contribution.value.enabled && c.contribution.value.mode == Shadow
    && !c.contribution.value.directionUnknown
  }

  /** Without an applicable shadow contribution the estimate is the clamped score. */
  lemma EstimateWithoutShadow(c: Candidate)
    requires !Shadowed(c)
    ensures Clamped(EstimateActiveScore(c), c.score)
  {
  }

  /**
   With one, the clamped score moves by a hundredth of the shadow points, scaled
   by a factor between 0 and 1 that is 0.35 when none such is given, and is
   clamped again.
   */
  lemma EstimateWithShadow(c: Candidate, base: real, scale: real)
    requires Shadowed(c) && Clamped(base, c.score)
    requires match c.contribution.value.activeDeltaScale
             case None => scale == 0.35
             case Some(given) => scale == if 0.0 <= given <= 1.0 then given else 0.35
    ensures Clamped(EstimateActiveScore(c), base + c.contribution.value.shadow * scale / 100.0)
  {
    var shadow := c.contribution.value.shadow;
    assert shadow / 100.0 * scale == shadow * scale / 100.0;
  }

  // ---------- The impact review ----------

  datatype ImpactRow = ImpactRow(rankBefore: int, rankAfter: int, rankDelta: int)

  /** Sort entries of the candidates that are there, each with its position among them. */
  function Entries(candidates: seq<Option<Candidate>>, k: nat): (r: seq<(Candidate, Key)>)
    requires k <= |candidates|
    ensures |r| <= k
    ensures forall i :: 0 <= i < |r| ==> r[i].1.index == i
  {
    if k == 0 then []
    else
      var before := Entries(candidates, k - 1);
      match candidates[k - 1]
      case None => before
      case Some(c) => before + [(c, Key(EstimateActiveScore(c), c.rank, |before|))]
  }

  function KeysOf(entries: seq<(Candidate, Key)>): (r: seq<Key>)
    ensures |r| == |entries|
  {
    seq(|entries|, i requires 0 <= i < |entries| => entries[i].1)
  }

  /** The place of a position in the sorted keys, counted from 1, or 0. */
  function Place(sorted: seq<Key>, index: nat): (p: nat)
    ensures p <= |sorted|
    ensures p > 0 ==> sorted[p - 1].index == index
    ensures p == 0 ==> forall i :: 0 <= i < |sorted| ==> sorted[i].index != index
  {
    if sorted == [] then 0
    else if sorted[|sorted| - 1].index == index then |sorted|
    else Place(sorted[..|sorted| - 1], index)
  }

  /** Symbol, strategy and position: the review joins them to its look-up key. */
  type RankKey = (string, string, nat)

  function KeyText(key: RankKey): string {
    TextKeys.KeyOf(key.0, key.1, key.2)
  }

  /** What the look-up by symbol, strategy and position yields for candidate number `idx`. */
  function RankAfter(entries: seq<(Candidate, Key)>, sorted: seq<Key>, c: Candidate, idx: nat): int {
    if Names(entries, (c.symbol, c.strategy, idx)) then Place(sorted, idx) else c.rank
  }

  function Row(entries: seq<(Candidate, Key)>, sorted: seq<Key>, c: Candidate, idx: nat): ImpactRow {
    var after := RankAfter(entries, sorted, c, idx);
    ImpactRow(c.rank, after, if after == 0 then 0 else c.rank - after)
  }

  function RowsFrom(entries: seq<(Candidate, Key)>, sorted: seq<Key>, candidates: seq<Option<Candidate>>, k: nat)
    : seq<ImpactRow>
    requires k <= |candidates|
  {
    if k == 0 then []
    else
      match candidates[k - 1]
      case None => RowsFrom(entries, sorted, candidates, k - 1)
      case Some(c) => RowsFrom(entries, sorted, candidates, k - 1) + [Row(entries, sorted, c, k - 1)]
  }

  /** One row for every candidate that is there. */
  function Rows(candidates: seq<Option<Candidate>>): seq<ImpactRow> {
    var entries := Entries(candidates, |candidates|);
    RowsFrom(entries, SortKeys(KeysOf(entries)), candidates, |candidates|)
  }

  method BuildMomentumImpactRows(candidates: seq<Option<Candidate>>) returns (rows: seq<ImpactRow>)
    ensures rows == Rows(candidates)
  {
    var estimated := EstimateScores(candidates);
    var sorted := SortKeys(KeysOf(estimated));
    var rankAfterByKey := FillRanks(estimated, sorted);
    rows := ReadRanks(candidates, estimated, sorted, rankAfterByKey);
  }

  method EstimateScores(candidates: seq<Option<Candidate>>) returns (estimated: seq<(Candidate, Key)>)
    ensures estimated == Entries(candidates, |candidates|)
  {
    estimated := [];
    for k := 0 to |candidates|
      invariant estimated == Entries(candidates, k)
    {
      match candidates[k] {
        case None =>
        case Some(c) =>
          estimated := estimated + [(c, Key(EstimateActiveScore(c), c.rank, |estimated|))];
      }
    }
  }

  method ReadRanks(candidates: seq<Option<Candidate>>, ghost entries: seq<(Candidate, Key)>,
                   ghost sorted: seq<Key>, ranks: map<string, int>)
    returns (rows: seq<ImpactRow>)
    requires Filled(entries, sorted, ranks)
    ensures rows == RowsFrom(entries, sorted, candidates, |candidates|)
  {
    rows := [];
    for k := 0 to |candidates|
      invariant rows == RowsFrom(entries, sorted, candidates, k)
    {
      match candidates[k] {
        case None =>
        case Some(c) =>
          var key := KeyText((c.symbol, c.strategy, k));
          var rankAfter := if key in ranks then ranks[key] else c.rank;
          assert rankAfter == RankAfter(entries, sorted, c, k);
          rows := rows + [ImpactRow(c.rank, rankAfter, if rankAfter == 0 then 0 else c.rank - rankAfter)];
      }
    }
  }

  predicate Names(entries: seq<(Candidate, Key)>, key: RankKey) {
    && key.2 < |entries|
    && TextKeys.Joined(entries[key.2].0.symbol, entries[key.2].0.strategy) == TextKeys.Joined(key.0, key.1)
  }

  lemma KeysDistinct(entries: seq<(Candidate, Key)>)
    requires forall i :: 0 <= i < |entries| ==> entries[i].1.index == i
    ensures DistinctPositions(KeysOf(entries))
  {
  }

  /** Every sorted key names an entry. */
  lemma SortedPositions(entries: seq<(Candidate, Key)>, r: nat)
    requires forall i :: 0 <= i < |entries| ==> entries[i].1.index == i
    requires r < |SortKeys(KeysOf(entries))|
    ensures SortKeys(KeysOf(entries))[r] in KeysOf(entries)
    ensures SortKeys(KeysOf(entries))[r].index < |entries|
  {
    var keys := KeysOf(entries);
    KeysDistinct(entries);
    SortIsSorted(keys);
    assert SortKeys(keys)[r] in multiset(SortKeys(keys));
    var i :| 0 <= i < |keys| && keys[i] == SortKeys(keys)[r];
  }

  /** The map knows each entry by its key, and holds its place among the keys sorted so far. */
  predicate FilledFor(entries: seq<(Candidate, Key)>, sorted: seq<Key>, ranks: map<string, int>, key: RankKey) {
    && (KeyText(key) in ranks <==> Names(entries, key) && Place(sorted, key.2) > 0)
    && (KeyText(key) in ranks ==> ranks[KeyText(key)] == Place(sorted, key.2))
  }

  ghost predicate FilledSoFar(entries: seq<(Candidate, Key)>, sorted: seq<Key>, ranks: map<string, int>) {
    forall key :: FilledFor(entries, sorted, ranks, key)
  }

  /** Every entry has its place. */
  ghost predicate Filled(entries: seq<(Candidate, Key)>, sorted: seq<Key>, ranks: map<string, int>) {
    && (forall key :: KeyText(key) in ranks <==> Names(entries, key))
    && (forall key :: KeyText(key) in ranks ==> ranks[KeyText(key)] == Place(sorted, key.2))
  }

  function OwnKey(entries: seq<(Candidate, Key)>, idx: nat): RankKey
    requires idx < |entries|
  {
    (entries[idx].0.symbol, entries[idx].0.strategy, idx)
  }

  lemma {:induction false} FillStep(entries: seq<(Candidate, Key)>, sorted: seq<Key>, last: Key,
                                    ranks: map<string, int>, key: RankKey)
    requires last.index < |entries| && FilledFor(entries, sorted, ranks, key)
    ensures FilledFor(entries, sorted + [last],
                      ranks[KeyText(OwnKey(entries, last.index)) := |sorted| + 1], key)
  {
    var own := OwnKey(entries, last.index);
    TextKeys.KeyEqualIff(key.0, key.1, key.2, own.0, own.1, own.2);
    assert (sorted + [last])[..|sorted|] == sorted;
  }

  lemma FillAllStep(entries: seq<(Candidate, Key)>, sorted: seq<Key>, last: Key, ranks: map<string, int>)
    requires last.index < |entries| && FilledSoFar(entries, sorted, ranks)
    ensures FilledSoFar(entries, sorted + [last],
                        ranks[KeyText(OwnKey(entries, last.index)) := |sorted| + 1])
  {
    var more := ranks[KeyText(OwnKey(entries, last.index)) := |sorted| + 1];
    forall key: RankKey
      ensures FilledFor(entries, sorted + [last], more, key)
    {
      FillStep(entries, sorted, last, ranks, key);
    }
  }

  lemma FillEnds(entries: seq<(Candidate, Key)>, sorted: seq<Key>, ranks: map<string, int>)
    requires forall i :: 0 <= i < |entries| ==> entries[i].1.index == i
    requires sorted == SortKeys(KeysOf(entries)) && FilledSoFar(entries, sorted, ranks)
    ensures Filled(entries, sorted, ranks)
  {
    forall key: RankKey
      ensures KeyText(key) in ranks <==> Names(entries, key)
      ensures KeyText(key) in ranks ==> ranks[KeyText(key)] == Place(sorted, key.2)
    {
      assert FilledFor(entries, sorted, ranks, key);
      if Names(entries, key) {
        EveryPositionPlaced(entries, key.2);
      }
    }
  }

  method FillRanks(entries: seq<(Candidate, Key)>, sorted: seq<Key>) returns (ranks: map<string, int>)
    requires forall i :: 0 <= i < |entries| ==> entries[i].1.index == i
    requires sorted == SortKeys(KeysOf(entries))
    ensures Filled(entries, sorted, ranks)
  {
    forall r | 0 <= r < |sorted|
      ensures sorted[r].index < |entries|
    {
      SortedPositions(entries, r);
    }
    ranks := FillInOrder(entries, sorted);
    FillEnds(entries, sorted, ranks);
  }

  lemma FillNone(entries: seq<(Candidate, Key)>)
    ensures FilledSoFar(entries, [], map[])
  {
  }

  method FillInOrder(entries: seq<(Candidate, Key)>, sorted: seq<Key>) returns (ranks: map<string, int>)
    requires forall r :: 0 <= r < |sorted| ==> sorted[r].index < |entries|
    ensures FilledSoFar(entries, sorted, ranks)
  {
    ranks := map[];
    ghost var done: seq<Key> := [];
    FillNone(entries);
    for r := 0 to |sorted|
      invariant done == sorted[..r]
      invariant FilledSoFar(entries, done, ranks)
    {
      var last := sorted[r];
      FillAllStep(entries, done, last, ranks);
      ranks := ranks[KeyText(OwnKey(entries, last.index)) := r + 1];
      done := done + [last];
    }
    assert done == sorted;
  }

  lemma EveryPositionPlaced(entries: seq<(Candidate, Key)>, idx: nat)
    requires forall i :: 0 <= i < |entries| ==> entries[i].1.index == i
    requires idx < |entries|
    ensures Place(SortKeys(KeysOf(entries)), idx) > 0
  {
    var keys := KeysOf(entries);
    KeysDistinct(entries);
    SortIsSorted(keys);
    assert keys[idx] in multiset(keys);
    assert keys[idx] in SortKeys(keys);
  }

  // ---------- The estimated ranks ----------

  predicate NoNull(candidates: seq<Option<Candidate>>) {
    forall i :: 0 <= i < |candidates| ==> candidates[i].Some?
  }

  function KeyOf(c: Candidate, index: nat): Key {
    Key(EstimateActiveScore(c), c.rank, index)
  }

  /** One key for every candidate. */
  function CandidateKeys(candidates: seq<Option<Candidate>>): (r: seq<Key>)
    requires NoNull(candidates)
    ensures |r| == |candidates|
  {
    seq(|candidates|, i requires 0 <= i < |candidates| => KeyOf(candidates[i].value, i))
  }

  lemma {:induction false} EntriesOfAll(candidates: seq<Option<Candidate>>, k: nat)
    requires NoNull(candidates) && k <= |candidates|
    ensures |Entries(candidates, k)| == k
    ensures forall i :: 0 <= i < k ==> Entries(candidates, k)[i] == (candidates[i].value, KeyOf(candidates[i].value, i))
  {
    if k > 0 {
      EntriesOfAll(candidates, k - 1);
    }
  }

  lemma {:induction false} RowsFromAll(entries: seq<(Candidate, Key)>, sorted: seq<Key>,
                                        candidates: seq<Option<Candidate>>, k: nat)
    requires NoNull(candidates) && k <= |candidates|
    ensures |RowsFrom(entries, sorted, candidates, k)| == k
    ensures forall i :: 0 <= i < k ==>
              RowsFrom(entries, sorted, candidates, k)[i] == Row(entries, sorted, candidates[i].value, i)
  {
    if k > 0 {
      RowsFromAll(entries, sorted, candidates, k - 1);
    }
  }

  lemma PlaceOf(candidates: seq<Option<Candidate>>, i: nat)
    requires NoNull(candidates) && i < |candidates|
    ensures var sorted := SortKeys(CandidateKeys(candidates));
            && |sorted| == |candidates| && Ordered(sorted)
            && 0 < Place(sorted, i) <= |sorted|
            && sorted[Place(sorted, i) - 1] == KeyOf(candidates[i].value, i)
  {
    var keys := CandidateKeys(candidates);
    SortIsSorted(keys);
    PlaceOfKey(keys, i);
  }

  lemma PlaceOfKey(keys: seq<Key>, i: nat)
    requires i < |keys| && forall j :: 0 <= j < |keys| ==> keys[j].index == j
    ensures var sorted := SortKeys(keys);
            0 < Place(sorted, i) <= |sorted| && sorted[Place(sorted, i) - 1] == keys[i]
  {
    var sorted := SortKeys(keys);
    SortIsSorted(keys);
    SortedDistinct(keys);
    assert keys[i] in multiset(sorted);
    var r :| 0 <= r < |sorted| && sorted[r] == keys[i];
    PlaceAt(sorted, r);
  }

  /** Without null candidates each row holds its own place. */
  lemma RankIsPlace(candidates: seq<Option<Candidate>>, i: nat)
    requires NoNull(candidates) && i < |candidates|
    ensures |Rows(candidates)| == |candidates|
    ensures var place := Place(SortKeys(CandidateKeys(candidates)), i);
            Rows(candidates)[i] == ImpactRow(candidates[i].value.rank, place, candidates[i].value.rank - place)
  {
    var entries := Entries(candidates, |candidates|);
    EntriesOfAll(candidates, |candidates|);
    assert KeysOf(entries) == CandidateKeys(candidates);
    RowsFromAll(entries, SortKeys(KeysOf(entries)), candidates, |candidates|);
    PlaceOf(candidates, i);
  }

  lemma OneRowEach(candidates: seq<Option<Candidate>>)
    requires NoNull(candidates)
    ensures |Rows(candidates)| == |candidates|
  {
    var entries := Entries(candidates, |candidates|);
    RowsFromAll(entries, SortKeys(KeysOf(entries)), candidates, |candidates|);
  }

  /** Estimated ranks order the candidates by score, then published rank, then position. */
  lemma RanksFollowOrder(candidates: seq<Option<Candidate>>, i: nat, j: nat)
    requires NoNull(candidates) && i < |candidates| && j < |candidates|
    ensures var rows := Rows(candidates);
            && |rows| == |candidates|
            && 1 <= rows[i].rankAfter <= |candidates|
            && (rows[i].rankAfter < rows[j].rankAfter <==>
                var a, b := candidates[i].value, candidates[j].value;
                || EstimateActiveScore(a) > EstimateActiveScore(b)
                || (EstimateActiveScore(a) == EstimateActiveScore(b)
                    && (a.rank < b.rank || (a.rank == b.rank && i < j))))
            && (rows[i].rankAfter == rows[j].rankAfter <==> i == j)
  {
    RankIsPlace(candidates, i);
    RankIsPlace(candidates, j);
    PlaceOf(candidates, i);
    PlaceOf(candidates, j);
  }

  lemma PlaceAt(sorted: seq<Key>, r: nat)
    requires DistinctPositions(sorted) && r < |sorted|
    ensures Place(sorted, sorted[r].index) == r + 1
  {
    var p := Place(sorted, sorted[r].index);
    assert p > 0 && sorted[p - 1].index == sorted[r].index;
  }

  lemma KeyAtPlace(keys: seq<Key>, r: nat) returns (i: nat)
    requires forall j :: 0 <= j < |keys| ==> keys[j].index == j
    requires r < |keys|
    ensures i < |keys| && Place(SortKeys(keys), i) == r + 1
  {
    SortIsSorted(keys);
    SortedDistinct(keys);
    PlaceAt(SortKeys(keys), r);
    assert SortKeys(keys)[r] in multiset(keys);
    i :| 0 <= i < |keys| && keys[i] == SortKeys(keys)[r];
  }

  /** Every rank from 1 to n is given to some candidate. */
  lemma RanksOnto(candidates: seq<Option<Candidate>>, rank: int) returns (i: nat)
    requires NoNull(candidates) && 1 <= rank <= |candidates|
    ensures i < |candidates| && |Rows(candidates)| == |candidates|
    ensures Rows(candidates)[i].rankAfter == rank
  {
    i := KeyAtPlace(CandidateKeys(candidates), rank - 1);
    RankIsPlace(candidates, i);
  }

  // ---------- Rank deltas ----------

  function SumBy<T>(f: T -> int, s: seq<T>): int {
    if s == [] then 0 else SumBy(f, s[..|s| - 1]) + f(s[|s| - 1])
  }

  lemma SumPrefix<T>(f: T -> int, s: seq<T>, k: nat)
    requires k < |s|
    ensures SumBy(f, s[..k + 1]) == SumBy(f, s[..k]) + f(s[k])
  {
    assert s[..k + 1][..k] == s[..k];
  }

  function Without<T>(s: seq<T>, j: nat): seq<T>
    requires j < |s|
  {
    s[..j] + s[j + 1..]
  }

  lemma {:induction false} SumWithout<T>(f: T -> int, s: seq<T>, j: nat)
    requires j < |s|
    ensures SumBy(f, s) == SumBy(f, Without(s, j)) + f(s[j])
  {
    var n := |s| - 1;
    if j == n {
      assert Without(s, j) == s[..n];
    } else {
      SumWithout(f, s[..n], j);
      assert Without(s, j)[..n - 1] == Without(s[..n], j);
    }
  }

  lemma MembersWithout<T>(s: seq<T>, j: nat)
    requires j < |s|
    ensures multiset(Without(s, j)) == multiset(s) - multiset{s[j]}
  {
    assert s == s[..j] + [s[j]] + s[j + 1..];
  }

  /** A sum does not depend on the order of its terms. */
  lemma {:induction false} SumRearranged<T>(f: T -> int, a: seq<T>, b: seq<T>)
    requires multiset(a) == multiset(b)
    ensures SumBy(f, a) == SumBy(f, b)
  {
    if a == [] {
      assert |multiset(b)| == 0;
    } else {
      var n := |a| - 1;
      assert a[n] in multiset(b);
      var j :| 0 <= j < |b| && b[j] == a[n];
      SumWithout(f, b, j);
      MembersWithout(b, j);
      MembersWithout(a, n);
      assert Without(a, n) == a[..n];
      SumRearranged(f, a[..n], Without(b, j));
    }
  }

  function PlaceBy(sorted: seq<Key>): Key -> int {
    (key: Key) => Place(sorted, key.index)
  }

  function Itself(): int -> int {
    (x: int) => x
  }

  function DeltaOf(): ImpactRow -> int {
    (row: ImpactRow) => row.rankDelta
  }

  function Ranks(n: nat): (r: seq<int>)
    ensures |r| == n
  {
    seq(n, i => i + 1)
  }

  function Published(candidates: seq<Option<Candidate>>): (r: seq<int>)
    requires NoNull(candidates)
    ensures |r| == |candidates|
  {
    seq(|candidates|, i requires 0 <= i < |candidates| => candidates[i].value.rank)
  }

  /** The sorted keys stand at places 1, 2, ... in turn. */
  lemma {:induction false} PlacesInTurn(sorted: seq<Key>, k: nat)
    requires DistinctPositions(sorted) && k <= |sorted|
    ensures SumBy(PlaceBy(sorted), sorted[..k]) == SumBy(Itself(), Ranks(k))
  {
    if k > 0 {
      PlacesInTurn(sorted, k - 1);
      SumPrefix(PlaceBy(sorted), sorted, k - 1);
      assert Ranks(k)[..k - 1] == Ranks(k - 1);
      PlaceAt(sorted, k - 1);
    }
  }

  lemma {:induction false} SumOfDeltas(candidates: seq<Option<Candidate>>, k: nat)
    requires NoNull(candidates) && k <= |candidates|
    ensures var sorted := SortKeys(CandidateKeys(candidates));
            |Rows(candidates)| == |candidates|
            && SumBy(DeltaOf(), Rows(candidates)[..k])
               == SumBy(Itself(), Published(candidates)[..k])
                  - SumBy(PlaceBy(sorted), CandidateKeys(candidates)[..k])
  {
    OneRowEach(candidates);
    if k > 0 {
      SumOfDeltas(candidates, k - 1);
      RankIsPlace(candidates, k - 1);
      SumPrefix(DeltaOf(), Rows(candidates), k - 1);
      SumPrefix(Itself(), Published(candidates), k - 1);
      SumPrefix(PlaceBy(SortKeys(CandidateKeys(candidates))), CandidateKeys(candidates), k - 1);
    }
  }

  lemma {:induction false} PlacesAddUp(keys: seq<Key>)
    requires forall i :: 0 <= i < |keys| ==> keys[i].index == i
    ensures SumBy(PlaceBy(SortKeys(keys)), keys) == SumBy(Itself(), Ranks(|keys|))
  {
    var sorted := SortKeys(keys);
    SortIsSorted(keys);
    SortedDistinct(keys);
    PlacesInTurn(sorted, |keys|);
    SumRearranged(PlaceBy(sorted), keys, sorted);
    assert sorted[..|keys|] == sorted;
  }

  lemma SumOfAllDeltas(candidates: seq<Option<Candidate>>)
    requires NoNull(candidates)
    ensures SumBy(DeltaOf(), Rows(candidates))
            == SumBy(Itself(), Published(candidates))
               - SumBy(PlaceBy(SortKeys(CandidateKeys(candidates))), CandidateKeys(candidates))
  {
    var n := |candidates|;
    OneRowEach(candidates);
    SumOfDeltas(candidates, n);
    assert Rows(candidates)[..n] == Rows(candidates);
    assert Published(candidates)[..n] == Published(candidates);
    assert CandidateKeys(candidates)[..n] == CandidateKeys(candidates);
  }

  /** When the published ranks are 1..n in any order, what some gain others lose. */
  lemma DeltasCancel(candidates: seq<Option<Candidate>>)
    requires NoNull(candidates) && multiset(Published(candidates)) == multiset(Ranks(|candidates|))
    ensures SumBy(DeltaOf(), Rows(candidates)) == 0
  {
    SumOfAllDeltas(candidates);
    PlacesAddUp(CandidateKeys(candidates));
    SumRearranged(Itself(), Published(candidates), Ranks(|candidates|));
  }

  lemma {:induction false} SortedDistinct(keys: seq<Key>)
    requires forall i :: 0 <= i < |keys| ==> keys[i].index == i
    ensures DistinctPositions(SortKeys(keys))
  {
    var sorted := SortKeys(keys);
    SortIsSorted(keys);
    forall i, j | 0 <= i < |sorted| && 0 <= j < |sorted| && i != j
      ensures sorted[i].index != sorted[j].index
    {
      assert sorted[i] in multiset(keys) && sorted[j] in multiset(keys);
      var a :| 0 <= a < |keys| && keys[a] == sorted[i];
      var b :| 0 <= b < |keys| && keys[b] == sorted[j];
      assert i < j ==> Before(sorted[i], sorted[j]);
      assert j < i ==> Before(sorted[j], sorted[i]);
    }
  }

  // ---------- Engine queue and impact review together ----------

  /** No momentum movement: the estimate is the clamped published score. */
  predicate Unmoved(c: Candidate) {
    EstimateActiveScore(c) == ClampUnit(c.score)
  }

  lemma ZeroShadowIsUnmoved(c: Candidate)
    requires c.contribution.Some? ==> c.contribution.value.shadow == 0.0
    ensures Unmoved(c)
  {
  }

  /** A queue as the ranking engine publishes it for these scores. */
  predicate PublishedQueue(candidates: seq<Option<Candidate>>, scores: seq<real>) {
    && NoNull(candidates) && |candidates| == |scores| == |Queue(scores)|
    && forall r :: 0 <= r < |candidates| ==>
         candidates[r].value.score == Queue(scores)[r].score && candidates[r].value.rank == r + 1
  }

  /** Keys that stand in order are sorted already, each at its own place. */
  lemma SortedStay(keys: seq<Key>, i: nat)
    requires Ordered(keys) && i < |keys| && forall j :: 0 <= j < |keys| ==> keys[j].index == j
    ensures Place(SortKeys(keys), i) == i + 1
  {
    SortIsSorted(keys);
    SortUnique(keys, SortKeys(keys));
    PlaceAt(keys, i);
  }

  lemma UnmovedOrder(candidates: seq<Option<Candidate>>, scores: seq<real>)
    requires PublishedQueue(candidates, scores)
    requires forall r :: 0 <= r < |candidates| ==> Unmoved(candidates[r].value)
    ensures Ordered(CandidateKeys(candidates))
  {
    var keys := CandidateKeys(candidates);
    SortIsSorted(QueueKeys(scores));
    forall r, s | 0 <= r < s < |keys|
      ensures Before(keys[r], keys[s])
    {
      assert Before(Queue(scores)[r], Queue(scores)[s]);
    }
  }

  /** On an engine queue without momentum movement the review moves nobody. */
  lemma UnmovedQueueStays(candidates: seq<Option<Candidate>>, scores: seq<real>, i: nat)
    requires PublishedQueue(candidates, scores) && i < |candidates|
    requires forall r :: 0 <= r < |candidates| ==> Unmoved(candidates[r].value)
    ensures |Rows(candidates)| == |candidates|
    ensures Rows(candidates)[i] == ImpactRow(i + 1, i + 1, 0)
  {
    UnmovedOrder(candidates, scores);
    SortedStay(CandidateKeys(candidates), i);
    RankIsPlace(candidates, i);
  }

  /** The place of candidate `k` among the candidates that are there. */
  function OwnPlace(candidates: seq<Option<Candidate>>, k: nat): nat
    requires k < |candidates|
  {
    Place(SortKeys(KeysOf(Entries(candidates, |candidates|))), |Entries(candidates, k)|)
  }

  /** The estimated rank in the row of candidate `k`. */
  function RankOf(candidates: seq<Option<Candidate>>, k: nat): int
    requires k < |candidates| && candidates[k].Some?
  {
    var entries := Entries(candidates, |candidates|);
    RankAfter(entries, SortKeys(KeysOf(entries)), candidates[k].value, k)
  }

  /** A candidate with the same joined symbol and strategy has the look-up position `k`. */
  predicate FindsSomebody(candidates: seq<Option<Candidate>>, k: nat)
    requires k < |candidates| && candidates[k].Some?
  {
    Names(Entries(candidates, |candidates|), (candidates[k].value.symbol, candidates[k].value.strategy, k))
  }

  lemma {:induction false} EntriesGrow(candidates: seq<Option<Candidate>>, k: nat, n: nat)
    requires k <= n <= |candidates|
    ensures Entries(candidates, k) <= Entries(candidates, n)
  {
    if k < n {
      EntriesGrow(candidates, k, n - 1);
    }
  }

  lemma {:induction false} NoNullBefore(candidates: seq<Option<Candidate>>, k: nat)
    requires k <= |candidates|
    ensures |Entries(candidates, k)| == k <==> forall j :: 0 <= j < k ==> candidates[j].Some?
  {
    if k > 0 {
      NoNullBefore(candidates, k - 1);
    }
  }

  /**
   With nulls among the candidates: one gets its own place exactly when no null
   stands before it, or when the look-up finds nobody and the published rank it
   falls back to happens to be that place.
   */
  lemma OwnPlaceIff(candidates: seq<Option<Candidate>>, k: nat)
    requires k < |candidates| && candidates[k].Some?
    ensures RankOf(candidates, k) == OwnPlace(candidates, k)
       <==> || (forall j :: 0 <= j < k ==> candidates[j].Some?)
            || (!FindsSomebody(candidates, k) && candidates[k].value.rank == OwnPlace(candidates, k))
  {
    var entries, p := Entries(candidates, |candidates|), |Entries(candidates, k)|;
    NoNullBefore(candidates, k);
    EntriesGrow(candidates, k + 1, |candidates|);
    assert entries[p].0 == Entries(candidates, k + 1)[p].0 == candidates[k].value;
    PlacesDiffer(entries, p, k);
  }

  lemma PlacesDiffer(entries: seq<(Candidate, Key)>, p: nat, k: nat)
    requires forall i :: 0 <= i < |entries| ==> entries[i].1.index == i
    requires p < |entries|
    ensures k < |entries| && k != p ==>
              Place(SortKeys(KeysOf(entries)), k) != Place(SortKeys(KeysOf(entries)), p)
  {
    if k < |entries| {
      EveryPositionPlaced(entries, p);
      EveryPositionPlaced(entries, k);
    }
  }

  /** With a null before it a candidate is looked up under a stranger's position. */
  lemma NullBreaksRanks()
    ensures var c := Candidate("SPY", "Trend", 5, 0.5, None);
            Rows([None, Some(c)]) == [ImpactRow(5, 5, 0)]
  {
    var c := Candidate("SPY", "Trend", 5, 0.5, None);
    var candidates := [None, Some(c)];
    assert Entries(candidates, 0) == [];
    assert Entries(candidates, 1) == [];
    assert Entries(candidates, 2) == [(c, Key(0.5, 5, 0))];
    var sorted := SortKeys(KeysOf(Entries(candidates, 2)));
    assert RowsFrom(Entries(candidates, 2), sorted, candidates, 1) == [];
  }
}
