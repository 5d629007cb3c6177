/**
 The end of a ranking run: the candidates are sorted by score, numbered in
 place, and shared out over the three lists of the response.
 */
module RankingQueue {
  import opened Wrappers
  import opened Ranking

  datatype Tier = TopCandidate | Watchlist | NoTrade

  class RankedCandidate {
    const symbol: string
    const strategy: string
    const status: Tier
    const score: real
    var rank: int

    constructor (symbol: string, strategy: string, status: Tier, score: real)
      ensures this.symbol == symbol && this.strategy == strategy && this.status == status
      ensures this.score == score && rank == 0
    {
      this.symbol, this.strategy, this.status, this.score := symbol, strategy, status, score;
      rank := 0;
    }
  }

  /** A candidate as it leaves the engine. */
  datatype Listed = Listed(symbol: string, strategy: string, status: Tier, score: real, rank: int)

  /** The summary of the response; the top count is taken after the cut. */
  datatype Counts = Counts(total: nat, top: nat, watchlist: nat, noTrade: nat)

  // ---------- Order ----------

  /** Every position once, by falling score, equal scores in their old order. */
  ghost predicate IsStableOrder(scores: seq<real>, order: seq<nat>) {
    && |order| == |scores|
    && (forall r :: 0 <= r < |order| ==> order[r] < |scores|)
    && (forall i :: 0 <= i < |scores| ==> i in order)
    && (forall r, s :: 0 <= r < s < |order| ==>
          scores[order[r]] > scores[order[s]] || (scores[order[r]] == scores[order[s]] && order[r] < order[s]))
  }

  function Order(scores: seq<real>): (order: seq<nat>)
    ensures |order| == |scores|
    ensures forall r :: 0 <= r < |order| ==> order[r] < |scores|
  {
    QueueKeysSorted(scores);
    seq(|scores|, r requires 0 <= r < |scores| => Queue(scores)[r].index)
  }

  lemma QueueKeysSorted(scores: seq<real>)
    ensures |Queue(scores)| == |scores| && Ordered(Queue(scores))
    ensures forall r :: 0 <= r < |scores| ==>
              Queue(scores)[r].index < |scores| && Queue(scores)[r] == QueueKeys(scores)[Queue(scores)[r].index]
  {
    var keys := QueueKeys(scores);
    SortIsSorted(keys);
    forall r | 0 <= r < |scores|
      ensures Queue(scores)[r].index < |scores| && Queue(scores)[r] == keys[Queue(scores)[r].index]
    {
      assert Queue(scores)[r] in multiset(keys);
      var i :| 0 <= i < |keys| && keys[i] == Queue(scores)[r];
    }
  }

  lemma OrderIsStable(scores: seq<real>)
    ensures IsStableOrder(scores, Order(scores))
  {
    var keys := QueueKeys(scores);
    QueueKeysSorted(scores);
    SortIsSorted(keys);
    forall i | 0 <= i < |scores|
      ensures i in Order(scores)
    {
      assert keys[i] in multiset(Queue(scores));
      var r :| 0 <= r < |scores| && Queue(scores)[r] == keys[i];
      assert Order(scores)[r] == i;
    }
    forall r, s | 0 <= r < s < |scores|
      ensures Before(Queue(scores)[r], Queue(scores)[s])
    {
    }
  }

  function KeysInOrder(scores: seq<real>, order: seq<nat>): (r: seq<Key>)
    requires forall r :: 0 <= r < |order| ==> order[r] < |scores|
    ensures |r| == |order|
  {
    seq(|order|, r requires 0 <= r < |order| => QueueKeys(scores)[order[r]])
  }

  /** There is one stable order, so the built-in sort yields it. */
  lemma StableOrderUnique(scores: seq<real>, a: seq<nat>, b: seq<nat>)
    requires IsStableOrder(scores, a) && IsStableOrder(scores, b)
    ensures a == b
  {
    var p, q := KeysInOrder(scores, a), KeysInOrder(scores, b);
    SameKeys(scores, a);
    SameKeys(scores, b);
    SortUnique(p, q);
    forall r | 0 <= r < |a|
      ensures a[r] == b[r]
    {
      assert p[r].index == a[r] && q[r].index == b[r];
    }
  }

  lemma SameKeys(scores: seq<real>, order: seq<nat>)
    requires IsStableOrder(scores, order)
    ensures Ordered(KeysInOrder(scores, order))
    ensures multiset(KeysInOrder(scores, order)) == multiset(QueueKeys(scores))
  {
    var p, keys := KeysInOrder(scores, order), QueueKeys(scores);
    forall k
      ensures multiset(p)[k] == multiset(keys)[k]
    {
      OnceAtMost(p, k);
      OnceAtMost(keys, k);
      if k in keys {
        var i :| 0 <= i < |keys| && keys[i] == k;
        assert i in order;
        var r: nat :| r < |order| && order[r] == i;
        assert p[r] == k;
      }
    }
  }

  lemma {:induction false} OnceAtMost(keys: seq<Key>, k: Key)
    requires DistinctPositions(keys)
    ensures multiset(keys)[k] == if k in keys then 1 else 0
  {
    if keys != [] {
      var n := |keys| - 1;
      assert keys == keys[..n] + [keys[n]];
      OnceAtMost(keys[..n], k);
    }
  }

  // ---------- The response ----------

  function Scores(output: seq<RankedCandidate>): (r: seq<real>)
    ensures |r| == |output|
  {
    seq(|output|, i requires 0 <= i < |output| => output[i].score)
  }

  function ListedAs(c: RankedCandidate, rank: int): Listed {
    Listed(c.symbol, c.strategy, c.status, c.score, rank)
  }

  /** The candidates as sorted. */
  function Arranged(output: seq<RankedCandidate>): (sorted: seq<RankedCandidate>)
    ensures |sorted| == |output|
  {
    seq(|output|, r requires 0 <= r < |output| => output[Order(Scores(output))[r]])
  }

  function QueueOf(output: seq<RankedCandidate>): (queue: seq<Listed>)
    ensures |queue| == |output|
  {
    seq(|output|, r requires 0 <= r < |output| => ListedAs(Arranged(output)[r], r + 1))
  }

  /** `[item for item in queue if item.status == status]`. */
  function Bucket(queue: seq<Listed>, status: Tier): seq<Listed> {
    if queue == [] then []
    else
      Bucket(queue[..|queue| - 1], status)
      + if queue[|queue| - 1].status == status then [queue[|queue| - 1]] else []
  }

  /** Python's `s[:n]`: a negative bound counts from the end. */
  function Cut<T>(s: seq<T>, n: int): seq<T> {
    if n >= 0 then (if n <= |s| then s[..n] else s)
    else if |s| + n >= 0 then s[..|s| + n]
    else []
  }

  /** Never more than the list, from its front; a negative bound drops as many from its end. */
  lemma CutMeaning<T>(s: seq<T>, n: int)
    ensures Cut(s, n) <= s
    ensures n >= |s| ==> Cut(s, n) == s
    ensures 0 <= n <= |s| ==> |Cut(s, n)| == n
    ensures -|s| <= n < 0 ==> |Cut(s, n)| == |s| + n
    ensures n < -|s| ==> Cut(s, n) == []
  {
  }

  predicate AllDifferent(output: seq<RankedCandidate>) {
    forall i, j :: 0 <= i < |output| && 0 <= j < |output| && i != j ==> output[i] != output[j]
  }

  lemma ArrangedDiffer(output: seq<RankedCandidate>)
    requires AllDifferent(output)
    ensures AllDifferent(Arranged(output))
    ensures forall c :: c in Arranged(output) ==> c in output
  {
    var order := Order(Scores(output));
    OrderIsStable(Scores(output));
    forall r, s | 0 <= r < |output| && 0 <= s < |output| && r != s
      ensures Arranged(output)[r] != Arranged(output)[s]
    {
      OrderDistinct(Scores(output), order, r, s);
    }
  }

  lemma OrderDistinct(scores: seq<real>, order: seq<nat>, r: nat, s: nat)
    requires IsStableOrder(scores, order) && r < |order| && s < |order| && r != s
    ensures order[r] != order[s]
  {
    if order[r] == order[s] {
      if r < s {
        assert false;
      } else {
        assert false;
      }
    }
  }

  method RankCandidates(output: seq<RankedCandidate>, topN: int)
    returns (queue: seq<Listed>, top: seq<Listed>, watchlist: seq<Listed>, noTrade: seq<Listed>, counts: Counts)
    requires AllDifferent(output)
    modifies output
    ensures queue == QueueOf(output)
    ensures forall r :: 0 <= r < |output| ==>
              && queue[r].symbol == Arranged(output)[r].symbol && queue[r].strategy == Arranged(output)[r].strategy
              && queue[r].status == Arranged(output)[r].status && queue[r].score == Arranged(output)[r].score
              && queue[r].rank == r + 1
    ensures forall r :: 0 <= r < |output| ==> Arranged(output)[r].rank == r + 1
    ensures top == Cut(Bucket(queue, TopCandidate), topN)
    ensures watchlist == Bucket(queue, Watchlist) && noTrade == Bucket(queue, NoTrade)
    ensures counts == Counts(|queue|, |top|, |watchlist|, |noTrade|)
  {
    ArrangedDiffer(output);
    var sorted := Arranged(output);
    assert forall r :: 0 <= r < |sorted| ==> sorted[r] in output;
    queue := Number(sorted);
    top := Select(queue, TopCandidate);
    top := Cut(top, topN);
    watchlist := Select(queue, Watchlist);
    noTrade := Select(queue, NoTrade);
    counts := Counts(|queue|, |top|, |watchlist|, |noTrade|);
  }

  method Number(sorted: seq<RankedCandidate>) returns (queue: seq<Listed>)
    requires AllDifferent(sorted)
    modifies sorted
    ensures |queue| == |sorted|
    ensures forall r :: 0 <= r < |sorted| ==> sorted[r].rank == r + 1 && queue[r] == ListedAs(sorted[r], r + 1)
  {
    for idx := 0 to |sorted|
      invariant forall r :: 0 <= r < idx ==> sorted[r].rank == r + 1
    {
      sorted[idx].rank := idx + 1;
    }
    queue := [];
    for idx := 0 to |sorted|
      invariant |queue| == idx
      invariant forall r :: 0 <= r < idx ==> queue[r] == ListedAs(sorted[r], r + 1)
      invariant forall r :: 0 <= r < |sorted| ==> sorted[r].rank == r + 1
    {
      queue := queue + [ListedAs(sorted[idx], sorted[idx].rank)];
    }
  }

  method Select(queue: seq<Listed>, status: Tier) returns (bucket: seq<Listed>)
    ensures bucket == Bucket(queue, status)
  {
    bucket := [];
    for i := 0 to |queue|
      invariant bucket == Bucket(queue[..i], status)
    {
      assert queue[..i + 1][..i] == queue[..i];
      if queue[i].status == status {
        bucket := bucket + [queue[i]];
      }
    }
    assert queue[..|queue|] == queue;
  }

  // ---------- What the lists hold ----------

  /** Ranks count 1, 2, ... and scores never rise. */
  predicate IsQueue(queue: seq<Listed>) {
    && (forall r :: 0 <= r < |queue| ==> queue[r].rank == r + 1)
    && (forall r, s :: 0 <= r < s < |queue| ==> queue[r].score >= queue[s].score)
  }

  lemma QueueIsRanked(output: seq<RankedCandidate>)
    ensures IsQueue(QueueOf(output))
  {
    var scores := Scores(output);
    OrderIsStable(scores);
    forall r, s | 0 <= r < s < |output|
      ensures QueueOf(output)[r].score >= QueueOf(output)[s].score
    {
      assert scores[Order(scores)[r]] >= scores[Order(scores)[s]];
      assert Arranged(output)[r].score == scores[Order(scores)[r]];
      assert Arranged(output)[s].score == scores[Order(scores)[s]];
    }
  }

  /** Best first: a smaller rank comes earlier and does not score less. */
  predicate BestFirst(list: seq<Listed>) {
    forall i, j :: 0 <= i < j < |list| ==> list[i].rank < list[j].rank && list[i].score >= list[j].score
  }

  lemma {:induction false} BucketMeaning(queue: seq<Listed>, status: Tier)
    requires IsQueue(queue)
    ensures BestFirst(Bucket(queue, status))
    ensures forall c :: c in Bucket(queue, status) <==> c in queue && c.status == status
  {
    if queue != [] {
      var n := |queue| - 1;
      BucketMeaning(queue[..n], status);
      assert queue == queue[..n] + [queue[n]];
    }
  }

  lemma {:induction false} BucketCount(queue: seq<Listed>, status: Tier, c: Listed)
    ensures multiset(Bucket(queue, status))[c] == if c.status == status then multiset(queue)[c] else 0
  {
    if queue != [] {
      var n := |queue| - 1;
      BucketCount(queue[..n], status, c);
      assert queue == queue[..n] + [queue[n]];
    }
  }

  /** Every candidate of the queue is in exactly one bucket, as often as in the queue. */
  lemma BucketsShareOut(queue: seq<Listed>)
    ensures multiset(Bucket(queue, TopCandidate)) + multiset(Bucket(queue, Watchlist))
            + multiset(Bucket(queue, NoTrade)) == multiset(queue)
  {
    var top, watch, none := Bucket(queue, TopCandidate), Bucket(queue, Watchlist), Bucket(queue, NoTrade);
    forall c
      ensures (multiset(top) + multiset(watch) + multiset(none))[c] == multiset(queue)[c]
    {
      BucketCount(queue, TopCandidate, c);
      BucketCount(queue, Watchlist, c);
      BucketCount(queue, NoTrade, c);
    }
  }

  /** What the cut shows is better than what it hides. */
  lemma CutKeepsBest(queue: seq<Listed>, topN: int, shown: Listed, hidden: Listed)
    requires IsQueue(queue)
    requires shown in Cut(Bucket(queue, TopCandidate), topN)
    requires hidden in Bucket(queue, TopCandidate) && hidden !in Cut(Bucket(queue, TopCandidate), topN)
    ensures shown.rank < hidden.rank && shown.score >= hidden.score
    ensures topN >= 0 ==> |Cut(Bucket(queue, TopCandidate), topN)| == topN
  {
    var all := Bucket(queue, TopCandidate);
    BucketMeaning(queue, TopCandidate);
    var i :| 0 <= i < |Cut(all, topN)| && Cut(all, topN)[i] == shown;
    var j :| 0 <= j < |all| && all[j] == hidden;
    NotInPrefix(Cut(all, topN), all, j);
    assert all[i] == shown;
  }

  lemma NotInPrefix<T>(prefix: seq<T>, all: seq<T>, j: nat)
    requires prefix <= all && j < |all| && all[j] !in prefix
    ensures j >= |prefix|
  {
    assert forall i :: 0 <= i < |prefix| ==> prefix[i] == all[i];
  }

  // ---------- The queue under review ----------

  /** The candidates of a review, one for every line of a queue. */
  ghost predicate Reviews(candidates: seq<Option<Candidate>>, queue: seq<Listed>) {
    && NoNull(candidates) && |candidates| == |queue|
    && forall r :: 0 <= r < |queue| ==>
         && candidates[r].value.symbol == queue[r].symbol && candidates[r].value.strategy == queue[r].strategy
         && candidates[r].value.rank == queue[r].rank && candidates[r].value.score == queue[r].score
  }

  predicate NoShadow(c: Candidate) {
    c.contribution.Some? ==> c.contribution.value.shadow == 0.0
  }

  lemma ReviewedQueue(output: seq<RankedCandidate>, candidates: seq<Option<Candidate>>)
    requires Reviews(candidates, QueueOf(output))
    ensures PublishedQueue(candidates, Scores(output))
  {
    var scores := Scores(output);
    QueueKeysSorted(scores);
    forall r | 0 <= r < |candidates|
      ensures candidates[r].value.score == Queue(scores)[r].score && candidates[r].value.rank == r + 1
    {
      assert QueueOf(output)[r] == ListedAs(Arranged(output)[r], r + 1);
      var i := Order(scores)[r];
      assert i == Queue(scores)[r].index && Queue(scores)[r] == QueueKeys(scores)[i];
      assert Arranged(output)[r] == output[i] && scores[i] == output[i].score;
    }
  }

  /** A queue from the engine, reviewed with all shadow contributions zero: nobody moves. */
  lemma EngineQueueStays(output: seq<RankedCandidate>, candidates: seq<Option<Candidate>>, i: nat)
    requires Reviews(candidates, QueueOf(output)) && i < |candidates|
    requires forall r :: 0 <= r < |candidates| ==> NoShadow(candidates[r].value)
    ensures |Rows(candidates)| == |candidates|
    ensures Rows(candidates)[i] == ImpactRow(i + 1, i + 1, 0)
  {
    ReviewedQueue(output, candidates);
    forall r | 0 <= r < |candidates|
      ensures Unmoved(candidates[r].value)
    {
      assert NoShadow(candidates[r].value);
      ZeroShadowIsUnmoved(candidates[r].value);
    }
    UnmovedQueueStays(candidates, Scores(output), i);
  }
}
