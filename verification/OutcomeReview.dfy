/**
 The outcome review: default rows for the candidates of a snapshot, and
 re-hydration of the tags and notes an operator gave earlier.
 */
module OutcomeReview {
  import Sorting
  import opened Sequences
  import opened Wrappers
  import opened OrderedMap
  import opened TextKeys
  import opened NoteSanitizer

  datatype Tag = Worked | Missed | TooAggressive | GoodWarning | FalseWarning | WatchlistOnly
               | NeedsTosParityCheck | Ignored | Unclear

  datatype Candidate = Candidate(symbol: string, strategy: string, rank: int, reasonCodes: seq<string>,
                                 tradeWarnings: seq<string>, caveats: seq<string>)

  /** A list of the snapshot; it may be missing, and so may its members. */
  type View = Option<seq<Option<Candidate>>>

  datatype Snapshot = Snapshot(top: View, tradeWarning: View, operationalCaveat: View)

  /** A row of the review. */
  datatype Outcome = Outcome(candidate: Candidate, tag: Tag, note: string)

  /** A row as it comes back from storage: the tag is None when it is not one of the nine. */
  datatype Stored = Stored(symbol: string, strategy: string, rank: int, tag: Option<Tag>, note: Option<string>)

  // ---------- Keys ----------

  function KeyOfCandidate(c: Candidate): string {
    KeyOf(c.symbol, c.strategy, c.rank)
  }

  /** A candidate together with its key. */
  type Keyed = Entry<Candidate>

  function WithKeys(s: seq<Candidate>): (r: seq<Keyed>)
    ensures |r| == |s|
  {
    seq(|s|, i requires 0 <= i < |s| => Entry(KeyOfCandidate(s[i]), s[i]))
  }

  // ---------- Default rows ----------

  /** The candidates whose key has not come up before. */
  function KeepFirst(s: seq<Keyed>): seq<Keyed> {
    if s == [] then []
    else
      var before, last := KeepFirst(s[..|s| - 1]), s[|s| - 1];
      if last.key in Keys(before) then before else before + [last]
  }

  /** How symbols compare: a total order up to equivalence, standing for `localeCompare`. */
  ghost predicate IsCollation(atMost: (string, string) -> bool) {
    && (forall a, b :: atMost(a, b) || atMost(b, a))
    && (forall a, b, c :: atMost(a, b) && atMost(b, c) ==> atMost(a, c))
  }

  predicate InOrder(atMost: (string, string) -> bool, a: Candidate, b: Candidate) {
    a.rank < b.rank || (a.rank == b.rank && atMost(a.symbol, b.symbol))
  }

  /** The comparator of the sort, which is stable. */
  function ByRankThenSymbol(atMost: (string, string) -> bool): (Keyed, Keyed) -> bool {
    (a: Keyed, b: Keyed) => InOrder(atMost, a.value, b.value)
  }

  function SortRows(atMost: (string, string) -> bool, s: seq<Keyed>): seq<Keyed> {
    Sorting.Sort(ByRankThenSymbol(atMost), s)
  }

  function Views(snapshot: Snapshot): seq<View> {
    [snapshot.top, snapshot.tradeWarning, snapshot.operationalCaveat]
  }

  /** The members of the first `k` views, one view after the other. */
  function Members(views: seq<View>, k: nat): seq<Option<Candidate>>
    requires k <= |views|
  {
    if k == 0 then []
    else Members(views, k - 1) + if views[k - 1].Some? then views[k - 1].value else []
  }

  /** The members that are there. */
  function Present(members: seq<Option<Candidate>>): seq<Candidate> {
    if members == [] then []
    else
      match members[|members| - 1]
      case None => Present(members[..|members| - 1])
      case Some(c) => Present(members[..|members| - 1]) + [c]
  }

  function Buckets(snapshot: Snapshot): seq<Candidate> {
    Present(Members(Views(snapshot), |Views(snapshot)|))
  }

  function DefaultOf(c: Candidate): Outcome {
    Outcome(c, Unclear, [])
  }

  function Merged(members: seq<Option<Candidate>>): seq<Keyed> {
    KeepFirst(WithKeys(Present(members)))
  }

  function Kept(snapshot: Snapshot): seq<Keyed> {
    Merged(Members(Views(snapshot), |Views(snapshot)|))
  }

  function DefaultCandidates(atMost: (string, string) -> bool, snapshot: Option<Snapshot>): seq<Keyed> {
    match snapshot
    case None => []
    case Some(s) => SortRows(atMost, Kept(s))
  }

  function Defaults(atMost: (string, string) -> bool, snapshot: Option<Snapshot>): (r: seq<Outcome>) {
    DefaultsOf(DefaultCandidates(atMost, snapshot))
  }

  function DefaultsOf(rows: seq<Keyed>): (r: seq<Outcome>)
    ensures |r| == |rows|
  {
    seq(|rows|, i requires 0 <= i < |rows| => DefaultOf(rows[i].value))
  }

  method CandidateOutcomeDefaults(atMost: (string, string) -> bool, snapshot: Option<Snapshot>)
    returns (r: seq<Outcome>)
    ensures r == Defaults(atMost, snapshot)
    ensures snapshot.None? ==> r == []
    ensures forall i :: 0 <= i < |r| ==> r[i].tag == Unclear && r[i].note == []
  {
    if snapshot.None? {
      return [];
    }
    var merged := MergeBuckets(Views(snapshot.value));
    r := DefaultsOf(SortRows(atMost, merged));
  }

  /** The loop over the views: `seen` holds the keys, `merged` the rows. */
  method MergeBuckets(views: seq<View>) returns (merged: seq<Keyed>)
    ensures merged == Merged(Members(views, |views|))
  {
    var seen: set<string> := {};
    merged := [];
    ghost var members: seq<Option<Candidate>> := [];
    for k := 0 to |views|
      invariant members == Members(views, k)
      invariant merged == Merged(members)
      invariant forall x :: x in seen <==> x in Keys(merged)
    {
      if views[k].None? {
        assert members + [] == members;
        continue;
      }
      seen, merged := MergeBucket(views[k].value, seen, merged, members);
      members := members + views[k].value;
    }
  }

  method MergeBucket(bucket: seq<Option<Candidate>>, known: set<string>, rows: seq<Keyed>,
                     ghost before: seq<Option<Candidate>>)
    returns (seen: set<string>, merged: seq<Keyed>)
    requires rows == Merged(before)
    requires forall x :: x in known <==> x in Keys(rows)
    ensures merged == Merged(before + bucket)
    ensures forall x :: x in seen <==> x in Keys(merged)
  {
    seen, merged := known, rows;
    assert before + bucket[..0] == before;
    for k := 0 to |bucket|
      invariant merged == Merged(before + bucket[..k])
      invariant forall x :: x in seen <==> x in Keys(merged)
    {
      MemberStep(before, bucket, k);
      if bucket[k].None? {
        continue;
      }
      var key := KeyOfCandidate(bucket[k].value);
      if key in seen {
        continue;
      }
      KeysSnoc(merged, Entry(key, bucket[k].value));
      seen := seen + {key};
      merged := merged + [Entry(key, bucket[k].value)];
    }
    assert bucket[..|bucket|] == bucket;
  }

  lemma {:induction false} MemberStep(before: seq<Option<Candidate>>, bucket: seq<Option<Candidate>>, k: nat)
    requires k < |bucket|
    ensures var rows := Merged(before + bucket[..k]);
            Merged(before + bucket[..k + 1]) ==
            match bucket[k]
            case None => rows
            case Some(c) => if KeyOfCandidate(c) in Keys(rows) then rows else rows + [Entry(KeyOfCandidate(c), c)]
  {
    var members := before + bucket[..k];
    assert before + bucket[..k + 1] == members + [bucket[k]];
    PresentSnoc(members, bucket[k]);
    if bucket[k].Some? {
      var all, c := WithKeys(Present(members)), bucket[k].value;
      assert WithKeys(Present(members) + [c]) == all + [Entry(KeyOfCandidate(c), c)];
      KeepFirstSnoc(all, Entry(KeyOfCandidate(c), c));
    }
  }

  lemma PresentSnoc(members: seq<Option<Candidate>>, m: Option<Candidate>)
    ensures Present(members + [m]) == Present(members) + if m.Some? then [m.value] else []
  {
    assert (members + [m])[..|members|] == members;
  }

  lemma KeepFirstSnoc(s: seq<Keyed>, c: Keyed)
    ensures KeepFirst(s + [c]) == if c.key in Keys(KeepFirst(s)) then KeepFirst(s) else KeepFirst(s) + [c]
  {
    assert (s + [c])[..|s|] == s;
  }

  // ---------- What the default rows are ----------

  lemma KeysSnoc(s: seq<Keyed>, c: Keyed)
    ensures Keys(s + [c]) == Keys(s) + [c.key]
  {
  }

  lemma {:induction false} KeepFirstKeys(s: seq<Keyed>)
    ensures Keys(KeepFirst(s)) == FirstSeen(Keys(s))
  {
    if s != [] {
      var front, last := s[..|s| - 1], s[|s| - 1];
      KeepFirstKeys(front);
      KeysSnoc(KeepFirst(front), last);
      assert Keys(s)[..|front|] == Keys(front);
    }
  }

  /** The place at which a key is first listed. */
  function Arrival(all: seq<Keyed>): Keyed -> nat {
    (c: Keyed) => IndexOf(Keys(all), c.key)
  }

  lemma IndexOfFirst(keys: seq<string>, i: nat)
    requires i < |keys| && forall j :: 0 <= j < i ==> keys[j] != keys[i]
    ensures IndexOf(keys, keys[i]) == i
  {
  }

  lemma ArrivalSnoc(front: seq<Keyed>, last: Keyed, c: Keyed)
    ensures c.key in Keys(front) ==> Arrival(front + [last])(c) == Arrival(front)(c)
    ensures last.key !in Keys(front) ==> Arrival(front + [last])(last) == |front|
    ensures c.key in Keys(front) ==> Find(front + [last], c.key) == Find(front, c.key)
    ensures last.key !in Keys(front) ==> Find(front + [last], last.key) == Some(last.value)
  {
    var keys := Keys(front);
    assert Keys(front + [last]) == keys + [last.key];
    if c.key in keys {
      IndexOfAppend(keys, last.key, c.key);
    }
    if last.key !in keys {
      forall j | 0 <= j < |front|
        ensures (keys + [last.key])[j] != last.key
      {
        assert keys[j] in keys;
      }
      IndexOfFirst(keys + [last.key], |front|);
    }
  }

  /** A kept row is the first one listed under its key... */
  lemma {:induction false} KeptIsFirst(s: seq<Keyed>, c: Keyed)
    requires c in KeepFirst(s)
    ensures c in s && Find(s, c.key) == Some(c.value)
  {
    var front, last := s[..|s| - 1], s[|s| - 1];
    assert s == front + [last];
    KeepFirstKeys(front);
    ArrivalSnoc(front, last, c);
    if c in KeepFirst(front) {
      KeptIsFirst(front, c);
      KeyListed(front, c);
    }
  }

  lemma KeyListed(s: seq<Keyed>, c: Keyed)
    requires c in s
    ensures c.key in Keys(s)
  {
    var i :| 0 <= i < |s| && s[i] == c;
    assert Keys(s)[i] == c.key;
  }

  /** ...and every first one is kept. */
  lemma FirstIsKept(s: seq<Keyed>, c: Keyed)
    requires c in s && Find(s, c.key) == Some(c.value)
    ensures c in KeepFirst(s)
  {
    KeyListed(s, c);
    KeepFirstKeys(s);
    var i :| 0 <= i < |KeepFirst(s)| && Keys(KeepFirst(s))[i] == c.key;
    KeptIsFirst(s, KeepFirst(s)[i]);
  }

  /** Kept rows stand in the order of their first listing. */
  lemma {:induction false} KeptInOrder(s: seq<Keyed>, i: nat, j: nat)
    requires i < j < |KeepFirst(s)|
    ensures Arrival(s)(KeepFirst(s)[i]) < Arrival(s)(KeepFirst(s)[j])
  {
    var front, last := s[..|s| - 1], s[|s| - 1];
    assert s == front + [last];
    var before := KeepFirst(front);
    KeepFirstKeys(front);
    KeptIsFirst(front, before[i]);
    KeyListed(front, before[i]);
    ArrivalSnoc(front, last, before[i]);
    if j < |before| {
      KeptIsFirst(front, before[j]);
      KeyListed(front, before[j]);
      ArrivalSnoc(front, last, before[j]);
      KeptInOrder(front, i, j);
    }
  }

  // ---------- Order ----------

  /** By rank, then symbol, then first listing. */
  predicate Precedes(atMost: (string, string) -> bool, at: Keyed -> nat, a: Keyed, b: Keyed) {
    InOrder(atMost, a.value, b.value) && (InOrder(atMost, b.value, a.value) ==> at(a) < at(b))
  }

  ghost predicate Ordered(atMost: (string, string) -> bool, at: Keyed -> nat, s: seq<Keyed>) {
    forall i, j :: 0 <= i < j < |s| ==> Precedes(atMost, at, s[i], s[j])
  }

  function PrecedesBy(atMost: (string, string) -> bool, at: Keyed -> nat): (Keyed, Keyed) -> bool {
    (a: Keyed, b: Keyed) => Precedes(atMost, at, a, b)
  }

  lemma PrecedesIsStrict(atMost: (string, string) -> bool, at: Keyed -> nat)
    requires IsCollation(atMost)
    ensures Sorting.StrictOrder(PrecedesBy(atMost, at))
  {
  }

  lemma SortMembers(atMost: (string, string) -> bool, s: seq<Keyed>)
    ensures multiset(SortRows(atMost, s)) == multiset(s)
  {
    Sorting.SortMembers(ByRankThenSymbol(atMost), s);
  }

  lemma SortOrders(atMost: (string, string) -> bool, at: Keyed -> nat, s: seq<Keyed>)
    requires IsCollation(atMost) && forall i, j :: 0 <= i < j < |s| ==> at(s[i]) < at(s[j])
    ensures Ordered(atMost, at, SortRows(atMost, s))
  {
    var before := PrecedesBy(atMost, at);
    PrecedesIsStrict(atMost, at);
    forall i, j | 0 <= i < j < |s|
      ensures Sorting.Decides(ByRankThenSymbol(atMost), before, s[i], s[j])
    {
      assert at(s[i]) < at(s[j]);
    }
    Sorting.SortOrdered(ByRankThenSymbol(atMost), before, s);
    IsOrdered(atMost, at, SortRows(atMost, s));
  }

  lemma IsOrdered(atMost: (string, string) -> bool, at: Keyed -> nat, s: seq<Keyed>)
    ensures Ordered(atMost, at, s) <==> Sorting.Ordered(PrecedesBy(atMost, at), s)
  {
  }

  /** Rows have one such order. */
  lemma OrderUnique(atMost: (string, string) -> bool, at: Keyed -> nat, a: seq<Keyed>, b: seq<Keyed>)
    requires IsCollation(atMost) && Ordered(atMost, at, a) && Ordered(atMost, at, b)
    requires forall c :: c in a <==> c in b
    ensures a == b
  {
    PrecedesIsStrict(atMost, at);
    IsOrdered(atMost, at, a);
    IsOrdered(atMost, at, b);
    Sorting.OrderUnique(PrecedesBy(atMost, at), a, b);
  }

  /** The members of a list with distinct keys occur once. */
  lemma {:induction false} DistinctOnce(s: seq<Keyed>, c: Keyed)
    requires Unique(s)
    ensures multiset(s)[c] <= 1
  {
    if s != [] {
      var front, last := s[..|s| - 1], s[|s| - 1];
      assert s == front + [last];
      assert Keys(front) == Keys(s)[..|front|];
      DistinctOnce(front, c);
      forall i | 0 <= i < |front|
        ensures front[i] != last
      {
        assert Keys(s)[i] != Keys(s)[|front|];
      }
      assert multiset(front)[last] == 0;
    }
  }

  lemma RearrangedUnique(a: seq<Keyed>, b: seq<Keyed>)
    requires Unique(a) && multiset(a) == multiset(b)
    ensures Unique(b)
  {
    forall i, j | 0 <= i < j < |b|
      ensures Keys(b)[i] != Keys(b)[j]
    {
      assert b[i] in multiset(a) && b[j] in multiset(a);
      var x :| 0 <= x < |a| && a[x] == b[i];
      var y :| 0 <= y < |a| && a[y] == b[j];
      if x == y {
        DistinctOnce(a, b[i]);
        TwiceCounted(b, i, j);
        assert false;
      } else if x < y {
        assert Keys(a)[x] != Keys(a)[y];
      } else {
        assert Keys(a)[y] != Keys(a)[x];
      }
    }
  }

  lemma TwiceCounted(b: seq<Keyed>, i: nat, j: nat)
    requires i < j < |b| && b[i] == b[j]
    ensures multiset(b)[b[i]] >= 2
  {
    assert b == b[..j] + [b[j]] + b[j + 1..];
    assert b[i] in b[..j];
  }

  lemma SameKeys(a: seq<Keyed>, b: seq<Keyed>, key: string)
    requires multiset(a) == multiset(b)
    ensures key in Keys(a) <==> key in Keys(b)
  {
    if i :| 0 <= i < |a| && Keys(a)[i] == key {
      assert a[i] in multiset(b);
      var j :| 0 <= j < |b| && b[j] == a[i];
      assert Keys(b)[j] == key;
    }
    if i :| 0 <= i < |b| && Keys(b)[i] == key {
      assert b[i] in multiset(a);
      var j :| 0 <= j < |a| && a[j] == b[i];
      assert Keys(a)[j] == key;
    }
  }

  /** The first one listed under every key, by rank, then symbol, then first listing. */
  ghost predicate AreDefaults(atMost: (string, string) -> bool, all: seq<Keyed>, rows: seq<Keyed>) {
    && (forall c :: c in rows <==> c in all && Find(all, c.key) == Some(c.value))
    && Ordered(atMost, Arrival(all), rows)
  }

  /** The default rows are the one list that fits that description. */
  lemma {:induction false} DefaultsIff(atMost: (string, string) -> bool, s: Snapshot, rows: seq<Keyed>)
    requires IsCollation(atMost)
    ensures AreDefaults(atMost, WithKeys(Buckets(s)), rows) <==> rows == DefaultCandidates(atMost, Some(s))
  {
    var all, kept := WithKeys(Buckets(s)), Kept(s);
    var defaults := DefaultCandidates(atMost, Some(s));
    forall i, j | 0 <= i < j < |kept|
      ensures Arrival(all)(kept[i]) < Arrival(all)(kept[j])
    {
      KeptInOrder(all, i, j);
    }
    SortOrders(atMost, Arrival(all), kept);
    forall c
      ensures c in defaults <==> c in all && Find(all, c.key) == Some(c.value)
    {
      DefaultIsFirst(atMost, s, c);
    }
    if AreDefaults(atMost, all, rows) {
      OrderUnique(atMost, Arrival(all), rows, defaults);
    }
  }

  lemma DefaultIsFirst(atMost: (string, string) -> bool, s: Snapshot, c: Keyed)
    ensures var all := WithKeys(Buckets(s));
            c in DefaultCandidates(atMost, Some(s)) <==> c in all && Find(all, c.key) == Some(c.value)
  {
    var all := WithKeys(Buckets(s));
    SortMembers(atMost, Kept(s));
    assert c in DefaultCandidates(atMost, Some(s)) <==> c in multiset(Kept(s));
    if c in Kept(s) {
      KeptIsFirst(all, c);
    }
    if c in all && Find(all, c.key) == Some(c.value) {
      FirstIsKept(all, c);
    }
  }

  /** They have distinct keys and cover exactly the keys of the three views. */
  lemma DefaultsMeaning(atMost: (string, string) -> bool, s: Snapshot)
    ensures var rows, all := DefaultCandidates(atMost, Some(s)), WithKeys(Buckets(s));
            Unique(rows) && forall key :: key in Keys(rows) <==> key in Keys(all)
  {
    var all := WithKeys(Buckets(s));
    var kept := Kept(s);
    var rows := DefaultCandidates(atMost, Some(s));
    KeepFirstKeys(all);
    FirstSeenDistinct(Keys(all));
    SortMembers(atMost, kept);
    RearrangedUnique(kept, rows);
    forall key
      ensures key in Keys(rows) <==> key in Keys(all)
    {
      SameKeys(kept, rows, key);
    }
  }

  // ---------- The rows, told from the three views ----------

  function ItemsOf(view: View): seq<Option<Candidate>> {
    if view.Some? then view.value else []
  }

  predicate HasKey(m: Option<Candidate>, key: string) {
    m.Some? && KeyOfCandidate(m.value) == key
  }

  predicate NoneHas(items: seq<Option<Candidate>>, key: string) {
    forall i :: 0 <= i < |items| ==> !HasKey(items[i], key)
  }

  /** No member of the view has the key. */
  predicate Lacks(view: View, key: string) {
    view.Some? ==> NoneHas(view.value, key)
  }

  predicate FirstAt(items: seq<Option<Candidate>>, key: string, c: Candidate, i: nat)
    requires i < |items|
  {
    items[i] == Some(c) && HasKey(items[i], key) && NoneHas(items[..i], key)
  }

  predicate IsFirst(items: seq<Option<Candidate>>, key: string, c: Candidate) {
    exists i :: 0 <= i < |items| && FirstAt(items, key, c, i)
  }

  /** `c` is the first member of the view with the key. */
  predicate FirstOf(view: View, key: string, c: Candidate) {
    view.Some? && IsFirst(view.value, key, c)
  }

  function FirstWith(items: seq<Option<Candidate>>, key: string): Option<Candidate> {
    if items == [] then None
    else
      var before, last := FirstWith(items[..|items| - 1], key), items[|items| - 1];
      if before.Some? then before else if HasKey(last, key) then last else None
  }

  lemma FirstStays(items: seq<Option<Candidate>>, n: nat, key: string, c: Candidate)
    requires n <= |items| && IsFirst(items[..n], key, c)
    ensures IsFirst(items, key, c)
  {
    var i :| 0 <= i < n && FirstAt(items[..n], key, c, i);
    assert items[..n][..i] == items[..i];
    assert FirstAt(items, key, c, i);
  }

  lemma FirstSnoc(items: seq<Option<Candidate>>, key: string, c: Candidate)
    requires items != []
    ensures var n := |items| - 1;
            IsFirst(items, key, c)
            <==> IsFirst(items[..n], key, c) || (NoneHas(items[..n], key) && FirstAt(items, key, c, n))
  {
    var n := |items| - 1;
    if i :| 0 <= i < |items| && FirstAt(items, key, c, i) {
      if i < n {
        assert items[..n][..i] == items[..i];
        assert FirstAt(items[..n], key, c, i);
      }
    }
    if IsFirst(items[..n], key, c) {
      FirstStays(items, n, key, c);
    }
  }

  lemma {:induction false} FirstWithMeaning(items: seq<Option<Candidate>>, key: string, c: Candidate)
    ensures FirstWith(items, key) == Some(c) <==> IsFirst(items, key, c)
  {
    if items != [] {
      var n := |items| - 1;
      FirstWithMeaning(items[..n], key, c);
      FirstSnoc(items, key, c);
      NoneFirst(items[..n], key);
      if FirstWith(items[..n], key).Some? {
        assert !NoneHas(items[..n], key);
      }
    }
  }

  lemma NoneSnoc(items: seq<Option<Candidate>>, key: string)
    requires items != []
    ensures var n := |items| - 1;
            NoneHas(items, key) <==> NoneHas(items[..n], key) && !HasKey(items[n], key)
  {
  }

  lemma {:induction false} NoneFirst(items: seq<Option<Candidate>>, key: string)
    ensures FirstWith(items, key).None? <==> NoneHas(items, key)
  {
    if items != [] {
      NoneFirst(items[..|items| - 1], key);
      NoneSnoc(items, key);
    }
  }

  lemma {:induction false} FirstWithConcat(a: seq<Option<Candidate>>, b: seq<Option<Candidate>>, key: string)
    ensures FirstWith(a + b, key) == if FirstWith(a, key).Some? then FirstWith(a, key) else FirstWith(b, key)
  {
    if b == [] {
      assert a + b == a;
    } else {
      FirstWithConcat(a, b[..|b| - 1], key);
      AppendLast(a, b);
    }
  }

  lemma {:induction false} FindIsFirst(items: seq<Option<Candidate>>, key: string)
    ensures Find(WithKeys(Present(items)), key) == FirstWith(items, key)
  {
    if items != [] {
      var front, last := items[..|items| - 1], items[|items| - 1];
      FindIsFirst(front, key);
      if last.Some? {
        var all, entry := WithKeys(Present(front)), Entry(KeyOfCandidate(last.value), last.value);
        assert WithKeys(Present(items)) == all + [entry];
        FindSnoc(all, entry, key);
      }
    }
  }

  lemma FindSnoc(all: seq<Keyed>, last: Keyed, key: string)
    ensures Find(all + [last], key) ==
            if Find(all, key).Some? then Find(all, key) else if last.key == key then Some(last.value) else None
  {
    assert Keys(all + [last]) == Keys(all) + [last.key];
    if key in Keys(all) {
      IndexOfAppend(Keys(all), last.key, key);
    } else if last.key == key {
      ArrivalSnoc(all, last, last);
    }
  }

  lemma MembersOfViews(s: Snapshot)
    ensures Members(Views(s), |Views(s)|) == (ItemsOf(s.top) + ItemsOf(s.tradeWarning)) + ItemsOf(s.operationalCaveat)
  {
    var views := Views(s);
    assert Members(views, 1) == Members(views, 0) + ItemsOf(s.top) == ItemsOf(s.top);
    assert Members(views, 2) == Members(views, 1) + ItemsOf(s.tradeWarning);
    assert Members(views, 3) == Members(views, 2) + ItemsOf(s.operationalCaveat);
  }

  /** The candidate first listed under the key, in the order top, trade warning, operational caveat. */
  predicate FirstListed(s: Snapshot, key: string, c: Candidate) {
    || FirstOf(s.top, key, c)
    || (Lacks(s.top, key) && FirstOf(s.tradeWarning, key, c))
    || (Lacks(s.top, key) && Lacks(s.tradeWarning, key) && FirstOf(s.operationalCaveat, key, c))
  }

  lemma ViewFirst(view: View, key: string, c: Candidate)
    ensures FirstWith(ItemsOf(view), key).None? <==> Lacks(view, key)
    ensures FirstWith(ItemsOf(view), key) == Some(c) <==> FirstOf(view, key, c)
  {
    NoneFirst(ItemsOf(view), key);
    FirstWithMeaning(ItemsOf(view), key, c);
  }

  lemma FindAmongViews(s: Snapshot, key: string)
    ensures var a, b, d := FirstWith(ItemsOf(s.top), key), FirstWith(ItemsOf(s.tradeWarning), key),
                           FirstWith(ItemsOf(s.operationalCaveat), key);
            Find(WithKeys(Buckets(s)), key) == if a.Some? then a else if b.Some? then b else d
  {
    var a, b, d := ItemsOf(s.top), ItemsOf(s.tradeWarning), ItemsOf(s.operationalCaveat);
    MembersOfViews(s);
    FindIsFirst((a + b) + d, key);
    FirstWithConcat(a + b, d, key);
    FirstWithConcat(a, b, key);
  }

  lemma FirstListedIff(s: Snapshot, key: string, c: Candidate)
    ensures Find(WithKeys(Buckets(s)), key) == Some(c) <==> FirstListed(s, key, c)
  {
    FindAmongViews(s, key);
    ViewFirst(s.top, key, c);
    ViewFirst(s.tradeWarning, key, c);
    ViewFirst(s.operationalCaveat, key, c);
  }

  /** A row stands among the defaults exactly when its candidate is the first listed under its key. */
  lemma RowIsFirstListed(atMost: (string, string) -> bool, s: Snapshot, key: string, c: Candidate)
    ensures Entry(key, c) in DefaultCandidates(atMost, Some(s)) <==> FirstListed(s, key, c)
  {
    var all := WithKeys(Buckets(s));
    FirstListedIff(s, key, c);
    DefaultIsFirst(atMost, s, Entry(key, c));
    FoundIffKey(all, key);
  }

  /** Some view lists a candidate with the key. */
  predicate SomewhereListed(s: Snapshot, key: string) {
    !Lacks(s.top, key) || !Lacks(s.tradeWarning, key) || !Lacks(s.operationalCaveat, key)
  }

  /** A key has a row exactly when one of the three views lists it. */
  lemma KeyHasRowIff(atMost: (string, string) -> bool, s: Snapshot, key: string)
    ensures key in Keys(DefaultCandidates(atMost, Some(s))) <==> SomewhereListed(s, key)
  {
    DefaultsMeaning(atMost, s);
    FindAmongViews(s, key);
    NoneFirst(ItemsOf(s.top), key);
    NoneFirst(ItemsOf(s.tradeWarning), key);
    NoneFirst(ItemsOf(s.operationalCaveat), key);
    FoundIffKey(WithKeys(Buckets(s)), key);
  }

  lemma FoundIffKey(all: seq<Keyed>, key: string)
    ensures Find(all, key).Some? <==> key in Keys(all)
    ensures Find(all, key).Some? ==> Entry(key, Find(all, key).value) in all
  {
    var i := IndexOf(Keys(all), key);
    if i < |all| {
      assert all[i] == Entry(key, all[i].value);
    }
  }

  /** Of two rows the earlier has the smaller rank, or the same and a symbol that is at most the other's. */
  lemma RowsByRank(atMost: (string, string) -> bool, s: Snapshot, i: nat, j: nat)
    requires IsCollation(atMost) && i < j < |DefaultCandidates(atMost, Some(s))|
    ensures var a, b := DefaultCandidates(atMost, Some(s))[i].value, DefaultCandidates(atMost, Some(s))[j].value;
            a.rank < b.rank || (a.rank == b.rank && atMost(a.symbol, b.symbol))
  {
    DefaultsIff(atMost, s, DefaultCandidates(atMost, Some(s)));
    assert Precedes(atMost, Arrival(WithKeys(Buckets(s))),
                    DefaultCandidates(atMost, Some(s))[i], DefaultCandidates(atMost, Some(s))[j]);
  }

  // ---------- Keys name candidates ----------

  /** Symbol, strategy and rank agree. */
  predicate SameName(a: Candidate, b: Candidate) {
    a.symbol == b.symbol && a.strategy == b.strategy && a.rank == b.rank
  }

  /** Without colons in symbols, a key names one symbol, strategy and rank. */
  lemma KeyInjective(a: Candidate, b: Candidate)
    requires ':' !in a.symbol && ':' !in b.symbol
    ensures KeyOfCandidate(a) == KeyOfCandidate(b) <==> SameName(a, b)
  {
    KeyEqualIff(a.symbol, a.strategy, a.rank, b.symbol, b.strategy, b.rank);
    if KeyOfCandidate(a) == KeyOfCandidate(b) {
      SplitAtColons(a.symbol, a.strategy, b.symbol, b.strategy);
    }
  }

  /** Two listed candidates with different names share a key. */
  predicate Clash(c: Candidate, d: Candidate) {
    c.rank == d.rank && Joined(c.symbol, c.strategy) == Joined(d.symbol, d.strategy) && !SameName(c, d)
  }

  /** `c` has a row of its own name among the defaults. */
  ghost predicate HasRow(atMost: (string, string) -> bool, s: Snapshot, c: Candidate) {
    exists row :: row in DefaultCandidates(atMost, Some(s)) && SameName(row.value, c)
  }

  /** Every listed name gets a row exactly when no two listed candidates clash. */
  lemma NothingLostIff(atMost: (string, string) -> bool, s: Snapshot)
    ensures (forall c :: c in Buckets(s) ==> HasRow(atMost, s, c))
       <==> (forall c, d :: c in Buckets(s) && d in Buckets(s) ==> !Clash(c, d))
  {
    if forall c :: c in Buckets(s) ==> HasRow(atMost, s, c) {
      forall c, d | c in Buckets(s) && d in Buckets(s)
        ensures !Clash(c, d)
      {
        OwnRowsDiffer(atMost, s, c, d);
      }
    }
    if forall c, d :: c in Buckets(s) && d in Buckets(s) ==> !Clash(c, d) {
      forall c | c in Buckets(s)
        ensures HasRow(atMost, s, c)
      {
        var row := RowUnderKey(atMost, s, c);
        KeyEqualIff(row.value.symbol, row.value.strategy, row.value.rank, c.symbol, c.strategy, c.rank);
        assert !Clash(row.value, c);
      }
    }
  }

  lemma {:induction false} RowUnderKey(atMost: (string, string) -> bool, s: Snapshot, c: Candidate) returns (row: Keyed)
    requires c in Buckets(s)
    ensures row in DefaultCandidates(atMost, Some(s)) && row.value in Buckets(s)
    ensures KeyOfCandidate(row.value) == KeyOfCandidate(c)
  {
    DefaultsMeaning(atMost, s);
    var rows := DefaultCandidates(atMost, Some(s));
    var k :| 0 <= k < |Buckets(s)| && Buckets(s)[k] == c;
    assert Keys(WithKeys(Buckets(s)))[k] == KeyOfCandidate(c);
    assert KeyOfCandidate(c) in Keys(rows);
    var i :| 0 <= i < |rows| && Keys(rows)[i] == KeyOfCandidate(c);
    KeysAreComputed(atMost, Some(s), i);
    row := rows[i];
  }

  lemma {:induction false} KeyOfRow(atMost: (string, string) -> bool, s: Snapshot, row: Keyed)
    requires row in DefaultCandidates(atMost, Some(s))
    ensures row.key == KeyOfCandidate(row.value) && row.value in Buckets(s)
  {
    var rows := DefaultCandidates(atMost, Some(s));
    var i :| 0 <= i < |rows| && rows[i] == row;
    KeysAreComputed(atMost, Some(s), i);
  }

  lemma SameKeySameRow(rows: seq<Keyed>, p: Keyed, q: Keyed)
    requires Unique(rows) && p in rows && q in rows && p.key == q.key
    ensures p == q
  {
    var i :| 0 <= i < |rows| && rows[i] == p;
    var j :| 0 <= j < |rows| && rows[j] == q;
    assert Keys(rows)[i] == Keys(rows)[j];
  }

  lemma OwnRowsDiffer(atMost: (string, string) -> bool, s: Snapshot, c: Candidate, d: Candidate)
    requires HasRow(atMost, s, c) && HasRow(atMost, s, d)
    ensures !Clash(c, d)
  {
    var rows := DefaultCandidates(atMost, Some(s));
    var p :| p in rows && SameName(p.value, c);
    var q :| q in rows && SameName(q.value, d);
    KeyOfRow(atMost, s, p);
    KeyOfRow(atMost, s, q);
    DefaultsMeaning(atMost, s);
    KeyEqualIff(c.symbol, c.strategy, c.rank, d.symbol, d.strategy, d.rank);
    if Clash(c, d) {
      SameKeySameRow(rows, p, q);
    }
  }

  lemma BucketsOfTwo(c: Candidate, d: Candidate)
    ensures Buckets(Snapshot(Some([Some(c), Some(d)]), None, None)) == [c, d]
  {
    var views := Views(Snapshot(Some([Some(c), Some(d)]), None, None));
    assert Members(views, 0) + [Some(c), Some(d)] == [Some(c), Some(d)];
    assert Members(views, 2) == Members(views, 1) + [] == [Some(c), Some(d)];
    assert Members(views, 3) == Members(views, 2) + [] == [Some(c), Some(d)];
    PresentSnoc([], Some(c));
    PresentSnoc([Some(c)], Some(d));
    assert [Some(c)] + [Some(d)] == [Some(c), Some(d)] && [] + [Some(c)] == [Some(c)];
  }

  lemma SharedKey()
    ensures KeyOf("A::B", "C", 1) == KeyOf("A", "B::C", 1) == "A::B::C::1"
  {
    assert Joined("A::B", "C") == "A::B::C" == Joined("A", "B::C");
    KeyEqualIff("A::B", "C", 1, "A", "B::C", 1);
    assert KeyOf("A::B", "C", 1) == "A::B::C" + "::1";
  }

  /** Two candidates that clash: only the first listed gets a row. */
  lemma KeysCanCollide(atMost: (string, string) -> bool, c: Candidate, d: Candidate)
    requires c.symbol == "A::B" && c.strategy == "C" && c.rank == 1
    requires d.symbol == "A" && d.strategy == "B::C" && d.rank == 1
    ensures DefaultCandidates(atMost, Some(Snapshot(Some([Some(c), Some(d)]), None, None)))
            == [Entry("A::B::C::1", c)]
  {
    var x, y := Entry(KeyOfCandidate(c), c), Entry(KeyOfCandidate(d), d);
    SharedKey();
    BucketsOfTwo(c, d);
    assert WithKeys([c, d]) == [x, y];
    FirstOfTwo(atMost, x, y);
  }

  lemma FirstOfTwo(atMost: (string, string) -> bool, x: Keyed, y: Keyed)
    requires x.key == y.key
    ensures SortRows(atMost, KeepFirst([x, y])) == [x]
  {
    KeepFirstSnoc([], x);
    KeepFirstSnoc([x], y);
    assert [] + [x] == [x] && [x] + [y] == [x, y];
    assert Keys([x]) == [x.key];
    assert [x][..0] == [];
    assert SortRows(atMost, [x]) == Sorting.Insert(ByRankThenSymbol(atMost), SortRows(atMost, []), x);
  }

  // ---------- Re-hydration ----------

  predicate Named(symbol: string, strategy: string) {
    symbol != [] && strategy != []
  }

  /** What a stored row still says once it has been checked. */
  datatype Incoming = Incoming(key: string, tag: Tag, note: string)

  /** A stored row without a symbol or a strategy is ignored. */
  function NormalizeIncoming(raw: Option<Stored>): Option<Incoming> {
    if raw.None? || !Named(raw.value.symbol, raw.value.strategy) then None
    else
      var row := raw.value;
      Some(Incoming(KeyOf(row.symbol, row.strategy, row.rank),
                    if row.tag.Some? then row.tag.value else Unclear,
                    if row.note.Some? then Sanitize(row.note.value) else []))
  }

  /** The first `k` stored rows, each checked. */
  function NormalizeFirst(existing: seq<Option<Stored>>, k: nat): (r: seq<Option<Incoming>>)
    requires k <= |existing|
    ensures |r| == k
  {
    if k == 0 then [] else NormalizeFirst(existing, k - 1) + [NormalizeIncoming(existing[k - 1])]
  }

  function NormalizeAll(existing: seq<Option<Stored>>): (r: seq<Option<Incoming>>)
    ensures |r| == |existing|
  {
    NormalizeFirst(existing, |existing|)
  }

  lemma {:induction false} NormalizedAt(existing: seq<Option<Stored>>, k: nat, j: nat)
    requires j < k <= |existing|
    ensures NormalizeFirst(existing, k)[j] == NormalizeIncoming(existing[j])
  {
    if j < k - 1 {
      NormalizedAt(existing, k - 1, j);
    }
  }

  /** The map by key: a later entry wins. */
  function ByKey(incoming: seq<Option<Incoming>>, k: nat): map<string, Incoming>
    requires k <= |incoming|
  {
    if k == 0 then map[]
    else if incoming[k - 1].None? then ByKey(incoming, k - 1)
    else ByKey(incoming, k - 1)[incoming[k - 1].value.key := incoming[k - 1].value]
  }

  function Rehydrate(row: Outcome, key: string, byKey: map<string, Incoming>): Outcome {
    if key in byKey then row.(tag := byKey[key].tag, note := byKey[key].note) else row
  }

  function RehydrateAll(rows: seq<Keyed>, byKey: map<string, Incoming>): (r: seq<Outcome>)
    ensures |r| == |rows|
  {
    seq(|rows|, i requires 0 <= i < |rows| => Rehydrate(DefaultOf(rows[i].value), rows[i].key, byKey))
  }

  function Build(atMost: (string, string) -> bool, snapshot: Option<Snapshot>, existing: seq<Option<Stored>>)
    : seq<Outcome>
  {
    RehydrateAll(DefaultCandidates(atMost, snapshot), ByKey(NormalizeAll(existing), |existing|))
  }

  method NormalizeStored(raw: Option<Stored>) returns (r: Option<Incoming>)
    ensures r == NormalizeIncoming(raw)
  {
    if raw.None? || !Named(raw.value.symbol, raw.value.strategy) {
      return None;
    }
    var row := raw.value;
    var note := SanitizeMomentumNote(row.note);
    r := Some(Incoming(KeyOf(row.symbol, row.strategy, row.rank),
                       if row.tag.Some? then row.tag.value else Unclear, note));
  }

  method BuildOutcomeReview(atMost: (string, string) -> bool, snapshot: Option<Snapshot>,
                            existing: seq<Option<Stored>>)
    returns (outcomes: seq<Outcome>)
    ensures outcomes == Build(atMost, snapshot, existing)
  {
    var defaults := CandidateOutcomeDefaults(atMost, snapshot);
    var incoming := NormalizeStoredRows(existing);
    var byKey := FillByKey(incoming);
    ghost var rows := DefaultCandidates(atMost, snapshot);
    forall i | 0 <= i < |rows|
      ensures rows[i].key == KeyOfCandidate(rows[i].value)
    {
      KeysAreComputed(atMost, snapshot, i);
    }
    outcomes := RehydrateDefaults(defaults, byKey, rows);
  }

  method RehydrateDefaults(defaults: seq<Outcome>, byKey: map<string, Incoming>, ghost rows: seq<Keyed>)
    returns (outcomes: seq<Outcome>)
    requires defaults == DefaultsOf(rows)
    requires forall i :: 0 <= i < |rows| ==> rows[i].key == KeyOfCandidate(rows[i].value)
    ensures outcomes == RehydrateAll(rows, byKey)
  {
    outcomes := [];
    ghost var all := RehydrateAll(rows, byKey);
    for i := 0 to |defaults|
      invariant outcomes == all[..i]
    {
      var key := KeyOfCandidate(defaults[i].candidate);
      assert all[i] == Rehydrate(defaults[i], key, byKey);
      outcomes := outcomes + [Rehydrate(defaults[i], key, byKey)];
    }
  }

  method NormalizeStoredRows(existing: seq<Option<Stored>>) returns (incoming: seq<Option<Incoming>>)
    ensures incoming == NormalizeAll(existing)
  {
    incoming := [];
    for k := 0 to |existing|
      invariant incoming == NormalizeFirst(existing, k)
    {
      var entry := NormalizeStored(existing[k]);
      incoming := incoming + [entry];
    }
  }

  method FillByKey(incoming: seq<Option<Incoming>>) returns (byKey: map<string, Incoming>)
    ensures byKey == ByKey(incoming, |incoming|)
  {
    byKey := map[];
    for k := 0 to |incoming|
      invariant byKey == ByKey(incoming, k)
    {
      if incoming[k].Some? {
        byKey := byKey[incoming[k].value.key := incoming[k].value];
      }
    }
  }

  lemma {:induction false} KeysAreComputed(atMost: (string, string) -> bool, snapshot: Option<Snapshot>, i: nat)
    requires i < |DefaultCandidates(atMost, snapshot)|
    ensures var row := DefaultCandidates(atMost, snapshot)[i];
            row.key == KeyOfCandidate(row.value)
            && (snapshot.Some? ==> row.value in Buckets(snapshot.value))
  {
    var kept, rows := Kept(snapshot.value), DefaultCandidates(atMost, snapshot);
    var all := WithKeys(Buckets(snapshot.value));
    SortMembers(atMost, kept);
    assert rows[i] in multiset(kept);
    KeptIsFirst(all, rows[i]);
    var j :| 0 <= j < |all| && all[j] == rows[i];
  }

  /** The last usable stored row with the key, or -1. */
  function LastStored(existing: seq<Option<Stored>>, k: nat, key: string): (i: int)
    requires k <= |existing|
    ensures -1 <= i < k
    ensures i >= 0 ==> StoredUnder(existing[i], key)
    ensures forall j :: i < j < k ==> !StoredUnder(existing[j], key)
  {
    if k == 0 then -1
    else if StoredUnder(existing[k - 1], key) then k - 1
    else LastStored(existing, k - 1, key)
  }

  predicate StoredUnder(raw: Option<Stored>, key: string) {
    && raw.Some? && raw.value.symbol != [] && raw.value.strategy != []
    && KeyOf(raw.value.symbol, raw.value.strategy, raw.value.rank) == key
  }

  lemma {:induction false} ByKeyIsLast(existing: seq<Option<Stored>>, k: nat, key: string)
    requires k <= |existing|
    ensures var byKey, i := ByKey(NormalizeAll(existing), k), LastStored(existing, k, key);
            && (key in byKey <==> i >= 0)
            && (i >= 0 ==> NormalizeIncoming(existing[i]) == Some(byKey[key]))
  {
    if k > 0 {
      ByKeyIsLast(existing, k - 1, key);
      NormalizedAt(existing, |existing|, k - 1);
    }
  }

  /**
   Each row of a review is the default row, with the tag and the sanitised note
   of the last usable stored row of its key; without one, unclear and no note.
   */
  lemma ReviewedRow(atMost: (string, string) -> bool, s: Snapshot, existing: seq<Option<Stored>>, i: nat)
    requires i < |DefaultCandidates(atMost, Some(s))|
    ensures |Build(atMost, Some(s), existing)| == |DefaultCandidates(atMost, Some(s))|
    ensures var row, o := DefaultCandidates(atMost, Some(s))[i], Build(atMost, Some(s), existing)[i];
            var j := LastStored(existing, |existing|, row.key);
            && o.candidate == row.value
            && (j < 0 ==> o.tag == Unclear && o.note == [])
            && (j >= 0 ==>
                  && o.tag == (if existing[j].value.tag.Some? then existing[j].value.tag.value else Unclear)
                  && o.note == if existing[j].value.note.Some? then Sanitize(existing[j].value.note.value) else [])
  {
    ByKeyIsLast(existing, |existing|, DefaultCandidates(atMost, Some(s))[i].key);
  }

  // ---------- Feeding a review back ----------

  function StoredOf(o: Outcome): Stored {
    Stored(o.candidate.symbol, o.candidate.strategy, o.candidate.rank, Some(o.tag), Some(o.note))
  }

  function StoreAll(rows: seq<Outcome>): (r: seq<Option<Stored>>)
    ensures |r| == |rows|
  {
    seq(|rows|, i requires 0 <= i < |rows| => Some(StoredOf(rows[i])))
  }

  /** With distinct keys, an entry is found under its key as soon as it has been read. */
  lemma {:induction false} ByKeyFinds(incoming: seq<Option<Incoming>>, keys: seq<string>, k: nat, i: nat)
    requires k <= |incoming| == |keys| && i < |keys| && Distinct(keys)
    requires forall j :: 0 <= j < |keys| && incoming[j].Some? ==> incoming[j].value.key == keys[j]
    ensures keys[i] in ByKey(incoming, k) <==> i < k && incoming[i].Some?
    ensures keys[i] in ByKey(incoming, k) ==> ByKey(incoming, k)[keys[i]] == incoming[i].value
  {
    if k > 0 {
      ByKeyFinds(incoming, keys, k - 1, i);
      assert i < k - 1 ==> keys[i] != keys[k - 1];
      assert k - 1 < i ==> keys[k - 1] != keys[i];
    }
  }

  /** The rows of a review of the snapshot, whatever their tags and notes. */
  ghost predicate ReviewOf(atMost: (string, string) -> bool, s: Snapshot, rows: seq<Outcome>) {
    var candidates := DefaultCandidates(atMost, Some(s));
    |rows| == |candidates| && forall i :: 0 <= i < |rows| ==> rows[i].candidate == candidates[i].value
  }

  /** What feeding it back makes of a row. */
  function Refed(o: Outcome): Outcome {
    if Named(o.candidate.symbol, o.candidate.strategy) then o.(note := Sanitize(o.note)) else DefaultOf(o.candidate)
  }

  lemma {:induction false} RefeedRow(atMost: (string, string) -> bool, s: Snapshot, rows: seq<Outcome>, i: nat)
    requires IsCollation(atMost) && ReviewOf(atMost, s, rows) && i < |rows|
    ensures |Build(atMost, Some(s), StoreAll(rows))| == |rows|
    ensures Build(atMost, Some(s), StoreAll(rows))[i] == Refed(rows[i])
  {
    var candidates := DefaultCandidates(atMost, Some(s));
    var keys, incoming := Keys(candidates), NormalizeAll(StoreAll(rows));
    DefaultsMeaning(atMost, s);
    forall j | 0 <= j < |keys| && incoming[j].Some?
      ensures incoming[j].value.key == keys[j]
    {
      NormalizedAt(StoreAll(rows), |rows|, j);
      KeysAreComputed(atMost, Some(s), j);
    }
    NormalizedAt(StoreAll(rows), |rows|, i);
    ByKeyFinds(incoming, keys, |incoming|, i);
  }

  /** A row that survives storage: named with a settled note, or never touched. */
  predicate Settled(o: Outcome) {
    if Named(o.candidate.symbol, o.candidate.strategy) then o.note == [] || Clean(o.note)
    else o.tag == Unclear && o.note == []
  }

  lemma RefedIffSettled(o: Outcome)
    ensures Refed(o) == o <==> Settled(o)
  {
    FixedPoints(o.note);
  }

  /**
   A review whose rows are the snapshot's, with any tags and notes, is rebuilt
   unchanged from its own rows exactly when every row is settled.
   */
  lemma {:induction false} RefeedIff(atMost: (string, string) -> bool, s: Snapshot, rows: seq<Outcome>)
    requires IsCollation(atMost) && ReviewOf(atMost, s, rows)
    ensures Build(atMost, Some(s), StoreAll(rows)) == rows
       <==> forall i :: 0 <= i < |rows| ==> Settled(rows[i])
  {
    var built := Build(atMost, Some(s), StoreAll(rows));
    assert |built| == |rows|;
    forall i | 0 <= i < |rows|
      ensures built[i] == rows[i] <==> Settled(rows[i])
    {
      RefeedRow(atMost, s, rows, i);
      RefedIffSettled(rows[i]);
    }
  }

  lemma {:induction false} ByKeyOrigin(incoming: seq<Option<Incoming>>, k: nat, key: string) returns (j: nat)
    requires k <= |incoming| && key in ByKey(incoming, k)
    ensures j < k && incoming[j] == Some(ByKey(incoming, k)[key])
  {
    if incoming[k - 1].Some? && incoming[k - 1].value.key == key {
      j := k - 1;
    } else {
      j := ByKeyOrigin(incoming, k - 1, key);
    }
  }

  /** A stored row is used exactly when it is named; its note comes back sanitised, a settled one as it was. */
  lemma IncomingNote(raw: Option<Stored>)
    ensures var entry := NormalizeIncoming(raw);
            && (entry.Some? <==> raw.Some? && Named(raw.value.symbol, raw.value.strategy))
            && (entry.Some? ==> entry.value.note == [] || Clean(entry.value.note))
            && (entry.Some? && raw.value.note.Some? ==>
                  (entry.value.note == raw.value.note.value <==>
                   raw.value.note.value == [] || Clean(raw.value.note.value)))
  {
    if raw.Some? && raw.value.note.Some? {
      SanitizedIsClean(raw.value.note.value);
      FixedPoints(raw.value.note.value);
    }
  }

  /** So a review of named candidates, built from anything, is rebuilt from itself. */
  lemma {:induction false} BuiltReviewsAreStable(atMost: (string, string) -> bool, s: Snapshot,
                                                 existing: seq<Option<Stored>>)
    requires IsCollation(atMost)
    requires forall c :: c in Buckets(s) ==> Named(c.symbol, c.strategy)
    ensures var review := Build(atMost, Some(s), existing);
            Build(atMost, Some(s), StoreAll(review)) == review
  {
    var review := Build(atMost, Some(s), existing);
    forall i | 0 <= i < |review|
      ensures Settled(review[i])
    {
      BuiltRowIsSettled(atMost, s, existing, i);
    }
    RefeedIff(atMost, s, review);
  }

  lemma {:induction false} BuiltRowIsSettled(atMost: (string, string) -> bool, s: Snapshot,
                                             existing: seq<Option<Stored>>, i: nat)
    requires forall c :: c in Buckets(s) ==> Named(c.symbol, c.strategy)
    requires i < |Build(atMost, Some(s), existing)|
    ensures Settled(Build(atMost, Some(s), existing)[i])
  {
    var row := DefaultCandidates(atMost, Some(s))[i];
    KeysAreComputed(atMost, Some(s), i);
    if row.key in ByKey(NormalizeAll(existing), |existing|) {
      var j := ByKeyOrigin(NormalizeAll(existing), |existing|, row.key);
      NormalizedAt(existing, |existing|, j);
      IncomingNote(existing[j]);
    }
  }
}
