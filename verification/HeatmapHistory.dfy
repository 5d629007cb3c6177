/**
 What a run of refreshes leaves behind: chunked and whole refreshes compared,
 and the state after any history of responses, read off the history itself.
 */
module HeatmapHistory {
  import opened Sequences
  import opened Wrappers
  import opened OrderedMap
  import opened Heatmap

  /** The page's fold: merge the first `k` responses into the current state. */
  function MergeFirst<V, F>(pol: Policy<V, F>, state: Option<Response<Row<V, F>>>,
                            responses: seq<Response<Row<V, F>>>, k: nat)
    : (r: Option<Response<Row<V, F>>>)
    requires k <= |responses|
    ensures k > 0 ==> r.Some?
  {
    if k == 0 then state else Some(Merge(pol, MergeFirst(pol, state, responses, k - 1), responses[k - 1]))
  }

  /** All of them. */
  function MergeAll<V, F>(pol: Policy<V, F>, state: Option<Response<Row<V, F>>>, responses: seq<Response<Row<V, F>>>)
    : (r: Option<Response<Row<V, F>>>)
    ensures responses != [] ==> r.Some?
  {
    MergeFirst(pol, state, responses, |responses|)
  }

  // ---------- Merging rows ----------

  lemma {:induction false} MergeRowsKeys<V, F>(pol: Policy<V, F>, rows: seq<Entry<Row<V, F>>>,
                                               next: seq<Entry<Row<V, F>>>)
    requires Unique(rows)
    ensures Unique(MergeRows(pol, rows, next))
    ensures Keys(MergeRows(pol, rows, next)) == FirstSeen(Keys(rows) + Keys(next))
  {
    if next == [] {
      FirstSeenOfDistinct(Keys(rows));
      assert Keys(rows) + Keys(next) == Keys(rows);
    } else {
      var front, last := next[..|next| - 1], next[|next| - 1];
      var before := MergeRows(pol, rows, front);
      MergeRowsKeys(pol, rows, front);
      SetKeysFirstSeen(before, Keys(rows) + Keys(front), last.key,
                       MergeRow(pol, Find(before, last.key), last.value));
      KeysAppend(rows, next);
    }
    FirstSeenDistinct(Keys(rows) + Keys(next));
  }

  lemma {:induction false} MergeRowsConcat<V, F>(pol: Policy<V, F>, rows: seq<Entry<Row<V, F>>>,
                                                 a: seq<Entry<Row<V, F>>>, b: seq<Entry<Row<V, F>>>)
    ensures MergeRows(pol, MergeRows(pol, rows, a), b) == MergeRows(pol, rows, a + b)
  {
    if b == [] {
      assert a + b == a;
    } else {
      MergeRowsConcat(pol, rows, a, b[..|b| - 1]);
      AppendLast(a, b);
    }
  }

  /** Rows with new ids are appended as they come. */
  lemma {:induction false} MergeRowsFresh<V, F>(pol: Policy<V, F>, a: seq<Entry<Row<V, F>>>, b: seq<Entry<Row<V, F>>>)
    requires Unique(a + b)
    ensures MergeRows(pol, a, b) == a + b
  {
    if b == [] {
      assert a + b == a;
    } else {
      var front, last := b[..|b| - 1], b[|b| - 1];
      var n := |a| + |front|;
      assert (a + b)[..n] == a + front;
      assert Keys(a + front) == Keys(a + b)[..n];
      MergeRowsFresh(pol, a, front);
      forall j | 0 <= j < n
        ensures Keys(a + front)[j] != last.key
      {
        assert Keys(a + b)[j] != Keys(a + b)[n];
      }
      assert a + b == (a + front) + [last];
    }
  }

  // ---------- Chunked refresh against whole refresh ----------

  /** The first `k` parts, one after the other. */
  function Flatten<T>(parts: seq<seq<T>>, k: nat): seq<T>
    requires k <= |parts|
  {
    if k == 0 then [] else Flatten(parts, k - 1) + parts[k - 1]
  }

  /** The rows of one category after its first `k` parts have arrived one by one. */
  function Accumulated<V, F>(pol: Policy<V, F>, existing: Option<Category<Row<V, F>>>,
                             parts: seq<seq<Entry<Row<V, F>>>>, k: nat)
    : seq<Entry<Row<V, F>>>
    requires 0 < k <= |parts|
  {
    if k > 1 then MergeRows(pol, Collect(Accumulated(pol, existing, parts, k - 1)), parts[k - 1])
    else if existing.Some? then MergeRows(pol, Collect(existing.value.rows), parts[0])
    else parts[0]
  }

  function Known<R>(previous: Option<Response<R>>): seq<Entry<Category<R>>> {
    if previous.Some? then Collect(previous.value.categories) else []
  }

  ghost predicate OneCategory<R>(response: Response<R>, key: string, title: string, rows: seq<Entry<R>>) {
    response.categories == [Entry(key, Category(title, rows))]
  }

  lemma MergeOne<V, F>(pol: Policy<V, F>, previous: Option<Response<Row<V, F>>>, response: Response<Row<V, F>>,
                       key: string, title: string, rows: seq<Entry<Row<V, F>>>)
    requires OneCategory(response, key, title, rows)
    ensures var known := Known(previous);
            Merge(pol, previous, response).categories
            == Set(known, key, MergeCategory(pol, Find(known, key), Category(title, rows)))
  {
    assert response.categories[..0] == [];
    if previous.Some? {
      assert MergeCategories(pol, Known(previous), response.categories[..0]) == Known(previous);
    }
  }

  lemma {:induction false} StateAfterParts<V, F>(
    pol: Policy<V, F>, previous: Option<Response<Row<V, F>>>, responses: seq<Response<Row<V, F>>>,
    key: string, title: string, parts: seq<seq<Entry<Row<V, F>>>>, k: nat)
    requires 0 < k <= |responses| == |parts|
    requires forall i :: 0 <= i < |parts| ==> OneCategory(responses[i], key, title, parts[i])
    ensures var known := Known(previous);
            MergeFirst(pol, previous, responses, k).value.categories
            == Set(known, key, Category(title, Accumulated(pol, Find(known, key), parts, k)))
  {
    var known := Known(previous);
    if k == 1 {
      MergeOne(pol, MergeFirst(pol, previous, responses, 0), responses[0], key, title, parts[0]);
    } else {
      StateAfterParts(pol, previous, responses, key, title, parts, k - 1);
      var before := MergeFirst(pol, previous, responses, k - 1);
      var shown := Category(title, Accumulated(pol, Find(known, key), parts, k - 1));
      if previous.Some? {
        CollectKeys(previous.value.categories);
      }
      SetKeys(known, key, shown);
      CollectUnique(Set(known, key, shown));
      MergeOne(pol, before, responses[k - 1], key, title, parts[k - 1]);
      FindSet(known, key, shown, key);
      SetSet(known, key, shown, Category(title, MergeRows(pol, Collect(shown.rows), parts[k - 1])));
    }
  }

  /** Into a category already shown, parts arrive as the whole would. */
  lemma {:induction false} AccumulatedExisting<V, F>(pol: Policy<V, F>, existing: Category<Row<V, F>>,
                                                     parts: seq<seq<Entry<Row<V, F>>>>, k: nat)
    requires 0 < k <= |parts|
    ensures Accumulated(pol, Some(existing), parts, k) == MergeRows(pol, Collect(existing.rows), Flatten(parts, k))
  {
    CollectKeys(existing.rows);
    if k == 1 {
      assert Flatten(parts, 0) + parts[0] == parts[0];
    } else {
      var front := Flatten(parts, k - 1);
      AccumulatedExisting(pol, existing, parts, k - 1);
      MergeRowsKeys(pol, Collect(existing.rows), front);
      CollectUnique(MergeRows(pol, Collect(existing.rows), front));
      MergeRowsConcat(pol, Collect(existing.rows), front, parts[k - 1]);
    }
  }

  lemma {:induction false} AccumulatedFresh<V, F>(pol: Policy<V, F>, parts: seq<seq<Entry<Row<V, F>>>>, k: nat)
    requires 0 < k <= |parts| && Unique(Flatten(parts, k))
    ensures Accumulated(pol, None, parts, k) == Flatten(parts, k)
  {
    if k == 1 {
      assert Flatten(parts, 0) + parts[0] == parts[0];
    } else {
      var front := Flatten(parts, k - 1);
      assert Keys(front) == Keys(Flatten(parts, k))[..|front|];
      AccumulatedFresh(pol, parts, k - 1);
      CollectUnique(front);
      MergeRowsFresh(pol, front, parts[k - 1]);
    }
  }

  /** Into a new category, parts arrive as the whole would exactly when no id repeats. */
  lemma AccumulatedNew<V, F>(pol: Policy<V, F>, parts: seq<seq<Entry<Row<V, F>>>>, k: nat)
    requires 0 < k <= |parts|
    ensures Accumulated(pol, None, parts, k) == Flatten(parts, k) <==> k == 1 || Unique(Flatten(parts, k))
  {
    if Unique(Flatten(parts, k)) {
      AccumulatedFresh(pol, parts, k);
    } else if k == 1 {
      assert Flatten(parts, 0) + parts[0] == parts[0];
    } else {
      var before := Accumulated(pol, None, parts, k - 1);
      CollectKeys(before);
      MergeRowsKeys(pol, Collect(before), parts[k - 1]);
    }
  }

  lemma SetInjective<T>(m: seq<Entry<T>>, key: string, v: T, w: T)
    requires Set(m, key, v) == Set(m, key, w)
    ensures v == w
  {
    FindSet(m, key, v, key);
    FindSet(m, key, w, key);
  }

  lemma {:induction false} PartsIff<V, F>(pol: Policy<V, F>, previous: Option<Response<Row<V, F>>>,
                       responses: seq<Response<Row<V, F>>>, whole: Response<Row<V, F>>,
                       key: string, title: string, parts: seq<seq<Entry<Row<V, F>>>>)
    requires |responses| == |parts| > 0
    requires forall i :: 0 <= i < |parts| ==> OneCategory(responses[i], key, title, parts[i])
    requires OneCategory(whole, key, title, Flatten(parts, |parts|))
    ensures MergeAll(pol, previous, responses).value.categories == Merge(pol, previous, whole).categories
       <==> |parts| == 1 || Unique(Flatten(parts, |parts|)) || Find(Known(previous), key).Some?
  {
    var known, n := Known(previous), |parts|;
    StateAfterParts(pol, previous, responses, key, title, parts, n);
    MergeOne(pol, previous, whole, key, title, Flatten(parts, n));
    var stepwise := Category(title, Accumulated(pol, Find(known, key), parts, n));
    var atOnce := MergeCategory(pol, Find(known, key), Category(title, Flatten(parts, n)));
    if Set(known, key, stepwise) == Set(known, key, atOnce) {
      SetInjective(known, key, stepwise, atOnce);
    }
    match Find(known, key)
    case Some(existing) => AccumulatedExisting(pol, existing, parts, n);
    case None => AccumulatedNew(pol, parts, n);
  }

  /** The server's answer to a request for some rows. */
  function Answered<Q, V, F>(answer: Entry<Q> -> Row<V, F>, rows: seq<Entry<Q>>): (r: seq<Entry<Row<V, F>>>)
    ensures Keys(r) == Keys(rows)
  {
    seq(|rows|, i requires 0 <= i < |rows| => Entry(rows[i].key, answer(rows[i])))
  }

  function AnsweredParts<Q, V, F>(answer: Entry<Q> -> Row<V, F>, chunks: seq<Entry<Category<Q>>>)
    : (r: seq<seq<Entry<Row<V, F>>>>)
    ensures |r| == |chunks|
  {
    seq(|chunks|, i requires 0 <= i < |chunks| => Answered(answer, chunks[i].value.rows))
  }

  lemma {:induction false} AnsweredFlatten<Q, V, F>(answer: Entry<Q> -> Row<V, F>,
                                                    chunks: seq<Entry<Category<Q>>>, k: nat)
    requires k <= |chunks|
    ensures Flatten(AnsweredParts(answer, chunks), k) == Answered(answer, Rows(chunks[..k]))
  {
    if k > 0 {
      AnsweredFlatten(answer, chunks, k - 1);
      assert chunks[..k][..k - 1] == chunks[..k - 1];
      AnsweredConcat(answer, Rows(chunks[..k - 1]), chunks[k - 1].value.rows);
    }
  }

  lemma AnsweredConcat<Q, V, F>(answer: Entry<Q> -> Row<V, F>, a: seq<Entry<Q>>, b: seq<Entry<Q>>)
    ensures Answered(answer, a + b) == Answered(answer, a) + Answered(answer, b)
  {
  }

  /**
   Refreshing a category chunk by chunk shows the same categories and rows, in
   the same order, as refreshing it at once - exactly when one chunk suffices,
   or no row id repeats, or the category was already on screen.
   */
  lemma {:induction false} ChunkedRefreshIff<Q, V, F>(pol: Policy<V, F>, previous: Option<Response<Row<V, F>>>,
                                   category: Entry<Category<Q>>, chunkSize: real, answer: Entry<Q> -> Row<V, F>,
                                   responses: seq<Response<Row<V, F>>>, whole: Response<Row<V, F>>)
    requires |responses| == |Chunks(category, chunkSize)|
    requires forall i :: 0 <= i < |responses| ==>
               OneCategory(responses[i], category.key, category.value.categoryLabel,
                           Answered(answer, Chunks(category, chunkSize)[i].value.rows))
    requires OneCategory(whole, category.key, category.value.categoryLabel, Answered(answer, category.value.rows))
    ensures responses != []
    ensures MergeAll(pol, previous, responses).value.categories == Merge(pol, previous, whole).categories
       <==> || |category.value.rows| <= ChunkLimit(chunkSize)
            || Unique(category.value.rows)
            || (previous.Some? && category.key in Keys(previous.value.categories))
  {
    var chunks := Chunks(category, chunkSize);
    var parts := AnsweredParts(answer, chunks);
    ChunksCover(category, chunkSize);
    AnsweredFlatten(answer, chunks, |chunks|);
    assert chunks[..|chunks|] == chunks;
    PartsIff(pol, previous, responses, whole, category.key, category.value.categoryLabel, parts);
    if previous.Some? {
      CollectKeys(previous.value.categories);
    }
  }

  /** A new category that lists one id twice, in chunks of one row: it never shows as it would at once. */
  lemma RepeatedIdDiffers<Q, V, F>(pol: Policy<V, F>, id: string, a: Q, b: Q, answer: Entry<Q> -> Row<V, F>,
                                   responses: seq<Response<Row<V, F>>>, whole: Response<Row<V, F>>)
    requires |responses| == |Chunks(Twice(id, a, b), 1.0)|
    requires forall i :: 0 <= i < |responses| ==>
               OneCategory(responses[i], "new", "New", Answered(answer, Chunks(Twice(id, a, b), 1.0)[i].value.rows))
    requires OneCategory(whole, "new", "New", Answered(answer, Twice(id, a, b).value.rows))
    ensures responses != []
    ensures MergeAll(pol, None, responses).value.categories != Merge(pol, None, whole).categories
  {
    var category := Twice(id, a, b);
    assert Keys(category.value.rows)[0] == Keys(category.value.rows)[1];
    ChunkedRefreshIff(pol, None, category, 1.0, answer, responses, whole);
  }

  function Twice<Q>(id: string, a: Q, b: Q): Entry<Category<Q>> {
    Entry("new", Category("New", [Entry(id, a), Entry(id, b)]))
  }

  // ---------- Any history of responses ----------

  function RowIn<R>(response: Response<R>, c: string, r: string): Option<R> {
    match Find(response.categories, c)
    case None => None
    case Some(category) => Find(category.rows, r)
  }

  /** A response as the backend sends it: no id twice. */
  predicate WellFormed<R>(response: Response<R>) {
    && Unique(response.categories)
    && forall i :: 0 <= i < |response.categories| ==> Unique(response.categories[i].value.rows)
  }

  lemma {:induction false} FindMergeRows<V, F>(pol: Policy<V, F>, rows: seq<Entry<Row<V, F>>>,
                                               next: seq<Entry<Row<V, F>>>, r: string)
    requires Unique(next)
    ensures Find(MergeRows(pol, rows, next), r) ==
            if Find(next, r).Some? then Some(MergeRow(pol, Find(rows, r), Find(next, r).value)) else Find(rows, r)
  {
    if next != [] {
      var front, last := next[..|next| - 1], next[|next| - 1];
      assert next == front + [last] && Keys(front) == Keys(next)[..|front|];
      FindLast(front, last, r);
      FindMergeRows(pol, rows, front, if r == last.key then last.key else r);
      var before := MergeRows(pol, rows, front);
      FindSet(before, last.key, MergeRow(pol, Find(before, last.key), last.value), r);
    }
  }

  lemma FindLast<T>(front: seq<Entry<T>>, last: Entry<T>, key: string)
    requires Unique(front + [last])
    ensures Find(front + [last], key) == if key == last.key then Some(last.value) else Find(front, key)
    ensures Find(front, last.key).None?
  {
    var all := front + [last];
    assert Keys(all) == Keys(front) + [last.key];
    forall j | 0 <= j < |front|
      ensures Keys(front)[j] != last.key
    {
      assert Keys(all)[j] != Keys(all)[|front|];
    }
    if key == last.key {
      IndexOfUnique(Keys(all), |front|);
    } else if key in Keys(front) {
      IndexOfAppend(Keys(front), last.key, key);
    }
  }

  lemma {:induction false} FindMergeCategories<V, F>(pol: Policy<V, F>, cats: seq<Entry<Category<Row<V, F>>>>,
                                                     next: seq<Entry<Category<Row<V, F>>>>, c: string)
    requires Unique(next)
    ensures Find(MergeCategories(pol, cats, next), c) ==
            if Find(next, c).Some? then Some(MergeCategory(pol, Find(cats, c), Find(next, c).value)) else Find(cats, c)
  {
    if next != [] {
      var front, last := next[..|next| - 1], next[|next| - 1];
      assert next == front + [last] && Keys(front) == Keys(next)[..|front|];
      FindLast(front, last, c);
      FindMergeCategories(pol, cats, front, c);
      var before := MergeCategories(pol, cats, front);
      FindSet(before, last.key, MergeCategory(pol, Find(before, last.key), last.value), c);
    }
  }

  lemma {:induction false} MergeCategoriesKeys<V, F>(pol: Policy<V, F>, cats: seq<Entry<Category<Row<V, F>>>>,
                                                     next: seq<Entry<Category<Row<V, F>>>>)
    requires Unique(cats)
    ensures Unique(MergeCategories(pol, cats, next))
    ensures Keys(MergeCategories(pol, cats, next)) == FirstSeen(Keys(cats) + Keys(next))
  {
    if next == [] {
      FirstSeenOfDistinct(Keys(cats));
      assert Keys(cats) + Keys(next) == Keys(cats);
    } else {
      var front, last := next[..|next| - 1], next[|next| - 1];
      var before := MergeCategories(pol, cats, front);
      MergeCategoriesKeys(pol, cats, front);
      SetKeysFirstSeen(before, Keys(cats) + Keys(front), last.key,
                       MergeCategory(pol, Find(before, last.key), last.value));
      KeysAppend(cats, next);
    }
    FirstSeenDistinct(Keys(cats) + Keys(next));
  }

  lemma FindValue<T>(m: seq<Entry<T>>, key: string) returns (i: nat)
    requires Find(m, key).Some?
    ensures i < |m| && m[i].key == key && m[i].value == Find(m, key).value
  {
    i := IndexOf(Keys(m), key);
  }

  /** What a response does to one row: nothing, unless it names the row. */
  function RowStep<V, F>(pol: Policy<V, F>, before: Option<Row<V, F>>, next: Option<Row<V, F>>): Option<Row<V, F>> {
    match next
    case None => before
    case Some(row) => Some(MergeRow(pol, before, row))
  }

  /** Merging well-formed responses gives a well-formed state... */
  lemma MergeWellFormed<V, F>(pol: Policy<V, F>, previous: Response<Row<V, F>>, next: Response<Row<V, F>>)
    requires WellFormed(previous) && WellFormed(next)
    ensures WellFormed(Merge(pol, Some(previous), next))
  {
    var merged := Merge(pol, Some(previous), next);
    CollectUnique(previous.categories);
    MergeCategoriesKeys(pol, previous.categories, next.categories);
    forall i | 0 <= i < |merged.categories|
      ensures Unique(merged.categories[i].value.rows)
    {
      var c := merged.categories[i].key;
      IndexOfUnique(Keys(merged.categories), i);
      FindMergeCategories(pol, previous.categories, next.categories, c);
      if Find(next.categories, c).Some? {
        var k := FindValue(next.categories, c);
        if Find(previous.categories, c).Some? {
          var rows := Find(previous.categories, c).value.rows;
          CollectKeys(rows);
          MergeRowsKeys(pol, Collect(rows), Find(next.categories, c).value.rows);
        }
      } else {
        var k := FindValue(previous.categories, c);
      }
    }
  }

  /** ...in which every row named by the response is merged, and no other row changes. */
  lemma MergeRowIn<V, F>(pol: Policy<V, F>, previous: Response<Row<V, F>>, next: Response<Row<V, F>>,
                         c: string, r: string)
    requires WellFormed(previous) && WellFormed(next)
    ensures RowIn(Merge(pol, Some(previous), next), c, r) ==
            RowStep(pol, RowIn(previous, c, r), RowIn(next, c, r))
  {
    CollectUnique(previous.categories);
    FindMergeCategories(pol, previous.categories, next.categories, c);
    if Find(next.categories, c).Some? {
      var k := FindValue(next.categories, c);
      if Find(previous.categories, c).Some? {
        var j := FindValue(previous.categories, c);
        CollectUnique(previous.categories[j].value.rows);
        FindMergeRows(pol, previous.categories[j].value.rows, next.categories[k].value.rows, r);
      }
    }
  }

  predicate History<R>(responses: seq<Response<R>>) {
    forall i :: 0 <= i < |responses| ==> WellFormed(responses[i])
  }

  lemma {:induction false} StateWellFormed<V, F>(pol: Policy<V, F>, h: seq<Response<Row<V, F>>>, k: nat)
    requires History(h) && 0 < k <= |h|
    ensures WellFormed(MergeFirst(pol, None, h, k).value)
  {
    if k > 1 {
      StateWellFormed(pol, h, k - 1);
      MergeWellFormed(pol, MergeFirst(pol, None, h, k - 1).value, h[k - 1]);
    }
  }

  /** The row of the state after `k` responses. */
  function StateRow<V, F>(pol: Policy<V, F>, h: seq<Response<Row<V, F>>>, k: nat, c: string, r: string)
    : Option<Row<V, F>>
    requires k <= |h|
  {
    if k == 0 then None else RowIn(MergeFirst(pol, None, h, k).value, c, r)
  }

  lemma StateRowStep<V, F>(pol: Policy<V, F>, h: seq<Response<Row<V, F>>>, k: nat, c: string, r: string)
    requires History(h) && 0 < k <= |h|
    ensures StateRow(pol, h, k, c, r) == RowStep(pol, StateRow(pol, h, k - 1, c, r), RowIn(h[k - 1], c, r))
  {
    if k > 1 {
      StateWellFormed(pol, h, k - 1);
      MergeRowIn(pol, MergeFirst(pol, None, h, k - 1).value, h[k - 1], c, r);
    } else {
      assert MergeFirst(pol, None, h, 0).None?;
    }
  }

  /** What each response says about one row. */
  function Answers<R>(h: seq<Response<R>>, c: string, r: string): (answers: seq<Option<R>>)
    ensures |answers| == |h|
  {
    seq(|h|, i requires 0 <= i < |h| => RowIn(h[i], c, r))
  }

  /** One row's own merges, apart from the rest of the state. */
  function FoldRow<V, F>(pol: Policy<V, F>, answers: seq<Option<Row<V, F>>>, k: nat): Option<Row<V, F>>
    requires k <= |answers|
  {
    if k == 0 then None else RowStep(pol, FoldRow(pol, answers, k - 1), answers[k - 1])
  }

  lemma {:induction false} StepsFold<V, F>(pol: Policy<V, F>, rows: seq<Option<Row<V, F>>>,
                                           answers: seq<Option<Row<V, F>>>, k: nat)
    requires k <= |answers| < |rows| && rows[0].None?
    requires forall i, j :: 0 <= i < |answers| && j == i + 1 ==> rows[j] == RowStep(pol, rows[i], answers[i])
    ensures rows[k] == FoldRow(pol, answers, k)
  {
    if k > 0 {
      StepsFold(pol, rows, answers, k - 1);
    }
  }

  lemma {:induction false} StateRowFolds<V, F>(pol: Policy<V, F>, h: seq<Response<Row<V, F>>>, k: nat,
                                               c: string, r: string)
    requires History(h) && k <= |h|
    ensures StateRow(pol, h, k, c, r) == FoldRow(pol, Answers(h, c, r), k)
  {
    var rows := seq(|h| + 1, i requires 0 <= i <= |h| => StateRow(pol, h, i, c, r));
    forall i, j | 0 <= i < |h| && j == i + 1
      ensures rows[j] == RowStep(pol, rows[i], Answers(h, c, r)[i])
    {
      StateRowStep(pol, h, j, c, r);
    }
    StepsFold(pol, rows, Answers(h, c, r), k);
  }

  /** The last of the first `k` answers that names the row, or -1. */
  function LastNamed<R>(answers: seq<Option<R>>, k: nat): (i: int)
    requires k <= |answers|
    ensures -1 <= i < k
    ensures i >= 0 ==> answers[i].Some?
    ensures forall j :: i < j < k ==> answers[j].None?
  {
    if k == 0 then -1 else if answers[k - 1].Some? then k - 1 else LastNamed(answers, k - 1)
  }

  function AnsweredCell<V, F>(answer: Option<Row<V, F>>, tf: Timeframe): Option<Cell<V>> {
    match answer
    case None => None
    case Some(row) => CellOf(row.cells, tf)
  }

  /** The last of the first `k` answers in which the cell was ok, or -1. */
  function LastOk<V, F>(answers: seq<Option<Row<V, F>>>, k: nat, tf: Timeframe): (i: int)
    requires k <= |answers|
    ensures -1 <= i <= LastNamed(answers, k)
    ensures i >= 0 ==> AnsweredCell(answers[i], tf).Some? && AnsweredCell(answers[i], tf).value.status == Ok
    ensures forall j :: i < j < k && AnsweredCell(answers[j], tf).Some? ==>
              AnsweredCell(answers[j], tf).value.status != Ok
  {
    if k == 0 then -1
    else
      match AnsweredCell(answers[k - 1], tf)
      case None => LastOk(answers, k - 1, tf)
      case Some(cell) => if cell.status == Ok then k - 1 else LastOk(answers, k - 1, tf)
  }

  /**
   What a cell shows after `k` responses: the last ok refresh verbatim when that
   was also the last to name the row; the same value marked stale, with the
   reason of the last failure, when later refreshes failed; and without any ok
   refresh, the last answer.
   */
  function ShownCell<V, F>(prefix: string, answers: seq<Option<Row<V, F>>>, k: nat, tf: Timeframe): Option<Cell<V>>
    requires k <= |answers|
  {
    var named, ok := LastNamed(answers, k), LastOk(answers, k, tf);
    if named < 0 then None
    else if ok < 0 || ok == named then AnsweredCell(answers[named], tf)
    else Some(Kept(prefix, AnsweredCell(answers[ok], tf).value, AnsweredCell(answers[named], tf)))
  }

  lemma MergeRowCell<V, F>(pol: Policy<V, F>, prev: Option<Row<V, F>>, next: Row<V, F>, tf: Timeframe)
    ensures CellOf(MergeRow(pol, prev, next).cells, tf) ==
            MergeCell(pol.prefix, AnsweredCell(prev, tf), CellOf(next.cells, tf))
  {
  }

  /** An answer that does not name the row leaves the shown cell; one that does merges into it. */
  lemma ShownCellStep<V, F>(prefix: string, answers: seq<Option<Row<V, F>>>, k: nat, tf: Timeframe)
    requires 0 < k <= |answers|
    ensures answers[k - 1].None? ==>
              && LastNamed(answers, k) == LastNamed(answers, k - 1)
              && ShownCell(prefix, answers, k, tf) == ShownCell(prefix, answers, k - 1, tf)
    ensures answers[k - 1].Some? ==>
              && LastNamed(answers, k) == k - 1
              && ShownCell(prefix, answers, k, tf) ==
                 MergeCell(prefix, ShownCell(prefix, answers, k - 1, tf), AnsweredCell(answers[k - 1], tf))
  {
    if IsOk(AnsweredCell(answers[k - 1], tf)) {
      assert LastOk(answers, k, tf) == k - 1;
    } else {
      assert LastOk(answers, k, tf) == LastOk(answers, k - 1, tf);
    }
  }

  lemma {:induction false} FoldRowShown<V, F>(pol: Policy<V, F>, answers: seq<Option<Row<V, F>>>, k: nat, tf: Timeframe)
    requires k <= |answers|
    ensures FoldRow(pol, answers, k).Some? <==> LastNamed(answers, k) >= 0
    ensures AnsweredCell(FoldRow(pol, answers, k), tf) == ShownCell(pol.prefix, answers, k, tf)
  {
    if k > 0 {
      FoldRowShown(pol, answers, k - 1, tf);
      ShownCellStep(pol.prefix, answers, k, tf);
      if answers[k - 1].Some? {
        MergeRowCell(pol, FoldRow(pol, answers, k - 1), answers[k - 1].value, tf);
      }
    }
  }

  /** Every cell of the state after `k` responses, read off the history. */
  lemma {:induction false} CellHistory<V, F>(pol: Policy<V, F>, h: seq<Response<Row<V, F>>>, k: nat,
                          c: string, r: string, tf: Timeframe)
    requires History(h) && k <= |h|
    ensures StateRow(pol, h, k, c, r).Some? <==> LastNamed(Answers(h, c, r), k) >= 0
    ensures AnsweredCell(StateRow(pol, h, k, c, r), tf) == ShownCell(pol.prefix, Answers(h, c, r), k, tf)
  {
    StateRowFolds(pol, h, k, c, r);
    FoldRowShown(pol, Answers(h, c, r), k, tf);
  }

  /** Once ok, always ok, with the value of the latest ok refresh; stale exactly since a failure. */
  lemma {:induction false} OnceOkStaysOk<V, F>(pol: Policy<V, F>, h: seq<Response<Row<V, F>>>, k: nat,
                            c: string, r: string, tf: Timeframe)
    requires History(h) && k <= |h|
    requires forall i :: 0 <= i < |h| && AnsweredCell(Answers(h, c, r)[i], tf).Some?
                         && AnsweredCell(Answers(h, c, r)[i], tf).value.status == Ok ==>
               AnsweredCell(Answers(h, c, r)[i], tf).value.stale != Some(true)
    ensures var answers := Answers(h, c, r);
            var cell, ok := AnsweredCell(StateRow(pol, h, k, c, r), tf), LastOk(answers, k, tf);
            ok >= 0 ==>
              && cell.Some? && cell.value.status == Ok
              && cell.value.data == AnsweredCell(answers[ok], tf).value.data
              && (cell.value.stale == Some(true) <==> ok < LastNamed(answers, k))
  {
    CellHistory(pol, h, k, c, r, tf);
  }

  // ---------- Arrival order ----------

  /** The category ids of the first `k` responses, in order of arrival. */
  function CategoryArrivals<R>(h: seq<Response<R>>, k: nat): seq<string>
    requires k <= |h|
  {
    if k == 0 then [] else CategoryArrivals(h, k - 1) + Keys(h[k - 1].categories)
  }

  /** The row ids that the first `k` responses list under category `c`. */
  function RowArrivals<R>(h: seq<Response<R>>, k: nat, c: string): seq<string>
    requires k <= |h|
  {
    if k == 0 then []
    else
      match Find(h[k - 1].categories, c)
      case None => RowArrivals(h, k - 1, c)
      case Some(category) => RowArrivals(h, k - 1, c) + Keys(category.rows)
  }

  /** No category is ever lost, and each keeps its first-arrival place. */
  lemma {:induction false} CategoriesKeepOrder<V, F>(pol: Policy<V, F>, h: seq<Response<Row<V, F>>>, k: nat)
    requires History(h) && 0 < k <= |h|
    ensures Keys(MergeFirst(pol, None, h, k).value.categories) == FirstSeen(CategoryArrivals(h, k))
  {
    if k == 1 {
      assert CategoryArrivals(h, 0) + Keys(h[0].categories) == Keys(h[0].categories);
      FirstSeenOfDistinct(Keys(h[0].categories));
      assert MergeFirst(pol, None, h, 0).None?;
    } else {
      var before := MergeFirst(pol, None, h, k - 1).value;
      CategoriesKeepOrder(pol, h, k - 1);
      StateWellFormed(pol, h, k - 1);
      CollectUnique(before.categories);
      MergeCategoriesKeys(pol, before.categories, h[k - 1].categories);
      FirstSeenEarly(CategoryArrivals(h, k - 1), Keys(h[k - 1].categories));
    }
  }

  /** The rows shown under a category, if it has arrived. */
  function ShownRows<R>(state: Response<R>, c: string): seq<Entry<R>> {
    match Find(state.categories, c)
    case None => []
    case Some(category) => category.rows
  }

  lemma MergeShownRows<V, F>(pol: Policy<V, F>, previous: Response<Row<V, F>>, next: Response<Row<V, F>>, c: string)
    requires WellFormed(previous) && WellFormed(next)
    ensures Keys(ShownRows(Merge(pol, Some(previous), next), c))
            == FirstSeen(Keys(ShownRows(previous, c)) + Keys(ShownRows(next, c)))
  {
    var a, b := ShownRows(previous, c), ShownRows(next, c);
    CollectUnique(previous.categories);
    FindMergeCategories(pol, previous.categories, next.categories, c);
    if Find(next.categories, c).Some? {
      var j := FindValue(next.categories, c);
    }
    if Find(previous.categories, c).Some? {
      var i := FindValue(previous.categories, c);
    }
    assert Unique(a) && Unique(b);
    if Find(next.categories, c).None? {
      assert Keys(a) + Keys(b) == Keys(a);
      FirstSeenOfDistinct(Keys(a));
    } else if Find(previous.categories, c).None? {
      assert Keys(a) + Keys(b) == Keys(b);
      FirstSeenOfDistinct(Keys(b));
    } else {
      CollectUnique(a);
      MergeRowsKeys(pol, a, b);
    }
  }

  /** No row is ever lost from its category, and each keeps its first-arrival place. */
  lemma {:induction false} RowsKeepOrder<V, F>(pol: Policy<V, F>, h: seq<Response<Row<V, F>>>, k: nat, c: string)
    requires History(h) && 0 < k <= |h|
    ensures Keys(ShownRows(MergeFirst(pol, None, h, k).value, c)) == FirstSeen(RowArrivals(h, k, c))
  {
    var next := ShownRows(h[k - 1], c);
    assert RowArrivals(h, k, c) == RowArrivals(h, k - 1, c) + Keys(next);
    if k == 1 {
      assert RowArrivals(h, 1, c) == Keys(next);
      if Find(h[0].categories, c).Some? {
        var i := FindValue(h[0].categories, c);
      }
      FirstSeenOfDistinct(Keys(next));
      assert MergeFirst(pol, None, h, 0).None?;
    } else {
      RowsKeepOrder(pol, h, k - 1, c);
      StateWellFormed(pol, h, k - 1);
      MergeShownRows(pol, MergeFirst(pol, None, h, k - 1).value, h[k - 1], c);
      FirstSeenEarly(RowArrivals(h, k - 1, c), Keys(next));
    }
  }

  // ---------- Header and labels ----------

  /** The state is dated by the last response, and lists its timeframes. */
  lemma HeaderIsLast<V, F>(pol: Policy<V, F>, state: Option<Response<Row<V, F>>>,
                           h: seq<Response<Row<V, F>>>, k: nat)
    requires 0 < k <= |h|
    ensures MergeFirst(pol, state, h, k).value.generatedAt == h[k - 1].generatedAt
    ensures MergeFirst(pol, state, h, k).value.timeframes == h[k - 1].timeframes
  {
  }

  /** The last of the first `k` responses that lists the category, or -1. */
  function LastListing<R>(h: seq<Response<R>>, k: nat, c: string): (i: int)
    requires k <= |h|
    ensures -1 <= i < k
    ensures i >= 0 ==> Find(h[i].categories, c).Some?
    ensures forall j :: i < j < k ==> Find(h[j].categories, c).None?
  {
    if k == 0 then -1 else if Find(h[k - 1].categories, c).Some? then k - 1 else LastListing(h, k - 1, c)
  }

  /** A category is on screen once it was listed, under the label of its last listing. */
  lemma {:induction false} LabelIsLast<V, F>(pol: Policy<V, F>, h: seq<Response<Row<V, F>>>, k: nat, c: string)
    requires History(h) && 0 < k <= |h|
    ensures var shown, i := Find(MergeFirst(pol, None, h, k).value.categories, c), LastListing(h, k, c);
            && (shown.Some? <==> i >= 0)
            && (i >= 0 ==> shown.value.categoryLabel == Find(h[i].categories, c).value.categoryLabel)
  {
    if k == 1 {
      assert MergeFirst(pol, None, h, 0).None?;
    } else {
      var before := MergeFirst(pol, None, h, k - 1).value;
      LabelIsLast(pol, h, k - 1, c);
      StateWellFormed(pol, h, k - 1);
      CollectUnique(before.categories);
      FindMergeCategories(pol, before.categories, h[k - 1].categories, c);
    }
  }

  // ---------- Reasons ----------

  /** Why an answer has no good cell, in the words the page shows. */
  predicate Explains<V>(text: string, cell: Option<Cell<V>>) {
    match cell
    case None => text == "unknown"
    case Some(c) =>
      match c.reason
      case Some(reason) => text == reason
      case None =>
        match c.status
        case Ok => text == "ok"
        case Unavailable => text == "unavailable"
        case Unsupported => text == "unsupported"
        case Error => text == "error"
  }

  /** A value kept past a failure says why: the policy's prefix and the last answer's reason. */
  lemma {:induction false} ReasonAfterFailure<V, F>(pol: Policy<V, F>, h: seq<Response<Row<V, F>>>, k: nat,
                                                    c: string, r: string, tf: Timeframe) returns (text: string)
    requires History(h) && k <= |h|
    requires 0 <= LastOk(Answers(h, c, r), k, tf) < LastNamed(Answers(h, c, r), k)
    ensures var cell := AnsweredCell(StateRow(pol, h, k, c, r), tf);
            cell.Some? && cell.value.reason == Some(pol.prefix + text)
    ensures Explains(text, AnsweredCell(Answers(h, c, r)[LastNamed(Answers(h, c, r), k)], tf))
  {
    CellHistory(pol, h, k, c, r, tf);
    text := Why(AnsweredCell(Answers(h, c, r)[LastNamed(Answers(h, c, r), k)], tf));
  }
}
