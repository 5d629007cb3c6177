/**
 The heatmap client: a category is cut into chunks, each chunk is refreshed on
 its own, and every response is merged into the state shown so far. The
 momentum and the HACO heatmap run the same merge with different row fields.
 */
module Heatmap {
  import opened Sequences
  import opened Wrappers
  import opened OrderedMap

  datatype Timeframe = W1 | D1 | H4 | H1 | M30

  const SUPPORTED: seq<Timeframe> := [W1, D1, H4, H1, M30]

  datatype Status = Ok | Unavailable | Unsupported | Error

  /** One timeframe of a row; `data` is its value with its provenance fields. */
  datatype Cell<V> = Cell(status: Status, data: V, stale: Option<bool>, reason: Option<string>)

  datatype Row<V, F> = Row(cells: map<Timeframe, Cell<V>>, fields: F)
  datatype Category<R> = Category(categoryLabel: string, rows: seq<Entry<R>>)
  datatype Response<R> = Response(generatedAt: string, timeframes: seq<Timeframe>,
                                  categories: seq<Entry<Category<R>>>)

  /** What sets the two heatmaps apart: the stale-reason prefix and the other fields. */
  datatype Policy<!V, !F> = Policy(prefix: string, carry: (F, F, map<Timeframe, Cell<V>>) -> F)

  // ---------- Chunking ----------

  /** The chunk size in whole rows, one at least. */
  function ChunkLimit(chunkSize: real): (size: nat)
    ensures chunkSize >= 1.0 ==> size as real <= chunkSize < (size + 1) as real
    ensures chunkSize < 1.0 ==> size == 1
    ensures size >= 1
  {
    if chunkSize.Floor >= 1 then chunkSize.Floor else 1
  }

  function Rows<R>(chunks: seq<Entry<Category<R>>>): seq<Entry<R>> {
    if chunks == [] then [] else Rows(chunks[..|chunks| - 1]) + chunks[|chunks| - 1].value.rows
  }

  /** A category with the rows from `from` on, up to a whole chunk of them. */
  function Slice<R>(category: Entry<Category<R>>, from: nat, to: nat): Entry<Category<R>>
    requires from <= to <= |category.value.rows|
  {
    Entry(category.key, Category(category.value.categoryLabel, category.value.rows[from..to]))
  }

  function ChunkEnd(from: nat, size: nat, n: nat): (to: nat)
    requires from <= n
    ensures from <= to <= n
  {
    if from + size <= n then from + size else n
  }

  function ChunksFrom<R>(category: Entry<Category<R>>, size: nat, from: nat): seq<Entry<Category<R>>>
    requires size >= 1 && from <= |category.value.rows|
    decreases |category.value.rows| - from
  {
    var n := |category.value.rows|;
    if from == n then []
    else
      var to := ChunkEnd(from, size, n);
      [Slice(category, from, to)] + ChunksFrom(category, size, to)
  }

  function Chunks<R>(category: Entry<Category<R>>, chunkSize: real): seq<Entry<Category<R>>> {
    if category.value.rows == [] then [Slice(category, 0, 0)]
    else ChunksFrom(category, ChunkLimit(chunkSize), 0)
  }

  method ChunkCategory<R>(category: Entry<Category<R>>, chunkSize: real)
    returns (chunks: seq<Entry<Category<R>>>)
    ensures chunks == Chunks(category, chunkSize)
    ensures chunks != [] && Rows(chunks) == category.value.rows
    ensures forall i :: 0 <= i < |chunks| ==> IsChunk(category, ChunkLimit(chunkSize), chunks[i], i == |chunks| - 1)
  {
    chunks := CutRows(category, ChunkLimit(chunkSize));
    if |chunks| == 0 {
      chunks := [Slice(category, 0, 0)];
    }
    ChunksCover(category, chunkSize);
  }

  /** The loop that steps through the rows. */
  method CutRows<R>(category: Entry<Category<R>>, size: nat) returns (chunks: seq<Entry<Category<R>>>)
    requires size >= 1
    ensures chunks == ChunksFrom(category, size, 0)
    ensures chunks == [] <==> category.value.rows == []
  {
    var rows := category.value.rows;
    chunks := [];
    var index := 0;
    ghost var n := |rows|;
    while index < |rows|
      invariant chunks == [] ==> index == 0
      invariant chunks + ChunksFrom(category, size, if index <= n then index else n)
             == ChunksFrom(category, size, 0)
      invariant index >= n > 0 ==> chunks != []
    {
      var to := if index + size <= |rows| then index + size else |rows|;
      ConcatAssociative(chunks, [Slice(category, index, to)], ChunksFrom(category, size, to));
      chunks := chunks + [Slice(category, index, to)];
      index := index + size;
    }
  }

  lemma {:induction false} RowsConcat<R>(a: seq<Entry<Category<R>>>, b: seq<Entry<Category<R>>>)
    ensures Rows(a + b) == Rows(a) + Rows(b)
  {
    if b == [] {
      assert a + b == a;
    } else {
      RowsConcat(a, b[..|b| - 1]);
      AppendLast(a, b);
      assert Rows(a) + (Rows(b[..|b| - 1]) + b[|b| - 1].value.rows)
          == (Rows(a) + Rows(b[..|b| - 1])) + b[|b| - 1].value.rows;
    }
  }

  lemma {:induction false} ChunksFromRows<R>(category: Entry<Category<R>>, size: nat, from: nat)
    requires size >= 1 && from <= |category.value.rows|
    ensures Rows(ChunksFrom(category, size, from)) == category.value.rows[from..]
    decreases |category.value.rows| - from
  {
    var rows := category.value.rows;
    if from < |rows| {
      var to := ChunkEnd(from, size, |rows|);
      ChunksFromRows(category, size, to);
      var head := [Slice(category, from, to)];
      RowsConcat(head, ChunksFrom(category, size, to));
      assert head[..0] == [] && Rows(head[..0]) == [];
      assert rows[from..] == rows[from..to] + rows[to..];
    }
  }

  /** A chunk of the category: full, or the last one. */
  predicate IsChunk<R>(category: Entry<Category<R>>, size: nat, chunk: Entry<Category<R>>, last: bool) {
    && chunk.key == category.key && chunk.value.categoryLabel == category.value.categoryLabel
    && |chunk.value.rows| <= size
    && (last || |chunk.value.rows| == size)
  }

  lemma {:induction false} ChunksFromShape<R>(category: Entry<Category<R>>, size: nat, from: nat)
    requires size >= 1 && from <= |category.value.rows|
    ensures var chunks, left := ChunksFrom(category, size, from), |category.value.rows| - from;
            && (chunks == [] <==> left == 0)
            && (|chunks| <= 1 <==> left <= size)
            && (forall i :: 0 <= i < |chunks| ==> IsChunk(category, size, chunks[i], i == |chunks| - 1))
    decreases |category.value.rows| - from
  {
    var n := |category.value.rows|;
    if from < n {
      ChunksFromShape(category, size, ChunkEnd(from, size, n));
    }
  }

  /** Chunks keep identity and order: together they are the rows, and only the last is short. */
  lemma ChunksCover<R>(category: Entry<Category<R>>, chunkSize: real)
    ensures var chunks, rows, size := Chunks(category, chunkSize), category.value.rows, ChunkLimit(chunkSize);
            && chunks != [] && Rows(chunks) == rows
            && (|chunks| == 1 <==> |rows| <= size)
            && (forall i :: 0 <= i < |chunks| ==> IsChunk(category, size, chunks[i], i == |chunks| - 1))
  {
    if category.value.rows == [] {
      assert Chunks(category, chunkSize)[..0] == [];
    } else {
      ChunksFromRows(category, ChunkLimit(chunkSize), 0);
      ChunksFromShape(category, ChunkLimit(chunkSize), 0);
    }
  }

  // ---------- Merging, as functions ----------

  function CellOf<V>(cells: map<Timeframe, Cell<V>>, tf: Timeframe): Option<Cell<V>> {
    if tf in cells then Some(cells[tf]) else None
  }

  predicate IsOk<V>(cell: Option<Cell<V>>) {
    cell.Some? && cell.value.status == Ok
  }

  function StatusText(status: Status): string {
    match status
    case Ok => "ok"
    case Unavailable => "unavailable"
    case Unsupported => "unsupported"
    case Error => "error"
  }

  /** Why the refresh of a cell failed: its reason, else its status, else unknown. */
  function Why<V>(cell: Option<Cell<V>>): string {
    match cell
    case None => "unknown"
    case Some(c) => if c.reason.Some? then c.reason.value else StatusText(c.status)
  }

  /** A good value kept although its refresh failed. */
  function Kept<V>(prefix: string, good: Cell<V>, failed: Option<Cell<V>>): Cell<V> {
    good.(stale := Some(true), reason := Some(prefix + Why(failed)))
  }

  function MergeCell<V>(prefix: string, prev: Option<Cell<V>>, next: Option<Cell<V>>): Option<Cell<V>> {
    if !IsOk(next) && IsOk(prev) then Some(Kept(prefix, prev.value, next)) else next
  }

  function MergeCells<V>(prefix: string, prev: map<Timeframe, Cell<V>>, next: map<Timeframe, Cell<V>>)
    : (r: map<Timeframe, Cell<V>>)
    ensures forall tf :: CellOf(r, tf) == MergeCell(prefix, CellOf(prev, tf), CellOf(next, tf))
  {
    map tf: Timeframe | MergeCell(prefix, CellOf(prev, tf), CellOf(next, tf)).Some?
      :: MergeCell(prefix, CellOf(prev, tf), CellOf(next, tf)).value
  }

  function MergeRow<V, F>(pol: Policy<V, F>, prev: Option<Row<V, F>>, next: Row<V, F>): Row<V, F> {
    match prev
    case None => next
    case Some(p) =>
      var cells := MergeCells(pol.prefix, p.cells, next.cells);
      Row(cells, pol.carry(p.fields, next.fields, cells))
  }

  function MergeRows<V, F>(pol: Policy<V, F>, rows: seq<Entry<Row<V, F>>>, next: seq<Entry<Row<V, F>>>)
    : seq<Entry<Row<V, F>>>
  {
    if next == [] then rows
    else
      var before := MergeRows(pol, rows, next[..|next| - 1]);
      var last := next[|next| - 1];
      Set(before, last.key, MergeRow(pol, Find(before, last.key), last.value))
  }

  function MergeCategory<V, F>(pol: Policy<V, F>, prev: Option<Category<Row<V, F>>>, next: Category<Row<V, F>>)
    : Category<Row<V, F>>
  {
    match prev
    case None => next
    case Some(p) => Category(next.categoryLabel, MergeRows(pol, Collect(p.rows), next.rows))
  }

  function MergeCategories<V, F>(pol: Policy<V, F>, cats: seq<Entry<Category<Row<V, F>>>>,
                                 next: seq<Entry<Category<Row<V, F>>>>)
    : seq<Entry<Category<Row<V, F>>>>
  {
    if next == [] then cats
    else
      var before := MergeCategories(pol, cats, next[..|next| - 1]);
      var last := next[|next| - 1];
      Set(before, last.key, MergeCategory(pol, Find(before, last.key), last.value))
  }

  function Merge<V, F>(pol: Policy<V, F>, previous: Option<Response<Row<V, F>>>, next: Response<Row<V, F>>)
    : Response<Row<V, F>>
  {
    match previous
    case None => next
    case Some(p) =>
      Response(next.generatedAt, next.timeframes, MergeCategories(pol, Collect(p.categories), next.categories))
  }

  // ---------- Merging, as the loops ----------

  method MergeScores<V>(prefix: string, prev: map<Timeframe, Cell<V>>, next: map<Timeframe, Cell<V>>)
    returns (scores: map<Timeframe, Cell<V>>)
    ensures scores == MergeCells(prefix, prev, next)
  {
    scores := next;
    for i := 0 to |SUPPORTED|
      invariant forall tf :: CellOf(scores, tf) ==
                  if tf in SUPPORTED[..i] then MergeCell(prefix, CellOf(prev, tf), CellOf(next, tf))
                  else CellOf(next, tf)
    {
      var timeframe := SUPPORTED[i];
      var nextCell, previousCell := CellOf(next, timeframe), CellOf(prev, timeframe);
      if !IsOk(nextCell) && IsOk(previousCell) {
        scores := scores[timeframe := Kept(prefix, previousCell.value, nextCell)];
      }
    }
    forall tf: Timeframe
      ensures CellOf(scores, tf) == CellOf(MergeCells(prefix, prev, next), tf)
    {
      AllSupported(tf);
    }
    SameCells(scores, MergeCells(prefix, prev, next));
  }

  lemma AllSupported(tf: Timeframe)
    ensures tf in SUPPORTED[..|SUPPORTED|]
  {
    assert SUPPORTED[..|SUPPORTED|] == SUPPORTED;
    assert SUPPORTED[0] == W1 && SUPPORTED[1] == D1 && SUPPORTED[2] == H4
        && SUPPORTED[3] == H1 && SUPPORTED[4] == M30;
  }

  lemma SameCells<V>(a: map<Timeframe, Cell<V>>, b: map<Timeframe, Cell<V>>)
    requires forall tf :: CellOf(a, tf) == CellOf(b, tf)
    ensures a == b
  {
    forall tf: Timeframe
      ensures (tf in a <==> tf in b) && (tf in a ==> a[tf] == b[tf])
    {
      assert CellOf(a, tf) == CellOf(b, tf);
    }
  }

  /** The row loop for a category already shown. */
  method MergeRowsInto<V, F>(pol: Policy<V, F>, existing: Category<Row<V, F>>, nextRows: seq<Entry<Row<V, F>>>)
    returns (rows: seq<Entry<Row<V, F>>>)
    ensures rows == MergeRows(pol, Collect(existing.rows), nextRows)
  {
    rows := Collect(existing.rows);
    for k := 0 to |nextRows|
      invariant rows == MergeRows(pol, Collect(existing.rows), nextRows[..k])
    {
      var nextRow := nextRows[k];
      assert nextRows[..k + 1][..k] == nextRows[..k];
      var previousRow := Find(rows, nextRow.key);
      if previousRow.None? {
        rows := Set(rows, nextRow.key, nextRow.value);
        continue;
      }
      var scores := MergeScores(pol.prefix, previousRow.value.cells, nextRow.value.cells);
      rows := Set(rows, nextRow.key,
                  Row(scores, pol.carry(previousRow.value.fields, nextRow.value.fields, scores)));
    }
    assert nextRows[..|nextRows|] == nextRows;
  }

  method MergeResponse<V, F>(pol: Policy<V, F>, previous: Option<Response<Row<V, F>>>, next: Response<Row<V, F>>)
    returns (merged: Response<Row<V, F>>)
    ensures merged == Merge(pol, previous, next)
    ensures merged.generatedAt == next.generatedAt && merged.timeframes == next.timeframes
    ensures previous.None? ==> merged == next
  {
    if previous.None? {
      return next;
    }
    var categories := Collect(previous.value.categories);
    ghost var start := categories;
    for i := 0 to |next.categories|
      invariant categories == MergeCategories(pol, start, next.categories[..i])
    {
      var nextCategory := next.categories[i];
      assert next.categories[..i + 1][..i] == next.categories[..i];
      var existing := Find(categories, nextCategory.key);
      if existing.None? {
        categories := Set(categories, nextCategory.key, nextCategory.value);
        continue;
      }
      var rows := MergeRowsInto(pol, existing.value, nextCategory.value.rows);
      categories := Set(categories, nextCategory.key, Category(nextCategory.value.categoryLabel, rows));
    }
    assert next.categories[..|next.categories|] == next.categories;
    merged := Response(next.generatedAt, next.timeframes, categories);
  }
}
