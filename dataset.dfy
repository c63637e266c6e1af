/**
 * save_to_excel: the dataset file busquedas.xlsx as a sequence of rows. When the file
 * exists its rows are read and the new rows concatenated after them; the whole is
 * written back.
 */
module Dataset {
  import opened Wrappers

  const FileName := "busquedas.xlsx"

  /** One row: Fecha, Titulo, Precio, URL Imagen, URL Producto. */
  datatype Row = Row(date: string, title: string, price: string, imageUrl: Option<string>, productUrl: string)

  /** The rows written back, given the file's rows if it exists (None when it does not). */
  function SaveToExcel(existing: Option<seq<Row>>, data: seq<Row>): (rows: seq<Row>)
    ensures existing.None? ==> rows == data
    ensures existing.Some? ==> |rows| == |existing.value| + |data|
    ensures existing.Some? ==> existing.value <= rows && rows[|existing.value|..] == data
  {
    match existing
    case None => data
    case Some(prior) => prior + data
  }

  /** Merging a then b gives the same rows as merging a + b at once. */
  lemma MergeTwice(existing: Option<seq<Row>>, a: seq<Row>, b: seq<Row>)
    ensures SaveToExcel(Some(SaveToExcel(existing, a)), b) == SaveToExcel(existing, a + b)
  {
    match existing
    case None =>
    case Some(prior) =>
      assert (prior + a) + b == prior + (a + b);
  }

  /** The dataset after one save per batch, in order. */
  function AfterRuns(existing: Option<seq<Row>>, batches: seq<seq<Row>>): Option<seq<Row>>
    decreases |batches|
  {
    if batches == [] then existing
    else AfterRuns(Some(SaveToExcel(existing, batches[0])), batches[1..])
  }

  function Concat(batches: seq<seq<Row>>): seq<Row>
    decreases |batches|
  {
    if batches == [] then [] else batches[0] + Concat(batches[1..])
  }

  /** Repeated runs append every batch, nothing is deduplicated or reordered. */
  lemma {:induction false} AfterRunsAppends(prior: seq<Row>, batches: seq<seq<Row>>)
    ensures AfterRuns(Some(prior), batches) == Some(prior + Concat(batches))
    decreases |batches|
  {
    if batches != [] {
      AfterRunsAppends(prior + batches[0], batches[1..]);
      assert (prior + batches[0]) + Concat(batches[1..]) == prior + (batches[0] + Concat(batches[1..]));
    } else {
      assert prior + [] == prior;
    }
  }

  /** N runs keeping K rows each add N * K rows. */
  lemma {:induction false} AfterRunsCount(prior: seq<Row>, batches: seq<seq<Row>>, k: nat)
    requires forall i :: 0 <= i < |batches| ==> |batches[i]| == k
    ensures AfterRuns(Some(prior), batches).Some?
    ensures |AfterRuns(Some(prior), batches).value| == |prior| + |batches| * k
    decreases |batches|
  {
    if batches != [] {
      AfterRunsCount(prior + batches[0], batches[1..], k);
    }
  }
}
