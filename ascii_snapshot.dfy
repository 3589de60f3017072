/** `create_snapshotmatrix_from_file`: the snapshot matrix of an ASCII
    result file written by Compass, one column per `Result "Displacements (m)"`
    block, the rows of a column being the nodes' x, y and z displacements,
    node after node. The file is given as its list of lines (`readlines()`). */
module AsciiSnapshot {
  import opened PyText
  import opened ResFile

  /** The text that marks a displacement header line. */
  const DisplacementMarker: string := "Result \"Displacements (m)\""

  /** `'Result "Displacements (m)"' in line`. */
  predicate IsDisplacementHeader(line: string)
  {
    Contains(line, DisplacementMarker)
  }

  /** The header lines among the first `n` lines, in file order. */
  function Headers(lines: seq<string>, n: nat): (hs: seq<nat>)
    requires n <= |lines|
    ensures forall k :: 0 <= k < |hs| ==> hs[k] < n
    decreases n
  {
    if n == 0 then []
    else Headers(lines, n - 1) + (if IsDisplacementHeader(lines[n - 1]) then [n - 1] else [])
  }

  /** Every position listed carries the marker, and they increase strictly. */
  lemma {:induction false} HeadersSound(lines: seq<string>, n: nat)
    requires n <= |lines|
    ensures forall k :: 0 <= k < |Headers(lines, n)| ==> IsDisplacementHeader(lines[Headers(lines, n)[k]])
    ensures forall k, j :: 0 <= k < j < |Headers(lines, n)| ==> Headers(lines, n)[k] < Headers(lines, n)[j]
  {
    if n > 0 {
      HeadersSound(lines, n - 1);
    }
  }

  /** Every line that carries the marker is listed. */
  lemma {:induction false} HeadersComplete(lines: seq<string>, n: nat)
    requires n <= |lines|
    ensures forall i :: 0 <= i < n && IsDisplacementHeader(lines[i]) ==> i in Headers(lines, n)
  {
    if n > 0 {
      HeadersComplete(lines, n - 1);
    }
  }

  lemma {:induction false} HeadersPrefix(lines: seq<string>, n: nat, m: nat)
    requires n <= m <= |lines|
    ensures Headers(lines, n) <= Headers(lines, m)
    decreases m
  {
    if n < m {
      HeadersPrefix(lines, n, m - 1);
    }
  }

  /** The `for i_line, line in enumerate(lines)` loop: every header appends
      its time to `t` and its block to `values_list`. */
  method ScanDisplacementBlocks(lines: seq<string>, toFloat: string -> Option<real>)
    returns (r: Result<Scanned>)
    ensures r == Collect(lines, DisplacementTime, Headers(lines, |lines|), toFloat)
  {
    var t: seq<real> := [];
    var valuesList: seq<seq<string>> := [];
    for i := 0 to |lines|
      invariant Collect(lines, DisplacementTime, Headers(lines, i), toFloat) == Ok(Scanned(t, valuesList))
    {
      var next := ScanLine(lines, i, toFloat, t, valuesList);
      if next.Err? {
        HeadersPrefix(lines, i + 1, |lines|);
        CollectErrExtends(lines, DisplacementTime, Headers(lines, i + 1), Headers(lines, |lines|), toFloat);
        return next;
      }
      t, valuesList := next.value.scalars, next.value.blocks;
    }
    return Ok(Scanned(t, valuesList));
  }

  /** The loop body for line i (lines 27-36): a header appends its time to
      `t` and its block to `values_list`; any other line leaves both. */
  method ScanLine(lines: seq<string>, i: nat, toFloat: string -> Option<real>,
                  t: seq<real>, valuesList: seq<seq<string>>)
    returns (r: Result<Scanned>)
    requires i < |lines|
    requires Collect(lines, DisplacementTime, Headers(lines, i), toFloat) == Ok(Scanned(t, valuesList))
    ensures r == Collect(lines, DisplacementTime, Headers(lines, i + 1), toFloat)
  {
    if !IsDisplacementHeader(lines[i]) {
      assert Headers(lines, i + 1) == Headers(lines, i);
      return Ok(Scanned(t, valuesList));
    }
    var entry := ReadEntry(lines, DisplacementTime, i, toFloat);
    CollectSnoc(lines, DisplacementTime, Headers(lines, i), i, toFloat);
    if entry.Err? {
      return Err(entry.error);
    }
    return Ok(Scanned(t + [entry.value.0], valuesList + [entry.value.1]));
  }

  /** The columns of the matrix, one per block in order, each the first `n`
      rows of its block flattened; the first column that fails aborts. */
  function Columns(blocks: seq<seq<string>>, n: nat, toFloat: string -> Option<real>)
    : (r: Result<seq<seq<real>>>)
    ensures r.Ok? ==> |r.value| == |blocks|
    ensures r.Ok? ==> forall k :: 0 <= k < |blocks| ==> Column(blocks[k], n, toFloat) == Ok(r.value[k])
    decreases |blocks|
  {
    if blocks == [] then Ok([])
    else
      match Columns(blocks[..|blocks| - 1], n, toFloat)
      case Err(e) => Err(e)
      case Ok(cs) =>
        match Column(blocks[|blocks| - 1], n, toFloat)
        case Err(e) => Err(e)
        case Ok(c) => Ok(cs + [c])
  }

  /** All columns exist exactly when each block yields its column. */
  lemma {:induction false} ColumnsOkIff(blocks: seq<seq<string>>, n: nat, toFloat: string -> Option<real>)
    ensures Columns(blocks, n, toFloat).Ok? <==>
      forall k :: 0 <= k < |blocks| ==> Column(blocks[k], n, toFloat).Ok?
    decreases |blocks|
  {
    if blocks != [] {
      var init := blocks[..|blocks| - 1];
      ColumnsOkIff(init, n, toFloat);
      assert forall k :: 0 <= k < |init| ==> init[k] == blocks[k];
      if !Columns(init, n, toFloat).Ok? {
        var k :| 0 <= k < |init| && !Column(init[k], n, toFloat).Ok?;
        assert !Column(blocks[k], n, toFloat).Ok?;
      }
    }
  }

  lemma {:induction false} ColumnsErrExtends(
    blocks: seq<seq<string>>, k: nat, n: nat, toFloat: string -> Option<real>)
    requires k <= |blocks| && Columns(blocks[..k], n, toFloat).Err?
    ensures Columns(blocks, n, toFloat) == Columns(blocks[..k], n, toFloat)
    decreases |blocks|
  {
    if k < |blocks| {
      var init := blocks[..|blocks| - 1];
      assert init[..k] == blocks[..k];
      ColumnsErrExtends(init, k, n, toFloat);
    } else {
      assert blocks[..k] == blocks;
    }
  }

  /** Adding block k to the first k blocks adds its column, or its failure. */
  lemma ColumnsStep(blocks: seq<seq<string>>, k: nat, n: nat, toFloat: string -> Option<real>)
    requires k < |blocks| && Columns(blocks[..k], n, toFloat).Ok?
    ensures Columns(blocks[..k + 1], n, toFloat) ==
      match Column(blocks[k], n, toFloat)
      case Err(e) => Err(e)
      case Ok(c) => Ok(Columns(blocks[..k], n, toFloat).value + [c])
  {
    assert blocks[..k + 1][..k] == blocks[..k];
  }

  /** The `for i_node` loop (lines 45-51): `values_to_list`, the x, y and z
      of the first `n` rows of a block, converted row after row. */
  method FlattenRows(block: seq<string>, n: nat, toFloat: string -> Option<real>)
    returns (r: Result<seq<real>>)
    ensures r == Column(block, n, toFloat)
  {
    var values: seq<real> := [];
    for i := 0 to n
      invariant Column(block, i, toFloat) == Ok(values)
    {
      var x, y, z := Err(IndexError), Err(IndexError), Err(IndexError);
      if i < |block| {
        x := Field(block[i], 1, toFloat);
        if x.Ok? {
          y := Field(block[i], 2, toFloat);
          if y.Ok? {
            z := Field(block[i], 3, toFloat);
          }
        }
      }
      if x.Err? || y.Err? || z.Err? {
        var e := if x.Err? then x.error else if y.Err? then y.error else z.error;
        assert Column(block, i + 1, toFloat) == Err(e);
        ColumnErrExtends(block, i + 1, n, toFloat);
        return Err(e);
      }
      values := values + [x.value, y.value, z.value];
    }
    return Ok(values);
  }

  /** Line 53: `snapshot_mtx[:, k] = values`; every other column keeps its
      entries. */
  method WriteColumn(a: array2<real>, k: nat, values: seq<real>)
    requires k < a.Length1 && |values| == a.Length0
    modifies a
    ensures forall row, j :: 0 <= row < a.Length0 && 0 <= j < a.Length1 ==>
      a[row, j] == (if j == k then values[row] else old(a[row, j]))
  {
    forall row | 0 <= row < a.Length0 {
      a[row, k] := values[row];
    }
  }

  /** Lines 38-55: `nb_nodes` is the first block's row count, the matrix is
      allocated with shape (3 * nb_nodes, number of blocks) and filled column
      by column; block k's first nb_nodes rows give column k. */
  method FillSnapshotMatrix(blocks: seq<seq<string>>, toFloat: string -> Option<real>)
    returns (r: Result<array2<real>>)
    ensures |blocks| == 0 ==> r == Err(IndexError)
    ensures |blocks| > 0 ==>
      var expected := Columns(blocks, |blocks[0]|, toFloat);
      (r.Ok? <==> expected.Ok?) &&
      (r.Err? ==> r.error == expected.error) &&
      (r.Ok? ==>
        fresh(r.value) &&
        r.value.Length0 == Dof * |blocks[0]| && r.value.Length1 == |blocks| &&
        forall row, k :: 0 <= row < r.value.Length0 && 0 <= k < r.value.Length1 ==>
          r.value[row, k] == expected.value[k][row])
  {
    if |blocks| == 0 {
      return Err(IndexError);
    }
    var nbNodes := |blocks[0]|;
    var nbTimeSteps := |blocks|;
    var snapshot := new real[Dof * nbNodes, nbTimeSteps];
    ghost var cols: seq<seq<real>> := [];
    for k := 0 to nbTimeSteps
      invariant Columns(blocks[..k], nbNodes, toFloat) == Ok(cols)
      invariant forall row, k' :: 0 <= row < Dof * nbNodes && 0 <= k' < k ==>
        snapshot[row, k'] == cols[k'][row]
    {
      var column := FlattenRows(blocks[k], nbNodes, toFloat);
      ColumnsStep(blocks, k, nbNodes, toFloat);
      if column.Err? {
        ColumnsErrExtends(blocks, k + 1, nbNodes, toFloat);
        assert blocks[..|blocks|] == blocks;
        return Err(column.error);
      }
      WriteColumn(snapshot, k, column.value);
      cols := cols + [column.value];
    }
    assert blocks[..nbTimeSteps] == blocks;
    return Ok(snapshot);
  }

  /** The matrix the function returns, as its list of columns, or the
      exception it raises. */
  function SnapshotColumns(lines: seq<string>, toFloat: string -> Option<real>): Result<seq<seq<real>>>
  {
    match Collect(lines, DisplacementTime, Headers(lines, |lines|), toFloat)
    case Err(e) => Err(e)
    case Ok(s) =>
      if |s.blocks| == 0 then Err(IndexError) else Columns(s.blocks, |s.blocks[0]|, toFloat)
  }

  /** `create_snapshotmatrix_from_file(path_file)` once the file is read.
      The times collected in `t` are not returned. */
  method CreateSnapshotMatrixFromFile(lines: seq<string>, toFloat: string -> Option<real>)
    returns (r: Result<array2<real>>)
    ensures r.Ok? <==> SnapshotColumns(lines, toFloat).Ok?
    ensures r.Err? ==> r.error == SnapshotColumns(lines, toFloat).error
    ensures r.Ok? ==>
      var cols := SnapshotColumns(lines, toFloat).value;
      fresh(r.value) && r.value.Length1 == |cols| &&
      (forall k :: 0 <= k < |cols| ==> |cols[k]| == r.value.Length0) &&
      forall row, k :: 0 <= row < r.value.Length0 && 0 <= k < r.value.Length1 ==>
        r.value[row, k] == cols[k][row]
  {
    var scan := ScanDisplacementBlocks(lines, toFloat);
    if scan.Err? {
      return Err(scan.error);
    }
    r := FillSnapshotMatrix(scan.value.blocks, toFloat);
  }

  lemma {:induction false} NoHeaders(lines: seq<string>, n: nat)
    requires n <= |lines|
    requires forall i :: 0 <= i < n ==> !IsDisplacementHeader(lines[i])
    ensures Headers(lines, n) == []
  {
    if n > 0 {
      NoHeaders(lines, n - 1);
    }
  }

  /** With no header in the file, reading `values_list[0]` raises IndexError. */
  lemma NoHeaderFails(lines: seq<string>, toFloat: string -> Option<real>)
    requires forall i :: 0 <= i < |lines| ==> !IsDisplacementHeader(lines[i])
    ensures SnapshotColumns(lines, toFloat) == Err(IndexError)
  {
    NoHeaders(lines, |lines|);
  }

  /** A header whose rows run to the end of the input makes the row loop
      read past the last line: the function fails. */
  lemma UnterminatedBlockFails(lines: seq<string>, h: nat, toFloat: string -> Option<real>)
    requires h < |lines| && IsDisplacementHeader(lines[h])
    requires forall k :: FirstRow(h) <= k < |lines| ==> IsNodeRow(lines[k])
    ensures SnapshotColumns(lines, toFloat).Err?
  {
    var hs := Headers(lines, |lines|);
    HeadersComplete(lines, |lines|);
    BlockAtCharacterized(lines, h);
    forall e: nat ensures !TerminatesAt(lines, FirstRow(h), e) {
      if FirstRow(h) <= e < |lines| {
        assert IsNodeRow(lines[e]);
      }
    }
    assert !Entry(lines, DisplacementTime, h, toFloat).Ok?;
    var k :| 0 <= k < |hs| && hs[k] == h;
    CollectOk(lines, DisplacementTime, hs, toFloat);
  }

  /** Only the first block's row count is used: a later block with fewer
      rows makes `values_list[i_time_step][i_node]` raise. */
  lemma ShortLaterBlockFails(lines: seq<string>, k: nat, toFloat: string -> Option<real>)
    requires Collect(lines, DisplacementTime, Headers(lines, |lines|), toFloat).Ok?
    requires 0 < k < |Headers(lines, |lines|)|
    requires |Collect(lines, DisplacementTime, Headers(lines, |lines|), toFloat).value.blocks[k]| <
             |Collect(lines, DisplacementTime, Headers(lines, |lines|), toFloat).value.blocks[0]|
    ensures SnapshotColumns(lines, toFloat).Err?
  {
    var blocks := Collect(lines, DisplacementTime, Headers(lines, |lines|), toFloat).value.blocks;
    ColumnsOkIff(blocks, |blocks[0]|, toFloat);
    assert !Column(blocks[k], |blocks[0]|, toFloat).Ok?;
  }

  /** The matrix has one column per header, in file order, and
      3 * (row count of the first block) rows. */
  lemma SnapshotShape(lines: seq<string>, toFloat: string -> Option<real>)
    requires SnapshotColumns(lines, toFloat).Ok?
    ensures var hs := Headers(lines, |lines|);
      |hs| > 0 && BlockAt(lines, hs[0]).Ok? &&
      |SnapshotColumns(lines, toFloat).value| == |hs| &&
      forall k :: 0 <= k < |hs| ==>
        |SnapshotColumns(lines, toFloat).value[k]| == Dof * |BlockAt(lines, hs[0]).value|
  {
    var hs := Headers(lines, |lines|);
    CollectOk(lines, DisplacementTime, hs, toFloat);
    var s := Collect(lines, DisplacementTime, hs, toFloat).value;
    assert Entry(lines, DisplacementTime, hs[0], toFloat).Ok?;
  }

  /** Entry `row` of column k was read from its line of the file: field
      `row % 3 + 1` of line `h + 3 + row / 3`, for the k-th header line `h`. */
  predicate ReadFromLine(lines: seq<string>, toFloat: string -> Option<real>,
    hs: seq<nat>, cols: seq<seq<real>>, k: nat, row: nat)
  {
    k < |hs| && k < |cols| && row < |cols[k]| && FirstRow(hs[k]) + row / Dof < |lines| &&
    Field(lines[FirstRow(hs[k]) + row / Dof], row % Dof + 1, toFloat) == Ok(cols[k][row])
  }

  /** One entry of the matrix, traced back to its line of the file. */
  lemma EntryFromLine(lines: seq<string>, toFloat: string -> Option<real>, k: nat, row: nat)
    requires SnapshotColumns(lines, toFloat).Ok?
    requires k < |SnapshotColumns(lines, toFloat).value|
    requires row < |SnapshotColumns(lines, toFloat).value[k]|
    ensures ReadFromLine(lines, toFloat, Headers(lines, |lines|), SnapshotColumns(lines, toFloat).value, k, row)
  {
    var hs := Headers(lines, |lines|);
    var cols := SnapshotColumns(lines, toFloat).value;
    var blocks := Collect(lines, DisplacementTime, hs, toFloat).value.blocks;
    var n := |blocks[0]|;
    CollectBlock(lines, DisplacementTime, hs, toFloat, k);
    assert Column(blocks[k], n, toFloat) == Ok(cols[k]);
    ColumnField(blocks[k], n, toFloat, row);
    BlockRow(lines, hs[k], row / Dof);
  }

  /** Every entry of the matrix: entry [3*i + c, k] is field c + 1 of node
      row i of the k-th block, that is of line `h + 3 + i` for the k-th
      header line `h`. */
  lemma SnapshotEntries(lines: seq<string>, toFloat: string -> Option<real>)
    requires SnapshotColumns(lines, toFloat).Ok?
    ensures var hs := Headers(lines, |lines|);
      var cols := SnapshotColumns(lines, toFloat).value;
      |cols| == |hs| &&
      forall k, row :: 0 <= k < |cols| && 0 <= row < |cols[k]| ==> ReadFromLine(lines, toFloat, hs, cols, k, row)
  {
    var hs := Headers(lines, |lines|);
    var cols := SnapshotColumns(lines, toFloat).value;
    SnapshotShape(lines, toFloat);
    forall k, row | 0 <= k < |cols| && 0 <= row < |cols[k]|
      ensures ReadFromLine(lines, toFloat, hs, cols, k, row)
    {
      EntryFromLine(lines, toFloat, k, row);
    }
  }
}
