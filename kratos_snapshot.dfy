/** The Kratos driver that records a structural simulation's displacements
    step by step, stacks them into a snapshot matrix, and writes the left
    singular vectors of that matrix out as a nodal basis keyed by node id.
    The simulation is abstracted as the sequence of node displacements each
    solution step leaves; the singular value decomposition as its result `u`. */
module KratosSnapshot {
  import opened PyText

  /** A node's displacement at the current solution step. */
  datatype Displacement = Displacement(x: real, y: real, z: real)

  /** `basis_POD["rom_settings"]["nodal_unknowns"]`. */
  const NodalUnknowns: seq<string> := ["DISPLACEMENT_X", "DISPLACEMENT_Y", "DISPLACEMENT_Z"]

  /** `Dimensions = len(nodal_unknowns)`: values per node. */
  const Dimensions: nat := |NodalUnknowns|

  /** `node.GetSolutionStepValue(variable, 0)` for the three displacement
      variables. */
  function GetSolutionStepValue(node: Displacement, variable: string): real
  {
    if variable == "DISPLACEMENT_X" then node.x
    else if variable == "DISPLACEMENT_Y" then node.y
    else node.z
  }

  /** `ArrayOfDisplacements` for one step: each node's X, Y and Z, node
      after node. */
  function NodalVector(nodes: seq<Displacement>): (v: seq<real>)
    ensures |v| == Dimensions * |nodes|
  {
    if nodes == [] then []
    else
      var node := nodes[|nodes| - 1];
      NodalVector(nodes[..|nodes| - 1]) + [node.x, node.y, node.z]
  }

  /** Row `row` of a vector lies in the chunk of node `row / 3`. */
  lemma NodeOfRow(row: nat, n: nat)
    requires row < Dimensions * n + Dimensions
    ensures row < Dimensions * n ==> row / Dimensions < n
    ensures row >= Dimensions * n ==> row / Dimensions == n && row % Dimensions == row - Dimensions * n
  {
    assert Dimensions == 3;
  }

  /** Entry 3*i + c of a step's vector is node i's value of the c-th nodal
      unknown: the recording order is the order the basis export names. */
  lemma {:induction false} NodalVectorEntry(nodes: seq<Displacement>, row: nat)
    requires row < Dimensions * |nodes|
    ensures NodalVector(nodes)[row] == GetSolutionStepValue(nodes[row / Dimensions], NodalUnknowns[row % Dimensions])
  {
    var init := nodes[..|nodes| - 1];
    NodeOfRow(row, |init|);
    if row < Dimensions * |init| {
      NodalVectorEntry(init, row);
      assert nodes[row / Dimensions] == init[row / Dimensions];
    }
  }

  lemma NodalVectorEntries(nodes: seq<Displacement>)
    ensures forall row :: 0 <= row < Dimensions * |nodes| ==>
      NodalVector(nodes)[row] == GetSolutionStepValue(nodes[row / Dimensions], NodalUnknowns[row % Dimensions])
  {
    forall row | 0 <= row < Dimensions * |nodes| {
      NodalVectorEntry(nodes, row);
    }
  }

  /** The column a recorded vector fills in a matrix of `rows` rows
      (`SnapshotMatrix[:, i] = Snapshot_i`): the vector itself when its
      length is `rows`, its one value repeated when it has one (numpy
      broadcasting), ValueError otherwise. */
  function ColumnOf(v: seq<real>, rows: nat): (r: Result<seq<real>>)
    ensures r.Ok? <==> (|v| == rows || |v| == 1)
    ensures r.Err? ==> r.error == ValueError
    ensures r.Ok? ==> |r.value| == rows
    ensures r.Ok? ==> forall row :: 0 <= row < rows ==> r.value[row] == (if |v| == rows then v[row] else v[0])
  {
    if |v| == rows then Ok(v)
    else if |v| == 1 then Ok(seq(rows, _ => v[0]))
    else Err(ValueError)
  }

  /** The columns filled by the vectors in order; the first that does not
      fit aborts. */
  function StackColumns(vs: seq<seq<real>>, rows: nat): (r: Result<seq<seq<real>>>)
    ensures r.Ok? ==> |r.value| == |vs|
    ensures r.Ok? ==> forall k :: 0 <= k < |vs| ==> ColumnOf(vs[k], rows) == Ok(r.value[k])
    decreases |vs|
  {
    if vs == [] then Ok([])
    else
      match StackColumns(vs[..|vs| - 1], rows)
      case Err(e) => Err(e)
      case Ok(cs) =>
        match ColumnOf(vs[|vs| - 1], rows)
        case Err(e) => Err(e)
        case Ok(c) => Ok(cs + [c])
  }

  /** `EvaluateQuantityOfInterest` as columns: `container[0]` raises
      IndexError when nothing was recorded; the matrix has as many rows as
      the first vector has entries. */
  function Stacked(container: seq<seq<real>>): (r: Result<seq<seq<real>>>)
    ensures container == [] ==> r == Err(IndexError)
    ensures r.Ok? ==> |r.value| == |container| && forall k :: 0 <= k < |container| ==>
      ColumnOf(container[k], |container[0]|) == Ok(r.value[k])
  {
    if container == [] then Err(IndexError) else StackColumns(container, |container[0]|)
  }

  lemma {:induction false} StackColumnsErrExtends(vs: seq<seq<real>>, k: nat, rows: nat)
    requires k <= |vs| && StackColumns(vs[..k], rows).Err?
    ensures StackColumns(vs, rows) == StackColumns(vs[..k], rows)
    decreases |vs|
  {
    if k < |vs| {
      var init := vs[..|vs| - 1];
      assert init[..k] == vs[..k];
      StackColumnsErrExtends(init, k, rows);
    } else {
      assert vs[..k] == vs;
    }
  }

  lemma StackColumnsStep(vs: seq<seq<real>>, k: nat, rows: nat)
    requires k < |vs| && StackColumns(vs[..k], rows).Ok?
    ensures StackColumns(vs[..k + 1], rows) ==
      match ColumnOf(vs[k], rows)
      case Err(e) => Err(e)
      case Ok(c) => Ok(StackColumns(vs[..k], rows).value + [c])
  {
    assert vs[..k + 1][..k] == vs[..k];
  }

  /** Stacking succeeds exactly when every vector has the first one's
      length or length 1; any other length raises ValueError. */
  lemma {:induction false} StackColumnsOkIff(vs: seq<seq<real>>, rows: nat)
    ensures StackColumns(vs, rows).Ok? <==> forall k :: 0 <= k < |vs| ==> |vs[k]| == rows || |vs[k]| == 1
    ensures StackColumns(vs, rows).Err? ==> StackColumns(vs, rows).error == ValueError
    decreases |vs|
  {
    if vs != [] {
      var init := vs[..|vs| - 1];
      StackColumnsOkIff(init, rows);
      assert forall k :: 0 <= k < |init| ==> init[k] == vs[k];
    }
  }

  /** When every step recorded the same number of values, column k of the
      matrix is exactly the k-th recorded vector. */
  lemma StackedRoundTrip(container: seq<seq<real>>)
    requires |container| > 0
    requires forall k :: 0 <= k < |container| ==> |container[k]| == |container[0]|
    ensures Stacked(container) == Ok(container)
  {
    StackColumnsOkIff(container, |container[0]|);
    var cs := Stacked(container).value;
    forall k | 0 <= k < |container|
      ensures cs[k] == container[k]
    {
      assert ColumnOf(container[k], |container[0]|) == Ok(cs[k]);
    }
    assert cs == container;
  }

  /** The recorder: `StructuralMechanicsAnalysisSavingData`, reduced to the
      list it fills. */
  class StructuralMechanicsAnalysisSavingData {
    /** `self.time_step_solution_container`. */
    var timeStepSolutionContainer: seq<seq<real>>

    constructor ()
      ensures timeStepSolutionContainer == []
    {
      timeStepSolutionContainer := [];
    }

    /** Lines 24-31: one more step's vector is appended, earlier ones are
        kept as they were. */
    method FinalizeSolutionStep(nodes: seq<Displacement>)
      modifies this
      ensures timeStepSolutionContainer == old(timeStepSolutionContainer) + [NodalVector(nodes)]
    {
      var arrayOfDisplacements: seq<real> := [];
      for i := 0 to |nodes|
        invariant arrayOfDisplacements == NodalVector(nodes[..i])
      {
        assert nodes[..i + 1][..i] == nodes[..i];
        arrayOfDisplacements := arrayOfDisplacements + [
          GetSolutionStepValue(nodes[i], "DISPLACEMENT_X"),
          GetSolutionStepValue(nodes[i], "DISPLACEMENT_Y"),
          GetSolutionStepValue(nodes[i], "DISPLACEMENT_Z")];
      }
      assert nodes[..|nodes|] == nodes;
      timeStepSolutionContainer := timeStepSolutionContainer + [arrayOfDisplacements];
    }

    /** `simulation.Run()`: the solution loop finalizes one step after
        another, so each step's vector is appended in step order. */
    method Run(steps: seq<seq<Displacement>>)
      modifies this
      ensures timeStepSolutionContainer == old(timeStepSolutionContainer) + Recorded(steps)
    {
      for k := 0 to |steps|
        invariant timeStepSolutionContainer == old(timeStepSolutionContainer) + Recorded(steps[..k])
      {
        FinalizeSolutionStep(steps[k]);
        assert Recorded(steps[..k + 1]) == Recorded(steps[..k]) + [NodalVector(steps[k])];
      }
      assert steps[..|steps|] == steps;
    }

    /** Lines 34-43: the recorded vectors as the columns of a matrix with
        `len(container[0])` rows, filled column by column. */
    method EvaluateQuantityOfInterest() returns (r: Result<array2<real>>)
      ensures r.Ok? <==> Stacked(timeStepSolutionContainer).Ok?
      ensures r.Err? ==> Stacked(timeStepSolutionContainer) == Err(r.error)
      ensures r.Ok? ==>
        var cols := Stacked(timeStepSolutionContainer).value;
        fresh(r.value) &&
        r.value.Length0 == |timeStepSolutionContainer[0]| &&
        r.value.Length1 == |timeStepSolutionContainer| &&
        forall row, k :: 0 <= row < r.value.Length0 && 0 <= k < r.value.Length1 ==>
          r.value[row, k] == cols[k][row]
    {
      var container := timeStepSolutionContainer;
      if |container| == 0 {
        return Err(IndexError);
      }
      var rows := |container[0]|;
      var snapshotMatrix := new real[rows, |container|]((_, _) => 0.0);
      ghost var cols: seq<seq<real>> := [];
      for i := 0 to |container|
        invariant StackColumns(container[..i], rows) == Ok(cols)
        invariant forall row, k :: 0 <= row < rows && 0 <= k < i ==> snapshotMatrix[row, k] == cols[k][row]
      {
        var column := ColumnOf(container[i], rows);
        StackColumnsStep(container, i, rows);
        if column.Err? {
          StackColumnsErrExtends(container, i + 1, rows);
          return Err(column.error);
        }
        var values := column.value;
        forall row | 0 <= row < rows {
          snapshotMatrix[row, i] := values[row];
        }
        cols := cols + [values];
      }
      assert container[..|container|] == container;
      return Ok(snapshotMatrix);
    }
  }

  /** The vectors recorded by one `FinalizeSolutionStep` per step. */
  function Recorded(steps: seq<seq<Displacement>>): (vs: seq<seq<real>>)
    ensures |vs| == |steps|
    ensures forall k :: 0 <= k < |steps| ==> vs[k] == NodalVector(steps[k])
  {
    seq(|steps|, k requires 0 <= k < |steps| => NodalVector(steps[k]))
  }

  /** A simulation that keeps its nodes yields a matrix with 3 rows per
      node and one column per step, whose entry [3*i + c, k] is node i's
      c-th nodal unknown at step k. */
  lemma RecordedSnapshot(steps: seq<seq<Displacement>>, k: nat, row: nat)
    requires |steps| > 0 && forall j :: 0 <= j < |steps| ==> |steps[j]| == |steps[0]|
    requires k < |steps| && row < Dimensions * |steps[0]|
    ensures Stacked(Recorded(steps)).Ok?
    ensures |Stacked(Recorded(steps)).value| == |steps|
    ensures Stacked(Recorded(steps)).value[k][row] ==
      GetSolutionStepValue(steps[k][row / Dimensions], NodalUnknowns[row % Dimensions])
  {
    StackedRoundTrip(Recorded(steps));
    NodalVectorEntries(steps[k]);
  }

  /** Lines 62-64: a fresh recorder runs the simulation's steps, then
      evaluates its snapshot matrix, which is therefore the stacked vectors
      of those steps, column k being step k. */
  method TrainSnapshotMatrix(steps: seq<seq<Displacement>>) returns (r: Result<array2<real>>)
    ensures r.Err? ==> Stacked(Recorded(steps)) == Err(r.error)
    ensures r.Ok? ==>
      Stacked(Recorded(steps)).Ok? &&
      r.value.Length0 == |NodalVector(steps[0])| && r.value.Length1 == |steps| &&
      forall row, k :: 0 <= row < r.value.Length0 && 0 <= k < r.value.Length1 ==>
        r.value[row, k] == Stacked(Recorded(steps)).value[k][row]
  {
    var simulation := new StructuralMechanicsAnalysisSavingData();
    simulation.Run(steps);
    assert simulation.timeStepSolutionContainer == Recorded(steps);
    r := simulation.EvaluateQuantityOfInterest();
  }

  /** The exported basis: `basis_POD`. */
  datatype RomBasis = RomBasis(
    nodalUnknowns: seq<string>,
    numberOfRomDofs: nat,
    nodalModes: map<int, seq<seq<real>>>)

  /** Rows lo .. hi - 1 of `u`, each as the list of its entries
      (`u[lo:hi].tolist()`). */
  function Rows(u: array2<real>, lo: nat, hi: nat): (r: seq<seq<real>>)
    requires lo <= hi <= u.Length0
    reads u
    ensures |r| == hi - lo
    ensures forall k :: 0 <= k < hi - lo ==> |r[k]| == u.Length1
    ensures forall k, c :: 0 <= k < hi - lo && 0 <= c < u.Length1 ==> r[k][c] == u[lo + k, c]
  {
    seq(hi - lo, k requires 0 <= k < hi - lo reads u =>
      seq(u.Length1, c requires 0 <= c < u.Length1 reads u => u[lo + k, c]))
  }

  /** `int(np.shape(u)[0] / Dimensions)`: the number of nodes. */
  function NodeCount(u: array2<real>): (n: nat)
    ensures Dimensions * n <= u.Length0 < Dimensions * (n + 1)
  {
    u.Length0 / Dimensions
  }

  /** The first row of node id `id`'s chunk. */
  function ChunkStart(id: int): int
  {
    Dimensions * (id - 1)
  }

  /** Lines 77-87: the basis names the three nodal unknowns, has one ROM
      dof per column of `u`, and under each node id 1..N holds that node's
      three rows of `u`. */
  method ExportNodalBasis(u: array2<real>) returns (basis: RomBasis)
    ensures basis.nodalUnknowns == NodalUnknowns
    ensures basis.numberOfRomDofs == u.Length1
    ensures forall id :: id in basis.nodalModes <==> 1 <= id <= NodeCount(u)
    ensures forall id :: 1 <= id <= NodeCount(u) ==>
      0 <= ChunkStart(id) && ChunkStart(id) + Dimensions <= u.Length0 &&
      basis.nodalModes[id] == Rows(u, ChunkStart(id), ChunkStart(id) + Dimensions)
  {
    var nodalModes: map<int, seq<seq<real>>> := map[];
    var nNodes := u.Length0 / Dimensions;
    var i := 0;
    for j := 0 to nNodes
      invariant i == Dimensions * j
      invariant forall id :: id in nodalModes <==> 1 <= id <= j
      invariant forall id :: 1 <= id <= j ==>
        0 <= ChunkStart(id) && ChunkStart(id) + Dimensions <= u.Length0 &&
        nodalModes[id] == Rows(u, ChunkStart(id), ChunkStart(id) + Dimensions)
    {
      // `int(node_Id[j])`: the evenly spaced ids 1, 2, ..., N are whole numbers.
      nodalModes := nodalModes[j + 1 := Rows(u, i, i + Dimensions)];
      i := i + Dimensions;
    }
    return RomBasis(NodalUnknowns, u.Length1, nodalModes);
  }

  /** The chunks of node ids 1..n, concatenated in id order. */
  function Flatten(modes: map<int, seq<seq<real>>>, n: nat): seq<seq<real>>
    requires forall id :: 1 <= id <= n ==> id in modes
  {
    if n == 0 then [] else Flatten(modes, n - 1) + modes[n]
  }

  /** The export loses and repeats no row: concatenating the chunks in id
      order gives back the first 3 * N rows of `u`. */
  lemma {:induction false} ExportRoundTrip(u: array2<real>, modes: map<int, seq<seq<real>>>, n: nat)
    requires n <= NodeCount(u)
    requires forall id :: 1 <= id <= n ==>
      id in modes && 0 <= ChunkStart(id) && ChunkStart(id) + Dimensions <= u.Length0 &&
      modes[id] == Rows(u, ChunkStart(id), ChunkStart(id) + Dimensions)
    ensures Flatten(modes, n) == Rows(u, 0, Dimensions * n)
  {
    if n > 0 {
      ExportRoundTrip(u, modes, n - 1);
      var lo := Dimensions * (n - 1);
      assert ChunkStart(n) == lo;
      assert Rows(u, 0, Dimensions * n) == Rows(u, 0, lo) + Rows(u, lo, lo + Dimensions);
    }
  }
}
