/** The module-level script that builds a synthetic snapshot array from the
    eigenmodes of a RamSeries modal analysis: it collects the frequency and
    the node block of every `Result "Mode_<m>_` header for the chosen modes,
    then writes each node's x, y and z amplitude, times a sine in time, into
    slab `i_mode` of a 3-D array of shape
    (number of modes, 3 * number of nodes, number of time steps). */
module ModalSnapshot {
  import opened PyText
  import opened ResFile

  /** `f'Result "Mode_{mode}_'`. */
  function ModeMarker(mode: int): string
  {
    "Result \"Mode_" + DecimalString(mode) + "_"
  }

  /** The rotation results of a mode share its header text and are skipped. */
  const RotationMarker: string := "Modes_rotations"

  /** `f'Result "Mode_{mode}_' in line and not "Modes_rotations" in line`. */
  predicate IsModeHeader(line: string, marker: string)
  {
    Contains(line, marker) && !Contains(line, RotationMarker)
  }

  /** The marker of each chosen mode, in the order of `modes`. */
  function ModeMarkers(modes: seq<int>): (markers: seq<string>)
    ensures |markers| == |modes|
    ensures forall q :: 0 <= q < |modes| ==> markers[q] == ModeMarker(modes[q])
  {
    seq(|modes|, q requires 0 <= q < |modes| => ModeMarker(modes[q]))
  }

  /** A match of the nested scan loop: line `line` is a header for
      `markers[modeIndex]`. */
  datatype ModeMatch = ModeMatch(line: nat, modeIndex: nat)

  /** `p` comes before `q` in the scan: by line, then by position in `markers`. */
  predicate Precedes(p: ModeMatch, q: ModeMatch)
  {
    p.line < q.line || (p.line == q.line && p.modeIndex < q.modeIndex)
  }

  /** A position of the nested loops: line `i`, before trying `markers[m]`. */
  predicate ScanPosition(lines: seq<string>, markers: seq<string>, i: nat, m: nat)
  {
    (i < |lines| && m <= |markers|) || (i == |lines| && m == 0)
  }

  /** The matches found before position (i, m), in the order the loops find
      them. */
  function ModeMatches(lines: seq<string>, markers: seq<string>, i: nat, m: nat): (r: seq<ModeMatch>)
    requires ScanPosition(lines, markers, i, m)
    ensures forall k :: 0 <= k < |r| ==> r[k].line < |lines| && r[k].modeIndex < |markers|
    decreases i, m
  {
    if m > 0 then
      ModeMatches(lines, markers, i, m - 1) +
        (if IsModeHeader(lines[i], markers[m - 1]) then [ModeMatch(i, m - 1)] else [])
    else if i > 0 then ModeMatches(lines, markers, i - 1, |markers|)
    else []
  }

  /** Every match is a header for its mode. */
  lemma {:induction false} ModeMatchesHeaders(lines: seq<string>, markers: seq<string>, i: nat, m: nat)
    requires ScanPosition(lines, markers, i, m)
    ensures forall k :: 0 <= k < |ModeMatches(lines, markers, i, m)| ==>
      IsModeHeader(lines[ModeMatches(lines, markers, i, m)[k].line],
        markers[ModeMatches(lines, markers, i, m)[k].modeIndex])
    decreases i, m
  {
    if m > 0 {
      ModeMatchesHeaders(lines, markers, i, m - 1);
      var init, r := ModeMatches(lines, markers, i, m - 1), ModeMatches(lines, markers, i, m);
      forall k | 0 <= k < |r|
        ensures IsModeHeader(lines[r[k].line], markers[r[k].modeIndex])
      {
        if k < |init| {
          assert r[k] == init[k];
        }
      }
    } else if i > 0 {
      ModeMatchesHeaders(lines, markers, i - 1, |markers|);
    }
  }

  /** The matches are in scan order, so each (line, mode) pair occurs once,
      and all come before position (i, m). */
  lemma {:induction false} ModeMatchesOrdered(lines: seq<string>, markers: seq<string>, i: nat, m: nat)
    requires ScanPosition(lines, markers, i, m)
    ensures forall k, j :: 0 <= k < j < |ModeMatches(lines, markers, i, m)| ==>
      Precedes(ModeMatches(lines, markers, i, m)[k], ModeMatches(lines, markers, i, m)[j])
    ensures forall k :: 0 <= k < |ModeMatches(lines, markers, i, m)| ==>
      Precedes(ModeMatches(lines, markers, i, m)[k], ModeMatch(i, m))
    decreases i, m
  {
    if m > 0 {
      ModeMatchesOrdered(lines, markers, i, m - 1);
      var init, r := ModeMatches(lines, markers, i, m - 1), ModeMatches(lines, markers, i, m);
      forall k | 0 <= k < |r|
        ensures Precedes(r[k], ModeMatch(i, m))
      {
        if k < |init| {
          assert r[k] == init[k];
        }
      }
      forall k, j | 0 <= k < j < |r|
        ensures Precedes(r[k], r[j])
      {
        assert r[k] == init[k];
        if j < |init| {
          assert r[j] == init[j];
        } else {
          assert r[j] == ModeMatch(i, m - 1);
        }
      }
    } else if i > 0 {
      ModeMatchesOrdered(lines, markers, i - 1, |markers|);
    }
  }

  /** Every matching (line, mode) pair before position (i, m) is found. */
  lemma {:induction false} ModeMatchesComplete(lines: seq<string>, markers: seq<string>, i: nat, m: nat,
    ln: nat, q: nat)
    requires ScanPosition(lines, markers, i, m)
    requires ln < |lines| && q < |markers| && Precedes(ModeMatch(ln, q), ModeMatch(i, m))
    requires IsModeHeader(lines[ln], markers[q])
    ensures ModeMatch(ln, q) in ModeMatches(lines, markers, i, m)
    decreases i, m
  {
    var r := ModeMatches(lines, markers, i, m);
    if m > 0 {
      var init := ModeMatches(lines, markers, i, m - 1);
      if Precedes(ModeMatch(ln, q), ModeMatch(i, m - 1)) {
        ModeMatchesComplete(lines, markers, i, m - 1, ln, q);
        var k :| 0 <= k < |init| && init[k] == ModeMatch(ln, q);
        assert r[k] == init[k];
      } else {
        assert ln == i && q == m - 1;
        assert r[|r| - 1] == ModeMatch(ln, q);
      }
    } else {
      ModeMatchesComplete(lines, markers, i - 1, |markers|, ln, q);
    }
  }

  lemma PrefixOfPrefix<T>(a: seq<T>, b: seq<T>, c: seq<T>)
    requires a <= b && b <= c
    ensures a <= c
  {
    assert c[..|a|] == c[..|b|][..|a|];
  }

  /** The matches found up to any position begin the full list. */
  lemma {:induction false} ModeMatchesPrefix(lines: seq<string>, markers: seq<string>, i: nat, m: nat)
    requires ScanPosition(lines, markers, i, m)
    ensures ModeMatches(lines, markers, i, m) <= ModeMatches(lines, markers, |lines|, 0)
    decreases |lines| - i, |markers| - m
  {
    if i < |lines| {
      if m < |markers| {
        ModeMatchesPrefix(lines, markers, i, m + 1);
        var here, next := ModeMatches(lines, markers, i, m), ModeMatches(lines, markers, i, m + 1);
        assert next[..|here|] == here;
        PrefixOfPrefix(here, next, ModeMatches(lines, markers, |lines|, 0));
      } else {
        ModeMatchesPrefix(lines, markers, i + 1, 0);
      }
    }
  }

  /** The header line of each match. */
  function LinesOf(ms: seq<ModeMatch>): (r: seq<nat>)
    ensures |r| == |ms| && forall k :: 0 <= k < |ms| ==> r[k] == ms[k].line
  {
    seq(|ms|, k requires 0 <= k < |ms| => ms[k].line)
  }

  /** The header lines the whole scan visits, one per match. */
  function MatchLines(lines: seq<string>, markers: seq<string>): (hs: seq<nat>)
    ensures InRange(lines, hs)
  {
    LinesOf(ModeMatches(lines, markers, |lines|, 0))
  }

  /** Trying `markers[m]` on line i adds line i to the visited headers
      exactly when it matches. */
  lemma MatchLinesStep(lines: seq<string>, markers: seq<string>, i: nat, m: nat)
    requires i < |lines| && m < |markers|
    ensures LinesOf(ModeMatches(lines, markers, i, m + 1)) ==
      LinesOf(ModeMatches(lines, markers, i, m)) + (if IsModeHeader(lines[i], markers[m]) then [i] else [])
  {
  }

  /** The headers visited up to any position begin the full list. */
  lemma MatchLinesPrefix(lines: seq<string>, markers: seq<string>, i: nat, m: nat)
    requires ScanPosition(lines, markers, i, m)
    ensures LinesOf(ModeMatches(lines, markers, i, m)) <= MatchLines(lines, markers)
  {
    ModeMatchesPrefix(lines, markers, i, m);
    var short, full := ModeMatches(lines, markers, i, m), ModeMatches(lines, markers, |lines|, 0);
    assert LinesOf(short) == LinesOf(full)[..|short|];
  }

  /** Lines 24-34: for each line, for each chosen mode, a matching header
      appends its frequency to `frequencies` and its block to `values_list`. */
  method ScanModeBlocks(lines: seq<string>, modes: seq<int>, toFloat: string -> Option<real>)
    returns (r: Result<Scanned>)
    ensures r == Collect(lines, ModeFrequency, MatchLines(lines, ModeMarkers(modes)), toFloat)
  {
    var markers := ModeMarkers(modes);
    var frequencies: seq<real> := [];
    var valuesList: seq<seq<string>> := [];
    for i := 0 to |lines|
      invariant Collect(lines, ModeFrequency, LinesOf(ModeMatches(lines, markers, i, 0)), toFloat) ==
        Ok(Scanned(frequencies, valuesList))
    {
      for m := 0 to |markers|
        invariant Collect(lines, ModeFrequency, LinesOf(ModeMatches(lines, markers, i, m)), toFloat) ==
          Ok(Scanned(frequencies, valuesList))
      {
        var hs := LinesOf(ModeMatches(lines, markers, i, m));
        MatchLinesStep(lines, markers, i, m);
        if !IsModeHeader(lines[i], markers[m]) {
          assert hs + [] == hs;
        } else {
          assert (hs + [i])[..|hs|] == hs;
          var entry := ReadEntry(lines, ModeFrequency, i, toFloat);
          if entry.Err? {
            MatchLinesPrefix(lines, markers, i, m + 1);
            CollectErrExtends(lines, ModeFrequency, hs + [i], MatchLines(lines, markers), toFloat);
            return Err(entry.error);
          }
          frequencies := frequencies + [entry.value.0];
          valuesList := valuesList + [entry.value.1];
        }
      }
    }
    return Ok(Scanned(frequencies, valuesList));
  }

  /** Entry k of `frequencies` and of `values_list` both come from match k:
      the frequency is field 2 of its header cut before the first `)`, the
      block is read by the rule shared with the displacement parser. */
  lemma ModeScanEntries(lines: seq<string>, markers: seq<string>, toFloat: string -> Option<real>, k: nat)
    requires Collect(lines, ModeFrequency, MatchLines(lines, markers), toFloat).Ok?
    requires k < |ModeMatches(lines, markers, |lines|, 0)|
    ensures var p := ModeMatches(lines, markers, |lines|, 0)[k];
      var s := Collect(lines, ModeFrequency, MatchLines(lines, markers), toFloat).value;
      IsModeHeader(lines[p.line], markers[p.modeIndex]) &&
      k < |s.scalars| && k < |s.blocks| &&
      HeaderScalar(ModeFrequency, lines[p.line], toFloat) == Ok(s.scalars[k]) &&
      BlockAt(lines, p.line) == Ok(s.blocks[k])
  {
    var hs := MatchLines(lines, markers);
    ModeMatchesHeaders(lines, markers, |lines|, 0);
    CollectOk(lines, ModeFrequency, hs, toFloat);
    assert Entry(lines, ModeFrequency, hs[k], toFloat).Ok?;
  }

  /** Where the running index writes: the placement the script performs,
      and the placement it evidently means. */
  datatype Layout = AsWritten | Corrected

  /** The nodes the inner loop visits: `np.arange(nb_nodes)[:2]` as
      written, every node once corrected. */
  function PlacedNodes(layout: Layout, nbNodes: nat): (p: nat)
    ensures p <= nbNodes
    ensures p == if layout == AsWritten && nbNodes >= 2 then 2 else nbNodes
  {
    match layout
    case AsWritten => if nbNodes < 2 then nbNodes else 2
    case Corrected => nbNodes
  }

  /** The value of `i_node_snapshot_mtx` when node i of slab m is placed.
      As written it starts at 0, becomes `i_node + 3` after each node and is
      never reset between modes; corrected it is `3 * i_node` in every slab. */
  function RowOf(layout: Layout, nbNodes: nat, m: nat, i: nat): nat
  {
    match layout
    case AsWritten =>
      var placed := PlacedNodes(layout, nbNodes);
      if i > 0 then i + 2 else if m == 0 || placed == 0 then 0 else placed + 2
    case Corrected => Dof * i
  }

  /** Node i's x, y and z go to rows RowOf .. RowOf + 2 of slab m. */
  predicate Covers(layout: Layout, nbNodes: nat, m: nat, i: nat, row: nat)
  {
    RowOf(layout, nbNodes, m, i) <= row < RowOf(layout, nbNodes, m, i) + Dof
  }

  /** The node whose write to `row` of slab m is the last among the first
      n nodes placed there, if any of them writes it. */
  function SlabWriter(layout: Layout, nbNodes: nat, m: nat, row: nat, n: nat): (w: Option<nat>)
    requires n <= PlacedNodes(layout, nbNodes)
    ensures w.Some? ==> w.value < n && Covers(layout, nbNodes, m, w.value, row)
    ensures w.Some? ==> forall i :: w.value < i < n ==> !Covers(layout, nbNodes, m, i, row)
    ensures w.None? ==> forall i :: 0 <= i < n ==> !Covers(layout, nbNodes, m, i, row)
  {
    if n == 0 then None
    else if Covers(layout, nbNodes, m, n - 1, row) then Some(n - 1)
    else SlabWriter(layout, nbNodes, m, row, n - 1)
  }

  /** What placing node i of slab m raises, in the order the loop body
      evaluates it: `values_list[i_mode]`, `[i_node]`, fields 1..3 of the
      row, then the three row indices of the array. */
  function StepOutcome(layout: Layout, blocks: seq<seq<string>>, nbNodes: nat, m: nat, i: nat,
    toFloat: string -> Option<real>): Outcome
  {
    if m >= |blocks| || i >= |blocks[m]| then Fail(IndexError)
    else
      match RowTriple(blocks[m][i], toFloat)
      case Err(e) => Fail(e)
      case Ok(_) => if RowOf(layout, nbNodes, m, i) + 2 >= Dof * nbNodes then Fail(IndexError) else Pass
  }

  /** The outcome of all the steps before node i of slab m: the first
      failure in loop order, or Pass. */
  function PlaceOutcome(layout: Layout, blocks: seq<seq<string>>, nbNodes: nat, m: nat, i: nat,
    toFloat: string -> Option<real>): Outcome
    requires i <= PlacedNodes(layout, nbNodes)
    decreases m, i
  {
    if i > 0 then
      match PlaceOutcome(layout, blocks, nbNodes, m, i - 1, toFloat)
      case Fail(e) => Fail(e)
      case Pass => StepOutcome(layout, blocks, nbNodes, m, i - 1, toFloat)
    else if m > 0 then PlaceOutcome(layout, blocks, nbNodes, m - 1, PlacedNodes(layout, nbNodes), toFloat)
    else Pass
  }

  /** Once a step has failed, every later position reports that failure. */
  lemma {:induction false} PlaceFailExtends(layout: Layout, blocks: seq<seq<string>>, nbNodes: nat,
    m: nat, i: nat, m2: nat, i2: nat, toFloat: string -> Option<real>)
    requires i <= PlacedNodes(layout, nbNodes) && i2 <= PlacedNodes(layout, nbNodes)
    requires m < m2 || (m == m2 && i <= i2)
    requires PlaceOutcome(layout, blocks, nbNodes, m, i, toFloat).Fail?
    ensures PlaceOutcome(layout, blocks, nbNodes, m2, i2, toFloat) == PlaceOutcome(layout, blocks, nbNodes, m, i, toFloat)
    decreases m2, i2
  {
    if m == m2 && i == i2 {
    } else if i2 > 0 {
      PlaceFailExtends(layout, blocks, nbNodes, m, i, m2, i2 - 1, toFloat);
    } else {
      PlaceFailExtends(layout, blocks, nbNodes, m, i, m2 - 1, PlacedNodes(layout, nbNodes), toFloat);
    }
  }

  /** A failing step ends the slab with its failure. */
  lemma StepFails(layout: Layout, blocks: seq<seq<string>>, nbNodes: nat, m: nat, i: nat,
    toFloat: string -> Option<real>, e: Exception)
    requires i < PlacedNodes(layout, nbNodes)
    requires PlaceOutcome(layout, blocks, nbNodes, m, i, toFloat) == Pass
    requires StepOutcome(layout, blocks, nbNodes, m, i, toFloat) == Fail(e)
    ensures PlaceOutcome(layout, blocks, nbNodes, m, PlacedNodes(layout, nbNodes), toFloat) == Fail(e)
  {
    PlaceFailExtends(layout, blocks, nbNodes, m, i + 1, m, PlacedNodes(layout, nbNodes), toFloat);
  }

  /** A placement that passes up to slab M has passed every step before
      it: each placed node of each earlier slab had its row in block m,
      fields 1..3 that convert, and three rows inside the array. */
  lemma PassedStep(layout: Layout, blocks: seq<seq<string>>, nbNodes: nat, bigM: nat, m: nat, i: nat,
    toFloat: string -> Option<real>)
    requires PlaceOutcome(layout, blocks, nbNodes, bigM, 0, toFloat) == Pass
    requires m < bigM && i < PlacedNodes(layout, nbNodes)
    ensures m < |blocks| && i < |blocks[m]| && RowTriple(blocks[m][i], toFloat).Ok?
    ensures RowOf(layout, nbNodes, m, i) + Dof <= Dof * nbNodes
  {
    if PlaceOutcome(layout, blocks, nbNodes, m, i, toFloat).Fail? {
      PlaceFailExtends(layout, blocks, nbNodes, m, i, bigM, 0, toFloat);
    } else if StepOutcome(layout, blocks, nbNodes, m, i, toFloat).Fail? {
      PlaceFailExtends(layout, blocks, nbNodes, m, i + 1, bigM, 0, toFloat);
    }
  }

  /** Time step t of the displacement synthesized from component c of node
      i of slab m: `float(values_list[i_mode][i_node].split()[c + 1])` times
      the sine of mode m's frequency at `times[t]`. The product with the
      sine is abstracted as `wave(amplitude, frequency, t)`. Only meaningful
      for a step that passes; 0 otherwise. */
  function NodeValue(s: Scanned, m: nat, i: nat, c: nat, t: nat,
    wave: (real, real, nat) -> real, toFloat: string -> Option<real>): (v: real)
    ensures (m < |s.blocks| && m < |s.scalars| && i < |s.blocks[m]| && c < Dof &&
      RowTriple(s.blocks[m][i], toFloat).Ok?) ==>
        Field(s.blocks[m][i], c + 1, toFloat).Ok? &&
        v == wave(Field(s.blocks[m][i], c + 1, toFloat).value, s.scalars[m], t)
  {
    if m < |s.blocks| && m < |s.scalars| && i < |s.blocks[m]| && c < Dof &&
       RowTriple(s.blocks[m][i], toFloat).Ok?
    then
      RowTripleFields(s.blocks[m][i], toFloat);
      wave(RowTriple(s.blocks[m][i], toFloat).value[c], s.scalars[m], t)
    else 0.0
  }

  lemma NodeValueOf(s: Scanned, m: nat, i: nat, c: nat, t: nat,
    wave: (real, real, nat) -> real, toFloat: string -> Option<real>, xyz: seq<real>)
    requires m < |s.blocks| && m < |s.scalars| && i < |s.blocks[m]| && c < Dof
    requires RowTriple(s.blocks[m][i], toFloat) == Ok(xyz)
    ensures NodeValue(s, m, i, c, t, wave, toFloat) == wave(xyz[c], s.scalars[m], t)
  {
  }

  /** Cell [m, row, t] once the first n nodes of slab m are placed: the value
      of its last writer, or what the cell held before. */
  function Cell(layout: Layout, s: Scanned, nbNodes: nat, wave: (real, real, nat) -> real,
    toFloat: string -> Option<real>, m: nat, row: nat, t: nat, n: nat, before: real): (v: real)
    requires n <= PlacedNodes(layout, nbNodes)
    ensures (forall i :: 0 <= i < n ==> !Covers(layout, nbNodes, m, i, row)) ==> v == before
    ensures forall i :: (0 <= i < n && Covers(layout, nbNodes, m, i, row) &&
      (forall j :: i < j < n ==> !Covers(layout, nbNodes, m, j, row))) ==>
        v == NodeValue(s, m, i, row - RowOf(layout, nbNodes, m, i), t, wave, toFloat)
  {
    match SlabWriter(layout, nbNodes, m, row, n)
    case None => before
    case Some(i) => NodeValue(s, m, i, row - RowOf(layout, nbNodes, m, i), t, wave, toFloat)
  }

  /** Writes `wave(amplitude, frequency, t)` along the time axis of
      row `row` of slab m: `snapshot_mtx[i_mode, row, :] = displ`. */
  method WriteRow(a: array3<real>, m: nat, row: nat, amplitude: real, frequency: real,
    wave: (real, real, nat) -> real)
    requires m < a.Length0 && row < a.Length1
    modifies a
    ensures forall m', r, t :: 0 <= m' < a.Length0 && 0 <= r < a.Length1 && 0 <= t < a.Length2 ==>
      a[m', r, t] == if m' == m && r == row then wave(amplitude, frequency, t) else old(a[m', r, t])
  {
    forall t | 0 <= t < a.Length2 {
      a[m, row, t] := wave(amplitude, frequency, t);
    }
  }

  /** Lines 66-68: the x, y and z of one node go to rows idx, idx + 1 and
      idx + 2 of slab m, each times the wave; a row past the end raises
      IndexError. */
  method WriteNode(a: array3<real>, m: nat, idx: nat, xyz: seq<real>, frequency: real,
    wave: (real, real, nat) -> real) returns (out: Outcome)
    requires m < a.Length0 && |xyz| == Dof
    modifies a
    ensures out == if idx + 2 >= a.Length1 then Fail(IndexError) else Pass
    ensures out.Pass? ==>
      forall m', r, t :: 0 <= m' < a.Length0 && 0 <= r < a.Length1 && 0 <= t < a.Length2 ==>
        a[m', r, t] == if m' == m && idx <= r < idx + Dof then wave(xyz[r - idx], frequency, t)
                       else old(a[m', r, t])
  {
    if idx >= a.Length1 {
      return Fail(IndexError);
    }
    WriteRow(a, m, idx, xyz[0], frequency, wave);
    if idx + 1 >= a.Length1 {
      return Fail(IndexError);
    }
    WriteRow(a, m, idx + 1, xyz[1], frequency, wave);
    if idx + 2 >= a.Length1 {
      return Fail(IndexError);
    }
    WriteRow(a, m, idx + 2, xyz[2], frequency, wave);
    return Pass;
  }

  /** Placing node i of slab m at row idx, with amplitudes xyz, changes
      exactly the cells it covers: a cell of slab m that held `previous`
      now holds `now`, its value after one more node. */
  lemma CellStep(layout: Layout, s: Scanned, nbNodes: nat, wave: (real, real, nat) -> real,
    toFloat: string -> Option<real>, m: nat, i: nat, idx: nat, xyz: seq<real>,
    row: nat, t: nat, before: real, previous: real, now: real)
    requires i < PlacedNodes(layout, nbNodes) && idx == RowOf(layout, nbNodes, m, i)
    requires m < |s.blocks| && m < |s.scalars| && i < |s.blocks[m]|
    requires RowTriple(s.blocks[m][i], toFloat) == Ok(xyz)
    requires previous == Cell(layout, s, nbNodes, wave, toFloat, m, row, t, i, before)
    requires now == if idx <= row < idx + Dof then wave(xyz[row - idx], s.scalars[m], t) else previous
    ensures now == Cell(layout, s, nbNodes, wave, toFloat, m, row, t, i + 1, before)
  {
    if idx <= row < idx + Dof {
      NodeValueOf(s, m, i, row - idx, t, wave, toFloat, xyz);
    }
  }

  /** Lines 58-70 for slab m: the placed nodes in order, each read from its
      row of `values_list[i_mode]` and written at the running index, which
      the slab leaves where the next slab starts. */
  method PlaceSlab(a: array3<real>, layout: Layout, s: Scanned, nbNodes: nat, m: nat, start: nat,
    wave: (real, real, nat) -> real, toFloat: string -> Option<real>) returns (out: Outcome, idx: nat)
    requires |s.scalars| == |s.blocks|
    requires a.Length1 == Dof * nbNodes && m < a.Length0
    requires PlaceOutcome(layout, s.blocks, nbNodes, m, 0, toFloat) == Pass
    requires start == RowOf(layout, nbNodes, m, 0)
    modifies a
    ensures out == PlaceOutcome(layout, s.blocks, nbNodes, m, PlacedNodes(layout, nbNodes), toFloat)
    ensures out.Pass? && layout == AsWritten ==> idx == RowOf(layout, nbNodes, m + 1, 0)
    ensures out.Pass? ==>
      forall m', row, t :: 0 <= m' < a.Length0 && 0 <= row < a.Length1 && 0 <= t < a.Length2 ==>
        a[m', row, t] == if m' == m
          then Cell(layout, s, nbNodes, wave, toFloat, m, row, t, PlacedNodes(layout, nbNodes), old(a[m, row, t]))
          else old(a[m', row, t])
  {
    var placed := PlacedNodes(layout, nbNodes);
    idx := start;
    for i := 0 to placed
      invariant PlaceOutcome(layout, s.blocks, nbNodes, m, i, toFloat) == Pass
      invariant idx == RowOf(layout, nbNodes, m, i)
      invariant forall m', row, t :: 0 <= m' < a.Length0 && 0 <= row < a.Length1 && 0 <= t < a.Length2 ==>
        a[m', row, t] == if m' == m
          then Cell(layout, s, nbNodes, wave, toFloat, m, row, t, i, old(a[m, row, t]))
          else old(a[m', row, t])
    {
      if m >= |s.blocks| || i >= |s.blocks[m]| {
        StepFails(layout, s.blocks, nbNodes, m, i, toFloat, IndexError);
        return Fail(IndexError), idx;
      }
      var x := Field(s.blocks[m][i], 1, toFloat);
      if x.Err? {
        assert RowTriple(s.blocks[m][i], toFloat) == Err(x.error);
        StepFails(layout, s.blocks, nbNodes, m, i, toFloat, x.error);
        return Fail(x.error), idx;
      }
      var y := Field(s.blocks[m][i], 2, toFloat);
      if y.Err? {
        assert RowTriple(s.blocks[m][i], toFloat) == Err(y.error);
        StepFails(layout, s.blocks, nbNodes, m, i, toFloat, y.error);
        return Fail(y.error), idx;
      }
      var z := Field(s.blocks[m][i], 3, toFloat);
      if z.Err? {
        assert RowTriple(s.blocks[m][i], toFloat) == Err(z.error);
        StepFails(layout, s.blocks, nbNodes, m, i, toFloat, z.error);
        return Fail(z.error), idx;
      }
      var xyz := [x.value, y.value, z.value];
      assert RowTriple(s.blocks[m][i], toFloat) == Ok(xyz);
      label before:
      var written := WriteNode(a, m, idx, xyz, s.scalars[m], wave);
      if written.Fail? {
        StepFails(layout, s.blocks, nbNodes, m, i, toFloat, IndexError);
        return written, idx;
      }
      forall m', row, t | 0 <= m' < a.Length0 && 0 <= row < a.Length1 && 0 <= t < a.Length2
        ensures a[m', row, t] == if m' == m
          then Cell(layout, s, nbNodes, wave, toFloat, m, row, t, i + 1, old(a[m, row, t]))
          else old(a[m', row, t])
      {
        if m' == m && idx <= row < idx + Dof {
          assert a[m', row, t] == wave(xyz[row - idx], s.scalars[m], t);
        } else {
          assert a[m', row, t] == old@before(a[m', row, t]);
        }
        if m' == m {
          CellStep(layout, s, nbNodes, wave, toFloat, m, i, idx, xyz,
            row, t, old(a[m, row, t]), old@before(a[m, row, t]), a[m, row, t]);
        }
      }
      idx := if layout == AsWritten then i + 3 else idx + Dof;
    }
    return Pass, idx;
  }

  /** Lines 54-70: the placement loops over all the modes, with the running
      row index of `layout`. On success every cell holds the value of its
      last writer, and a cell no node writes keeps what it held. */
  method PlaceModes(a: array3<real>, layout: Layout, s: Scanned, nbNodes: nat,
    wave: (real, real, nat) -> real, toFloat: string -> Option<real>) returns (out: Outcome)
    requires |s.scalars| == |s.blocks|
    requires a.Length1 == Dof * nbNodes
    modifies a
    ensures out == PlaceOutcome(layout, s.blocks, nbNodes, a.Length0, 0, toFloat)
    ensures out.Pass? ==>
      forall m, row, t :: 0 <= m < a.Length0 && 0 <= row < a.Length1 && 0 <= t < a.Length2 ==>
        a[m, row, t] == Cell(layout, s, nbNodes, wave, toFloat, m, row, t,
          PlacedNodes(layout, nbNodes), old(a[m, row, t]))
  {
    var idx := 0;
    for m := 0 to a.Length0
      invariant PlaceOutcome(layout, s.blocks, nbNodes, m, 0, toFloat) == Pass
      invariant layout == AsWritten ==> idx == RowOf(layout, nbNodes, m, 0)
      invariant forall m', row, t :: 0 <= m' < a.Length0 && 0 <= row < a.Length1 && 0 <= t < a.Length2 ==>
        a[m', row, t] == if m' < m
          then Cell(layout, s, nbNodes, wave, toFloat, m', row, t, PlacedNodes(layout, nbNodes), old(a[m', row, t]))
          else old(a[m', row, t])
    {
      if layout == Corrected {
        idx := 0;
      }
      var slab;
      slab, idx := PlaceSlab(a, layout, s, nbNodes, m, idx, wave, toFloat);
      if slab.Fail? {
        PlaceFailExtends(layout, s.blocks, nbNodes, m, PlacedNodes(layout, nbNodes), a.Length0, 0, toFloat);
        return slab;
      }
    }
    return Pass;
  }

  /** The value the placement leaves in cell [m, row, t], if some node
      writes it; a cell no node writes keeps the garbage of `np.empty`. */
  function Written(layout: Layout, s: Scanned, nbNodes: nat, wave: (real, real, nat) -> real,
    toFloat: string -> Option<real>, m: nat, row: nat, t: nat): (v: Option<real>)
    ensures v.None? <==> forall i :: 0 <= i < PlacedNodes(layout, nbNodes) ==> !Covers(layout, nbNodes, m, i, row)
    ensures forall i :: (0 <= i < PlacedNodes(layout, nbNodes) && Covers(layout, nbNodes, m, i, row) &&
      (forall j :: i < j < PlacedNodes(layout, nbNodes) ==> !Covers(layout, nbNodes, m, j, row))) ==>
        v == Some(NodeValue(s, m, i, row - RowOf(layout, nbNodes, m, i), t, wave, toFloat))
  {
    match SlabWriter(layout, nbNodes, m, row, PlacedNodes(layout, nbNodes))
    case None => None
    case Some(i) => Some(NodeValue(s, m, i, row - RowOf(layout, nbNodes, m, i), t, wave, toFloat))
  }

  /** A cell some node writes ends up holding that node's value, whatever
      it held before. */
  lemma WrittenCell(layout: Layout, s: Scanned, nbNodes: nat, wave: (real, real, nat) -> real,
    toFloat: string -> Option<real>, m: nat, row: nat, t: nat, before: real)
    requires Written(layout, s, nbNodes, wave, toFloat, m, row, t).Some?
    ensures Cell(layout, s, nbNodes, wave, toFloat, m, row, t, PlacedNodes(layout, nbNodes), before) ==
      Written(layout, s, nbNodes, wave, toFloat, m, row, t).value
  {
  }

  /** The blocks the scan collects, in match order, with their frequencies. */
  function ModalScan(lines: seq<string>, modes: seq<int>, toFloat: string -> Option<real>): (r: Result<Scanned>)
    ensures r.Ok? ==> |r.value.scalars| == |r.value.blocks|
  {
    Collect(lines, ModeFrequency, MatchLines(lines, ModeMarkers(modes)), toFloat)
  }

  /** What the script raises, in the order it runs: the scan, `np.max` of
      the frequencies (ValueError when nothing matched), then the placement
      with `nb_nodes` taken from the first block. */
  function ModalOutcome(lines: seq<string>, modes: seq<int>, layout: Layout, toFloat: string -> Option<real>)
    : (r: Outcome)
    ensures r == Pass ==> ModalScan(lines, modes, toFloat).Ok? && |ModalScan(lines, modes, toFloat).value.blocks| > 0
  {
    match ModalScan(lines, modes, toFloat)
    case Err(e) => Fail(e)
    case Ok(s) =>
      if |s.scalars| == 0 then Fail(ValueError)
      else PlaceOutcome(layout, s.blocks, |s.blocks[0]|, |modes|, 0, toFloat)
  }

  /** The script once the result file is read: lines 24-34, 42, 48-49 and
      54-70, with `nb_time_steps` given. The array has one slab per chosen
      mode and 3 rows per node of the first block; every cell a node writes
      holds that node's amplitude times the wave. */
  method ComputeModalSnapshot(lines: seq<string>, modes: seq<int>, nbTimeSteps: nat, layout: Layout,
    wave: (real, real, nat) -> real, toFloat: string -> Option<real>) returns (r: Result<array3<real>>)
    ensures r.Ok? <==> ModalOutcome(lines, modes, layout, toFloat) == Pass
    ensures r.Err? ==> ModalOutcome(lines, modes, layout, toFloat) == Fail(r.error)
    ensures r.Ok? ==>
      var s := ModalScan(lines, modes, toFloat).value;
      |s.blocks| > 0 && fresh(r.value) &&
      r.value.Length0 == |modes| && r.value.Length1 == Dof * |s.blocks[0]| && r.value.Length2 == nbTimeSteps &&
      forall m, row, t ::
        (0 <= m < r.value.Length0 && 0 <= row < r.value.Length1 && 0 <= t < r.value.Length2 &&
         Written(layout, s, |s.blocks[0]|, wave, toFloat, m, row, t).Some?) ==>
        r.value[m, row, t] == Written(layout, s, |s.blocks[0]|, wave, toFloat, m, row, t).value
  {
    var scan := ScanModeBlocks(lines, modes, toFloat);
    if scan.Err? {
      return Err(scan.error);
    }
    var s := scan.value;
    if |s.scalars| == 0 {
      return Err(ValueError);
    }
    var nbNodes := |s.blocks[0]|;
    var snapshot := new real[|modes|, nbNodes * Dof, nbTimeSteps];
    label empty:
    var placed := PlaceModes(snapshot, layout, s, nbNodes, wave, toFloat);
    if placed.Fail? {
      return Err(placed.error);
    }
    forall m, row, t | 0 <= m < |modes| && 0 <= row < nbNodes * Dof && 0 <= t < nbTimeSteps &&
      Written(layout, s, nbNodes, wave, toFloat, m, row, t).Some?
      ensures snapshot[m, row, t] == Written(layout, s, nbNodes, wave, toFloat, m, row, t).value
    {
      WrittenCell(layout, s, nbNodes, wave, toFloat, m, row, t, old@empty(snapshot[m, row, t]));
    }
    return Ok(snapshot);
  }

  /** With no line matching any marker, the loops find nothing. */
  lemma {:induction false} NoModeMatches(lines: seq<string>, markers: seq<string>, i: nat, m: nat)
    requires ScanPosition(lines, markers, i, m)
    requires forall i, q :: 0 <= i < |lines| && 0 <= q < |markers| ==> !IsModeHeader(lines[i], markers[q])
    ensures ModeMatches(lines, markers, i, m) == []
    decreases i, m
  {
    if m > 0 {
      NoModeMatches(lines, markers, i, m - 1);
      assert !IsModeHeader(lines[i], markers[m - 1]);
    } else if i > 0 {
      NoModeMatches(lines, markers, i - 1, |markers|);
    }
  }

  /** With no matching header, `np.max([])` raises ValueError. */
  lemma NothingMatchedFails(lines: seq<string>, modes: seq<int>, layout: Layout, toFloat: string -> Option<real>)
    requires forall i, q :: 0 <= i < |lines| && 0 <= q < |modes| ==> !IsModeHeader(lines[i], ModeMarker(modes[q]))
    ensures ModalOutcome(lines, modes, layout, toFloat) == Fail(ValueError)
  {
    NoModeMatches(lines, ModeMarkers(modes), |lines|, 0);
  }

  /** As written, slab 0 of a file with at least two nodes gets node 0 in
      rows 0-2 and node 1 in rows 3-5, and nothing from row 6 on. */
  lemma AsWrittenFirstSlab(nbNodes: nat, row: nat)
    requires nbNodes >= 2
    ensures SlabWriter(AsWritten, nbNodes, 0, row, PlacedNodes(AsWritten, nbNodes)) ==
      if row < 3 then Some(0) else if row < 6 then Some(1) else None
  {
  }

  /** As written, in every later slab the running index is 4 for node 0 and
      3 for node 1: node 1 overwrites rows 4 and 5 of node 0, row 6 keeps
      node 0's z, and rows 0-2 are never written. */
  lemma AsWrittenLaterSlab(nbNodes: nat, m: nat, row: nat)
    requires nbNodes >= 2 && m >= 1
    ensures RowOf(AsWritten, nbNodes, m, 0) == 4 && RowOf(AsWritten, nbNodes, m, 1) == 3
    ensures Covers(AsWritten, nbNodes, m, 0, 4) && Covers(AsWritten, nbNodes, m, 1, 4)
    ensures SlabWriter(AsWritten, nbNodes, m, row, PlacedNodes(AsWritten, nbNodes)) ==
      if row < 3 then None else if row < 6 then Some(1) else if row == 6 then Some(0) else None
  {
  }

  /** As written, no slab has anything written from row 7 on (slab 0 from
      row 6 on), whatever the number of nodes. */
  lemma AsWrittenUnwrittenRows(nbNodes: nat, m: nat, row: nat)
    requires row >= 7 || (m == 0 && row >= 6)
    ensures SlabWriter(AsWritten, nbNodes, m, row, PlacedNodes(AsWritten, nbNodes)) == None
  {
  }

  /** As written, two or more modes with a first block of one or two nodes
      always fail: node 0 of slab 1 is sent to row 3 or 4, past the last
      row or with its z past it. */
  lemma AsWrittenFailsWithFewNodes(blocks: seq<seq<string>>, nbNodes: nat, nbModes: nat,
    toFloat: string -> Option<real>)
    requires 1 <= nbNodes <= 2 && nbModes >= 2
    ensures PlaceOutcome(AsWritten, blocks, nbNodes, nbModes, 0, toFloat).Fail?
  {
    assert StepOutcome(AsWritten, blocks, nbNodes, 1, 0, toFloat).Fail?;
    assert PlaceOutcome(AsWritten, blocks, nbNodes, 1, 1, toFloat).Fail?;
    PlaceFailExtends(AsWritten, blocks, nbNodes, 1, 1, nbModes, 0, toFloat);
  }

  /** Corrected, each row of each slab is covered by exactly one node,
      node row / 3, and that node is its writer. */
  lemma CorrectedWritesEachRowOnce(nbNodes: nat, m: nat, row: nat)
    requires row < Dof * nbNodes
    ensures forall i :: 0 <= i < nbNodes ==> (Covers(Corrected, nbNodes, m, i, row) <==> i == row / Dof)
    ensures SlabWriter(Corrected, nbNodes, m, row, PlacedNodes(Corrected, nbNodes)) == Some(row / Dof)
  {
    assert Covers(Corrected, nbNodes, m, row / Dof, row);
  }

  /** Corrected, slab m passes its first i nodes exactly when block m has
      them and their fields convert: when its first i rows flatten into a
      column, as in the displacement parser. */
  lemma {:induction false} CorrectedSlabPasses(blocks: seq<seq<string>>, nbNodes: nat, m: nat, i: nat,
    toFloat: string -> Option<real>)
    requires i <= nbNodes
    requires PlaceOutcome(Corrected, blocks, nbNodes, m, 0, toFloat) == Pass
    ensures PlaceOutcome(Corrected, blocks, nbNodes, m, i, toFloat) == Pass <==>
      (i == 0 || (m < |blocks| && Column(blocks[m], i, toFloat).Ok?))
  {
    if i > 0 {
      CorrectedSlabPasses(blocks, nbNodes, m, i - 1, toFloat);
    }
  }

  /** Slab m can be filled: there is no node to place, or block m exists
      and its first `nbNodes` rows flatten into a column. */
  predicate SlabReady(blocks: seq<seq<string>>, nbNodes: nat, m: nat, toFloat: string -> Option<real>)
  {
    nbNodes == 0 || (m < |blocks| && Column(blocks[m], nbNodes, toFloat).Ok?)
  }

  /** In either layout, once the placement of all slabs has passed, a
      written cell [m, row, t] holds field `row - RowOf + 1` of its writer's
      row of block m (component `row - RowOf` of its triple) times the wave
      of mode m's frequency. */
  lemma PassedCells(layout: Layout, s: Scanned, nbNodes: nat, wave: (real, real, nat) -> real,
    toFloat: string -> Option<real>, nbModes: nat, m: nat, row: nat, t: nat)
    requires |s.scalars| == |s.blocks|
    requires PlaceOutcome(layout, s.blocks, nbNodes, nbModes, 0, toFloat) == Pass && m < nbModes
    requires Written(layout, s, nbNodes, wave, toFloat, m, row, t).Some?
    ensures var i := SlabWriter(layout, nbNodes, m, row, PlacedNodes(layout, nbNodes)).value;
      var c := row - RowOf(layout, nbNodes, m, i);
      m < |s.blocks| && i < |s.blocks[m]| && 0 <= c < Dof &&
      RowTriple(s.blocks[m][i], toFloat).Ok? &&
      Field(s.blocks[m][i], c + 1, toFloat) == Ok(RowTriple(s.blocks[m][i], toFloat).value[c]) &&
      Written(layout, s, nbNodes, wave, toFloat, m, row, t) ==
        Some(wave(RowTriple(s.blocks[m][i], toFloat).value[c], s.scalars[m], t))
  {
    var i := SlabWriter(layout, nbNodes, m, row, PlacedNodes(layout, nbNodes)).value;
    PassedStep(layout, s.blocks, nbNodes, nbModes, m, i, toFloat);
    RowTripleFields(s.blocks[m][i], toFloat);
  }

  /** Corrected, the placement succeeds exactly when every slab's block
      flattens into a full column (or there is no node to place). */
  lemma {:induction false} CorrectedPasses(blocks: seq<seq<string>>, nbNodes: nat, nbModes: nat,
    toFloat: string -> Option<real>)
    ensures PlaceOutcome(Corrected, blocks, nbNodes, nbModes, 0, toFloat) == Pass <==>
      forall m :: 0 <= m < nbModes ==> SlabReady(blocks, nbNodes, m, toFloat)
  {
    if nbModes > 0 {
      var n := nbModes - 1;
      CorrectedPasses(blocks, nbNodes, n, toFloat);
      var before := PlaceOutcome(Corrected, blocks, nbNodes, n, 0, toFloat);
      var after := PlaceOutcome(Corrected, blocks, nbNodes, nbModes, 0, toFloat);
      assert after == PlaceOutcome(Corrected, blocks, nbNodes, n, nbNodes, toFloat);
      if before == Pass {
        CorrectedSlabPasses(blocks, nbNodes, n, nbNodes, toFloat);
        assert after == Pass <==> SlabReady(blocks, nbNodes, n, toFloat);
      } else {
        PlaceFailExtends(Corrected, blocks, nbNodes, n, 0, n, nbNodes, toFloat);
        assert !SlabReady(blocks, nbNodes, n, toFloat) || exists m :: 0 <= m < n && !SlabReady(blocks, nbNodes, m, toFloat);
      }
    }
  }

  /** Corrected, cell [m, row, t] is entry `row` of block m's column times
      the wave of mode m's frequency. */
  lemma CorrectedCells(s: Scanned, nbNodes: nat, wave: (real, real, nat) -> real,
    toFloat: string -> Option<real>, m: nat, row: nat, t: nat)
    requires m < |s.blocks| && m < |s.scalars| && Column(s.blocks[m], nbNodes, toFloat).Ok?
    requires row < Dof * nbNodes
    ensures Written(Corrected, s, nbNodes, wave, toFloat, m, row, t) ==
      Some(wave(Column(s.blocks[m], nbNodes, toFloat).value[row], s.scalars[m], t))
  {
    CorrectedWritesEachRowOnce(nbNodes, m, row);
    ColumnEntry(s.blocks[m], nbNodes, toFloat, row);
    var i := row / Dof;
    assert row - RowOf(Corrected, nbNodes, m, i) == row % Dof;
    NodeValueOf(s, m, i, row % Dof, t, wave, toFloat, RowTriple(s.blocks[m][i], toFloat).value);
  }

}
