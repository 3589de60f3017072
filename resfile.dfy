/** The block layout of a GiD-style ASCII result file (`*.flavia.res`) as
    both parsers read it: a `Result "..."` header line, two lines that are
    skipped, then one row per node (`<id> <x> <y> <z> ...`), ended by the
    first line that does not start with a digit. */
module ResFile {
  import opened PyText

  /** Distance from a header to its first node row (`i_jump = 3`). */
  const HeaderOffset: nat := 3

  /** Values per node: displacement x, y and z (`deg_freedom = 3`). */
  const Dof: nat := 3

  /** A line that continues a block: its first character is a digit. */
  predicate IsNodeRow(line: string)
  {
    line != [] && IsDigit(line[0])
  }

  /** A line that ends a block: it has a first character, not a digit. */
  predicate EndsBlock(line: string)
  {
    line != [] && !IsDigit(line[0])
  }

  /** The run of node rows that starts at line `j` ends at line `e`. */
  predicate TerminatesAt(lines: seq<string>, j: nat, e: nat)
  {
    j <= e < |lines| && EndsBlock(lines[e]) &&
    forall k :: j <= k < e ==> IsNodeRow(lines[k])
  }

  /** Where the `while lines[i_line + i_jump][0].isdigit()` loop stops when
      it starts at line `j`: the first line that is not a node row; the
      loop raises IndexError when it runs past the last line or meets an
      empty line. */
  function RunEnd(lines: seq<string>, j: nat): (r: Result<nat>)
    ensures r.Ok? ==> TerminatesAt(lines, j, r.value)
    ensures r.Err? ==> r.error == IndexError
    decreases |lines| - j
  {
    if j >= |lines| then Err(IndexError)
    else
      match FirstIsDigit(lines[j])
      case Err(e) => Err(e)
      case Ok(digit) => if digit then RunEnd(lines, j + 1) else Ok(j)
  }

  /** The block ends exactly at its terminator: the run stops at the one
      line where a terminator stands. */
  lemma {:induction false} RunEndFindsTerminator(lines: seq<string>, j: nat, e: nat)
    requires TerminatesAt(lines, j, e)
    ensures RunEnd(lines, j) == Ok(e)
    decreases e - j
  {
    if j < e {
      assert IsNodeRow(lines[j]);
      RunEndFindsTerminator(lines, j + 1, e);
    }
  }

  /** The line of a block's first node row, three lines below its header. */
  function FirstRow(h: nat): nat
  {
    h + HeaderOffset
  }

  /** The node rows of the block whose header is line `h`:
      `lines[h+3]`, `lines[h+4]`, ... up to the first non-digit line. */
  function BlockAt(lines: seq<string>, h: nat): (r: Result<seq<string>>)
    ensures r.Err? ==> r.error == IndexError
    ensures r.Ok? ==> (FirstRow(h) + |r.value| < |lines| &&
      r.value == lines[FirstRow(h)..FirstRow(h) + |r.value|] &&
      (forall k :: 0 <= k < |r.value| ==> IsNodeRow(r.value[k])) &&
      EndsBlock(lines[FirstRow(h) + |r.value|]))
  {
    match RunEnd(lines, FirstRow(h))
    case Err(e) => Err(e)
    case Ok(e) => Ok(lines[FirstRow(h)..e])
  }

  /** A block is found exactly when a terminating line follows the run of
      node rows; it is then that run, and otherwise IndexError is raised. */
  lemma BlockAtCharacterized(lines: seq<string>, h: nat)
    ensures BlockAt(lines, h).Ok? <==> exists e :: TerminatesAt(lines, FirstRow(h), e)
    ensures BlockAt(lines, h).Ok? ==>
      var rows := BlockAt(lines, h).value;
      TerminatesAt(lines, FirstRow(h), FirstRow(h) + |rows|) &&
      rows == lines[FirstRow(h)..FirstRow(h) + |rows|]
    ensures BlockAt(lines, h).Err? ==> BlockAt(lines, h).error == IndexError
  {
    if e :| TerminatesAt(lines, FirstRow(h), e) {
      RunEndFindsTerminator(lines, FirstRow(h), e);
    }
  }

  /** Row i of the block under header `h` is line `h + 3 + i`. */
  lemma BlockRow(lines: seq<string>, h: nat, i: nat)
    requires BlockAt(lines, h).Ok? && i < |BlockAt(lines, h).value|
    ensures FirstRow(h) + i < |lines| && BlockAt(lines, h).value[i] == lines[FirstRow(h) + i]
  {
    BlockAtCharacterized(lines, h);
  }

  /** The `while` loop that collects a block's rows, `i_jump` counting up
      from 3 (create_snapshotmatrix_from_ascii_file.py and the modal script
      share it). */
  method ExtractBlock(lines: seq<string>, h: nat) returns (r: Result<seq<string>>)
    ensures r == BlockAt(lines, h)
  {
    var jump := HeaderOffset;
    var values: seq<string> := [];
    while true
      invariant HeaderOffset <= jump
      invariant |values| == jump - HeaderOffset
      invariant forall k :: 0 <= k < |values| ==>
        h + HeaderOffset + k < |lines| && values[k] == lines[h + HeaderOffset + k]
      invariant RunEnd(lines, h + jump) == RunEnd(lines, h + HeaderOffset)
      decreases |lines| - (h + jump)
    {
      if h + jump >= |lines| {
        return Err(IndexError);
      }
      var lead := FirstIsDigit(lines[h + jump]);
      if lead.Err? {
        return Err(lead.error);
      }
      if !lead.value {
        assert values == lines[h + HeaderOffset..h + jump];
        return Ok(values);
      }
      values := values + [lines[h + jump]];
      jump := jump + 1;
    }
  }

  /** The two kinds of header and the scalar each carries. */
  datatype HeaderKind = DisplacementTime | ModeFrequency

  /** The position, among a header's words, of the word that carries its
      scalar. */
  function ScalarField(kind: HeaderKind): nat
  {
    match kind
    case DisplacementTime => 4
    case ModeFrequency => 2
  }

  /** The scalar of a header line: for a displacement header the time,
      `float(line.split()[4])`; for a mode header the natural frequency,
      `float(line.split()[2].split(")")[0])`. Quotes are not treated
      specially by the split. */
  function HeaderScalar(kind: HeaderKind, line: string, toFloat: string -> Option<real>): (r: Result<real>)
    ensures r == Err(IndexError) <==> |Split(line)| <= ScalarField(kind)
  {
    var tokens := Split(line);
    match kind
    case DisplacementTime =>
      if 4 < |tokens| then ToFloat(tokens[4], toFloat) else Err(IndexError)
    case ModeFrequency =>
      if 2 < |tokens| then ToFloat(BeforeFirst(tokens[2], ')'), toFloat) else Err(IndexError)
  }

  /** For a header written as words and whitespace, the time is word 4
      converted, the frequency is word 2 cut before its first `)` and
      converted, and a header with too few words raises IndexError. */
  lemma HeaderScalarOfWords(kind: HeaderKind, lead: string, ws: seq<string>, gaps: seq<string>,
    toFloat: string -> Option<real>)
    requires IsBlank(lead) && |gaps| == |ws|
    requires forall k :: 0 <= k < |ws| ==> IsToken(ws[k]) && IsBlank(gaps[k])
    requires forall k :: 0 <= k < |ws| - 1 ==> gaps[k] != []
    ensures |ws| <= ScalarField(kind) ==> HeaderScalar(kind, lead + Interleave(ws, gaps), toFloat) == Err(IndexError)
    ensures kind == DisplacementTime && |ws| > 4 ==>
      HeaderScalar(kind, lead + Interleave(ws, gaps), toFloat) == ToFloat(ws[4], toFloat)
    ensures kind == ModeFrequency && |ws| > 2 ==>
      HeaderScalar(kind, lead + Interleave(ws, gaps), toFloat) == ToFloat(BeforeFirst(ws[2], ')'), toFloat)
  {
    SplitWords(lead, ws, gaps);
  }

  /** What the header on line `h` contributes, in the order the parsers
      evaluate it: first its scalar, then its block. */
  function Entry(lines: seq<string>, kind: HeaderKind, h: nat, toFloat: string -> Option<real>)
    : (r: Result<(real, seq<string>)>)
    requires h < |lines|
    ensures r.Ok? <==> HeaderScalar(kind, lines[h], toFloat).Ok? && BlockAt(lines, h).Ok?
    ensures r.Ok? ==> r.value == (HeaderScalar(kind, lines[h], toFloat).value, BlockAt(lines, h).value)
    ensures HeaderScalar(kind, lines[h], toFloat).Err? ==> r == Err(HeaderScalar(kind, lines[h], toFloat).error)
    ensures HeaderScalar(kind, lines[h], toFloat).Ok? && BlockAt(lines, h).Err? ==> r == Err(IndexError)
  {
    match HeaderScalar(kind, lines[h], toFloat)
    case Err(e) => Err(e)
    case Ok(x) =>
      match BlockAt(lines, h)
      case Err(e) => Err(e)
      case Ok(b) => Ok((x, b))
  }

  /** The body of a scan loop for one matched header: convert its scalar,
      then collect the block below it. */
  method ReadEntry(lines: seq<string>, kind: HeaderKind, h: nat, toFloat: string -> Option<real>)
    returns (r: Result<(real, seq<string>)>)
    requires h < |lines|
    ensures r == Entry(lines, kind, h, toFloat)
  {
    var scalar := HeaderScalar(kind, lines[h], toFloat);
    if scalar.Err? {
      return Err(scalar.error);
    }
    var block := ExtractBlock(lines, h);
    if block.Err? {
      return Err(block.error);
    }
    return Ok((scalar.value, block.value));
  }

  /** The lists the scan loop builds (`t` or `frequencies`, and `values_list`). */
  datatype Scanned = Scanned(scalars: seq<real>, blocks: seq<seq<string>>)

  predicate InRange(lines: seq<string>, hs: seq<nat>)
  {
    forall k :: 0 <= k < |hs| ==> hs[k] < |lines|
  }

  /** The scan over the matched header lines `hs`, in order: each appends
      one scalar and one block, and the first failure aborts the scan. */
  function Collect(lines: seq<string>, kind: HeaderKind, hs: seq<nat>, toFloat: string -> Option<real>)
    : (r: Result<Scanned>)
    requires InRange(lines, hs)
    ensures r.Ok? ==> |r.value.scalars| == |hs| && |r.value.blocks| == |hs|
    decreases |hs|
  {
    if hs == [] then Ok(Scanned([], []))
    else
      match Collect(lines, kind, hs[..|hs| - 1], toFloat)
      case Err(e) => Err(e)
      case Ok(acc) =>
        match Entry(lines, kind, hs[|hs| - 1], toFloat)
        case Err(e) => Err(e)
        case Ok(p) => Ok(Scanned(acc.scalars + [p.0], acc.blocks + [p.1]))
  }

  /** Scanning one more header line extends the scan by that header's entry. */
  lemma CollectSnoc(
    lines: seq<string>, kind: HeaderKind, hs: seq<nat>, h: nat, toFloat: string -> Option<real>)
    requires InRange(lines, hs) && h < |lines|
    ensures InRange(lines, hs + [h])
    ensures Collect(lines, kind, hs + [h], toFloat) ==
      match Collect(lines, kind, hs, toFloat)
      case Err(e) => Err(e)
      case Ok(acc) =>
        match Entry(lines, kind, h, toFloat)
        case Err(e) => Err(e)
        case Ok(p) => Ok(Scanned(acc.scalars + [p.0], acc.blocks + [p.1]))
  {
    assert (hs + [h])[..|hs|] == hs;
  }

  /** Once the scan has failed, scanning further headers keeps that failure. */
  lemma {:induction false} CollectErrExtends(
    lines: seq<string>, kind: HeaderKind, hs: seq<nat>, more: seq<nat>, toFloat: string -> Option<real>)
    requires hs <= more && InRange(lines, more)
    requires Collect(lines, kind, hs, toFloat).Err?
    ensures Collect(lines, kind, more, toFloat) == Collect(lines, kind, hs, toFloat)
    decreases |more|
  {
    if |more| > |hs| {
      var init := more[..|more| - 1];
      assert hs <= init;
      assert InRange(lines, init);
      CollectErrExtends(lines, kind, hs, init, toFloat);
    } else {
      assert hs == more;
    }
  }

  /** The scan succeeds exactly when every matched header yields its scalar
      and its block; then entry k of both lists comes from header k, so the
      scalars and the blocks stay aligned. */
  predicate CollectsEntries(lines: seq<string>, kind: HeaderKind, hs: seq<nat>, toFloat: string -> Option<real>)
    requires InRange(lines, hs)
  {
    (Collect(lines, kind, hs, toFloat).Ok? <==>
      forall k :: 0 <= k < |hs| ==> Entry(lines, kind, hs[k], toFloat).Ok?) &&
    (Collect(lines, kind, hs, toFloat).Ok? ==>
      forall k :: 0 <= k < |hs| ==>
        Collect(lines, kind, hs, toFloat).value.scalars[k] == Entry(lines, kind, hs[k], toFloat).value.0 &&
        Collect(lines, kind, hs, toFloat).value.blocks[k] == Entry(lines, kind, hs[k], toFloat).value.1)
  }

  lemma {:induction false} CollectOk(
    lines: seq<string>, kind: HeaderKind, hs: seq<nat>, toFloat: string -> Option<real>)
    requires InRange(lines, hs)
    ensures Collect(lines, kind, hs, toFloat).Ok? <==>
      forall k :: 0 <= k < |hs| ==> Entry(lines, kind, hs[k], toFloat).Ok?
    ensures Collect(lines, kind, hs, toFloat).Ok? ==>
      forall k :: 0 <= k < |hs| ==>
        Collect(lines, kind, hs, toFloat).value.scalars[k] == Entry(lines, kind, hs[k], toFloat).value.0 &&
        Collect(lines, kind, hs, toFloat).value.blocks[k] == Entry(lines, kind, hs[k], toFloat).value.1
    decreases |hs|
  {
    if hs != [] {
      var init, h := hs[..|hs| - 1], hs[|hs| - 1];
      assert InRange(lines, init);
      CollectOk(lines, kind, init, toFloat);
      assert hs == init + [h];
      CollectOkSnoc(lines, kind, init, h, toFloat);
    }
  }

  /** The step of CollectOk: one more header keeps the correspondence. */
  lemma CollectOkSnoc(
    lines: seq<string>, kind: HeaderKind, init: seq<nat>, h: nat, toFloat: string -> Option<real>)
    requires InRange(lines, init) && h < |lines|
    requires CollectsEntries(lines, kind, init, toFloat)
    ensures InRange(lines, init + [h]) && CollectsEntries(lines, kind, init + [h], toFloat)
  {
    var hs := init + [h];
    CollectSnoc(lines, kind, init, h, toFloat);
    var ri := Collect(lines, kind, init, toFloat);
    var eh := Entry(lines, kind, h, toFloat);
    var r := Collect(lines, kind, hs, toFloat);
    if ri.Ok? && eh.Ok? {
      var sc := ri.value.scalars + [eh.value.0];
      var bl := ri.value.blocks + [eh.value.1];
      assert r == Ok(Scanned(sc, bl));
      forall k | 0 <= k < |hs|
        ensures Entry(lines, kind, hs[k], toFloat).Ok?
        ensures sc[k] == Entry(lines, kind, hs[k], toFloat).value.0
        ensures bl[k] == Entry(lines, kind, hs[k], toFloat).value.1
      {
        if k < |init| {
          assert hs[k] == init[k];
        }
      }
    } else if ri.Err? {
      assert r.Err?;
      var k :| 0 <= k < |init| && !Entry(lines, kind, init[k], toFloat).Ok?;
      assert hs[k] == init[k];
    } else {
      assert r.Err?;
      assert !Entry(lines, kind, hs[|hs| - 1], toFloat).Ok?;
    }
  }

  /** When the scan fails, it fails with the error of the first matched
      header that does not yield its scalar and its block. */
  lemma {:induction false} CollectFirstError(
    lines: seq<string>, kind: HeaderKind, hs: seq<nat>, toFloat: string -> Option<real>)
    requires InRange(lines, hs)
    requires Collect(lines, kind, hs, toFloat).Err?
    ensures exists k :: (0 <= k < |hs| &&
      (forall j :: 0 <= j < k ==> Entry(lines, kind, hs[j], toFloat).Ok?) &&
      Entry(lines, kind, hs[k], toFloat) == Err(Collect(lines, kind, hs, toFloat).error))
    decreases |hs|
  {
    var init, h := hs[..|hs| - 1], hs[|hs| - 1];
    assert InRange(lines, init);
    var ri := Collect(lines, kind, init, toFloat);
    var e := Collect(lines, kind, hs, toFloat).error;
    if ri.Err? {
      CollectFirstError(lines, kind, init, toFloat);
      var k :| 0 <= k < |init| &&
        (forall j :: 0 <= j < k ==> Entry(lines, kind, init[j], toFloat).Ok?) &&
        Entry(lines, kind, init[k], toFloat) == Err(ri.error);
      assert forall j :: 0 <= j <= k ==> init[j] == hs[j];
    } else {
      CollectOk(lines, kind, init, toFloat);
      assert forall j :: 0 <= j < |init| ==> init[j] == hs[j];
      assert Entry(lines, kind, h, toFloat) == Err(e);
    }
  }

  /** Block k of a successful scan is the block under header k. */
  lemma CollectBlock(
    lines: seq<string>, kind: HeaderKind, hs: seq<nat>, toFloat: string -> Option<real>, k: nat)
    requires InRange(lines, hs) && Collect(lines, kind, hs, toFloat).Ok? && k < |hs|
    ensures BlockAt(lines, hs[k]).Ok?
    ensures Collect(lines, kind, hs, toFloat).value.blocks[k] == BlockAt(lines, hs[k]).value
  {
    CollectOk(lines, kind, hs, toFloat);
    assert Entry(lines, kind, hs[k], toFloat).Ok?;
  }

  /** Fields 1, 2 and 3 of a node row, converted in that order
      (`float(row.split()[1])`, `[2]`, `[3]`). */
  function RowTriple(row: string, toFloat: string -> Option<real>): (r: Result<seq<real>>)
    ensures r.Ok? ==> |r.value| == Dof
  {
    match Field(row, 1, toFloat)
    case Err(e) => Err(e)
    case Ok(x) =>
      match Field(row, 2, toFloat)
      case Err(e) => Err(e)
      case Ok(y) =>
        match Field(row, 3, toFloat)
        case Err(e) => Err(e)
        case Ok(z) => Ok([x, y, z])
  }

  /** A row's triple exists exactly when fields 1..3 all convert, and
      component c of the triple is field c + 1. */
  lemma RowTripleFields(row: string, toFloat: string -> Option<real>)
    ensures RowTriple(row, toFloat).Ok? <==> forall c :: 1 <= c <= Dof ==> Field(row, c, toFloat).Ok?
    ensures RowTriple(row, toFloat).Ok? ==>
      forall c :: 0 <= c < Dof ==> RowTriple(row, toFloat).value[c] == Field(row, c + 1, toFloat).value
  {
    if !RowTriple(row, toFloat).Ok? {
      assert !Field(row, 1, toFloat).Ok? || !Field(row, 2, toFloat).Ok? || !Field(row, 3, toFloat).Ok?;
    }
  }

  /** The flattened first `n` rows of a block (`values_to_list`): node
      after node, x then y then z. Reading row `i` raises IndexError when the
      block has no row `i`. */
  function Column(block: seq<string>, n: nat, toFloat: string -> Option<real>): (r: Result<seq<real>>)
    ensures r.Ok? ==> n <= |block| && |r.value| == Dof * n
    decreases n
  {
    if n == 0 then Ok([])
    else
      match Column(block, n - 1, toFloat)
      case Err(e) => Err(e)
      case Ok(v) =>
        if n - 1 >= |block| then Err(IndexError)
        else
          match RowTriple(block[n - 1], toFloat)
          case Err(e) => Err(e)
          case Ok(t) => Ok(v + t)
  }

  /** Entry 3*i + c of a column is component c of node row i. */
  lemma {:induction false} ColumnEntries(block: seq<string>, n: nat, toFloat: string -> Option<real>)
    requires Column(block, n, toFloat).Ok?
    ensures forall row :: 0 <= row < Dof * n ==>
      RowTriple(block[row / Dof], toFloat).Ok? &&
      Column(block, n, toFloat).value[row] == RowTriple(block[row / Dof], toFloat).value[row % Dof]
    decreases n
  {
    if n > 0 {
      ColumnEntries(block, n - 1, toFloat);
      var v := Column(block, n - 1, toFloat).value;
      var t := RowTriple(block[n - 1], toFloat).value;
      assert Column(block, n, toFloat).value == v + t;
      forall row | Dof * (n - 1) <= row < Dof * n
        ensures row / Dof == n - 1 && row % Dof == row - Dof * (n - 1)
      {
      }
    }
  }

  /** Entry `row` of a column is component `row % 3` of node row `row / 3`. */
  lemma ColumnEntry(block: seq<string>, n: nat, toFloat: string -> Option<real>, row: nat)
    requires Column(block, n, toFloat).Ok? && row < Dof * n
    ensures row / Dof < n <= |block| && RowTriple(block[row / Dof], toFloat).Ok?
    ensures Column(block, n, toFloat).value[row] == RowTriple(block[row / Dof], toFloat).value[row % Dof]
  {
    ColumnEntries(block, n, toFloat);
  }

  /** Entry `row` of a column is field `row % 3 + 1` of node row `row / 3`. */
  lemma ColumnField(block: seq<string>, n: nat, toFloat: string -> Option<real>, row: nat)
    requires Column(block, n, toFloat).Ok? && row < Dof * n
    ensures row / Dof < n <= |block|
    ensures Field(block[row / Dof], row % Dof + 1, toFloat) == Ok(Column(block, n, toFloat).value[row])
  {
    ColumnEntries(block, n, toFloat);
    var line, c := block[row / Dof], row % Dof;
    RowTripleFields(line, toFloat);
    assert Field(line, c + 1, toFloat).Ok?;
  }

  /** A column exists exactly when the block has `n` rows and each of the
      first `n` yields its triple. */
  lemma {:induction false} ColumnOkIff(block: seq<string>, n: nat, toFloat: string -> Option<real>)
    ensures Column(block, n, toFloat).Ok? <==>
      n <= |block| && forall i :: 0 <= i < n ==> RowTriple(block[i], toFloat).Ok?
    decreases n
  {
    if n > 0 {
      ColumnOkIff(block, n - 1, toFloat);
    }
  }

  /** Once reading rows has failed, reading more rows keeps that failure. */
  lemma {:induction false} ColumnErrExtends(block: seq<string>, i: nat, n: nat, toFloat: string -> Option<real>)
    requires i <= n && Column(block, i, toFloat).Err?
    ensures Column(block, n, toFloat) == Column(block, i, toFloat)
    decreases n
  {
    if n > i {
      ColumnErrExtends(block, i, n - 1, toFloat);
    }
  }

  /** Rows past the first `n` are never read: a block with extra rows gives
      the same column. */
  lemma {:induction false} ColumnIgnoresExtraRows(
    block: seq<string>, extra: seq<string>, n: nat, toFloat: string -> Option<real>)
    requires n <= |block|
    ensures Column(block + extra, n, toFloat) == Column(block, n, toFloat)
    decreases n
  {
    if n > 0 {
      assert (block + extra)[n - 1] == block[n - 1];
      ColumnIgnoresExtraRows(block, extra, n - 1, toFloat);
    }
  }
}
