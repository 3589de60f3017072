# Snapshot matrices for model order reduction, in Dafny

This project models how the model-order-reduction scripts of
`model_order_reduction` assemble snapshot matrices, and proves properties of
that model. A snapshot matrix is a matrix whose columns are the states of a
structure at successive instants, three displacement values per node, node
after node. Three pieces of code build one:

- `create_snapshotmatrix_from_file`, in `AsciiSnapshot`.
  - It scans a GiD-style ASCII result file for `Result "Displacements (m)"` headers.
  - For each header, it collects the block of node rows three lines below it.
  - It stacks the x, y and z fields of each block's rows into one column.
- The modal-analysis script, in `ModalSnapshot`.
  - It scans a result file for `Result "Mode_<m>_` headers of the chosen modes, skipping rotation results.
  - For each one, it collects the frequency and the node block.
  - It writes each node's amplitudes, times a sine of that mode's frequency, into a 3-D array.
- The Kratos driver (`notebooks/MainKratos.py`), in `KratosSnapshot`.
  - The class `StructuralMechanicsAnalysisSavingData` records one displacement vector per solution step, then stacks the vectors into a matrix.
  - The driver exports the left singular vectors `u` of that matrix as a nodal basis, keyed by node id 1..N.

Two modules underneath are shared:

- `PyText` models the Python string built-ins the parsers use, on ASCII text:
  - `str.split()`, `in`, `line[0].isdigit()`, `split(")")[0]`, `str(int)`;
  - the exceptions they raise, `IndexError` and `ValueError`.
- `ResFile` models the result-file block rule that both parsers share:
  - the header, two lines that are skipped, then the run of digit-led rows;
  - the fold of the scan over the matched headers;
  - the flattening of node rows into a column.

Files are given as their list of lines, as `readlines()` returns them. `float()` is a parameter
`toFloat: string -> Option<real>`, where `None` stands for the `ValueError` it raises. Every
exception the modelled code can raise is a `Result` or `Outcome` value, except those listed
under "Left out". It carries the Python
exception's own name, and the first one raised in Python's evaluation order wins.

The loops of the scripts are Dafny methods with loop invariants. Each method is proved against a
function of its inputs (`Collect`, `Column`, `Columns`, `PlaceOutcome`, `Cell`, `Stacked`). The
properties of those functions are lemmas. The matrices are Dafny arrays (`array2`, `array3`). The
recorder is a class whose method appends to its container field.

## Model

| member | source | states |
|---|---|---|
| PyText.Split | python_scripts/create_snapshotmatrix_from_ascii_file.py:28 | every word `str.split()` yields is non-empty and free of whitespace; SplitWords says which words they are |
| PyText.IsSpace | python_scripts/create_snapshotmatrix_from_ascii_file.py:28 | `c.isspace()` on ASCII: the space, tab, line feed, vertical tab, form feed, carriage return and the separators 0x1c-0x1f |
| PyText.IsDigit | python_scripts/create_snapshotmatrix_from_ascii_file.py:32 | `c.isdigit()` on ASCII: the characters 0-9 |
| PyText.SplitWords | python_scripts/create_snapshotmatrix_from_ascii_file.py:28 | a line made of whitespace-free words, with any whitespace before the first, a non-empty run of whitespace between two, and any whitespace after the last (the trailing "\n" of `readlines()`), splits into exactly those words in order |
| PyText.Contains | python_scripts/create_snapshotmatrix_from_ascii_file.py:27 | `pat in s`: false when `pat` is longer than `s`, true when `s` starts with `pat`; ContainsIff gives its full meaning |
| PyText.ContainsIff | python_scripts/create_snapshotmatrix_from_ascii_file.py:27 | `pat in s` holds exactly when `pat` occurs at some position of `s` |
| PyText.BeforeFirst | python_scripts/compute_snapshot_matrix_from_modal_analysis.py:28 | `s.split(sep)[0]` is a prefix of `s` without `sep`, followed in `s` by `sep` or by nothing |
| PyText.FirstIsDigit | python_scripts/create_snapshotmatrix_from_ascii_file.py:32 | `line[0].isdigit()`: IndexError on an empty line, otherwise whether the first character is a digit |
| PyText.ToFloat | python_scripts/create_snapshotmatrix_from_ascii_file.py:28 | `float(token)` succeeds exactly when the conversion accepts the token, with its value; otherwise ValueError |
| PyText.Field | python_scripts/create_snapshotmatrix_from_ascii_file.py:49-51 | `float(row.split()[c])` is IndexError if and only if the row has at most c words; otherwise it is the conversion of word c |
| PyText.NatString | python_scripts/compute_snapshot_matrix_from_modal_analysis.py:26 | `str(n)` for a non-negative `n` is a non-empty string of decimal digits |
| PyText.DecimalString | python_scripts/compute_snapshot_matrix_from_modal_analysis.py:26 | the f-string text of an integer: for n ≥ 0 decimal digits whose value is n, for n < 0 a minus sign followed by the digits of -n |
| PyText.NatStringRoundTrip | python_scripts/compute_snapshot_matrix_from_modal_analysis.py:26 | reading back the digits of `str(n)` gives `n`, so the header text names the mode exactly |
| ResFile.RunEnd | python_scripts/create_snapshotmatrix_from_ascii_file.py:32-34 | the `while` loop over digit-led lines stops at a line that is non-empty and not digit-led, after only digit-led lines; otherwise it raises IndexError |
| ResFile.RunEndFindsTerminator | python_scripts/create_snapshotmatrix_from_ascii_file.py:32-34 | whenever a terminating line follows a run of digit-led lines, the loop stops exactly there |
| ResFile.BlockAt | python_scripts/create_snapshotmatrix_from_ascii_file.py:29-34 | the block under header h is raised as IndexError or is lines h + 3 onward, each a digit-led node row, and the line after it is non-empty and not digit-led |
| ResFile.BlockAtCharacterized | python_scripts/create_snapshotmatrix_from_ascii_file.py:29-34 | a block is found exactly when its run of node rows, starting three lines below the header, is terminated; it is then those lines, and otherwise IndexError |
| ResFile.BlockRow | python_scripts/create_snapshotmatrix_from_ascii_file.py:32-33 | row i of the block under header h is line h + 3 + i |
| ResFile.ExtractBlock | python_scripts/create_snapshotmatrix_from_ascii_file.py:29-34 | the `i_jump` loop returns the block, or raises IndexError, as the block rule says |
| ResFile.HeaderScalar | python_scripts/create_snapshotmatrix_from_ascii_file.py:28 | `float(line.split()[4])` for a displacement header, `float(line.split()[2].split(")")[0])` for a mode header; IndexError if and only if the header has at most as many words as its scalar's position (4 or 2) |
| ResFile.HeaderScalarOfWords | python_scripts/create_snapshotmatrix_from_ascii_file.py:28 | for a header written as words and whitespace, the time is word 4 converted and the frequency is word 2 cut before `)` and converted; too few words raise IndexError |
| ResFile.Entry | python_scripts/create_snapshotmatrix_from_ascii_file.py:28-36 | a header yields its pair exactly when its scalar and its block both do, the pair being the two; a failing scalar raises first, before the block is read |
| ResFile.ReadEntry | python_scripts/create_snapshotmatrix_from_ascii_file.py:28-36 | one matched header converts its scalar first, then collects its block |
| ResFile.Collect | python_scripts/create_snapshotmatrix_from_ascii_file.py:26-36 | a scan that completes has one scalar and one block per matched header |
| ResFile.CollectSnoc | python_scripts/create_snapshotmatrix_from_ascii_file.py:26-36 | scanning one more header extends the lists by its entry, or fails with that entry's error |
| ResFile.CollectErrExtends | python_scripts/create_snapshotmatrix_from_ascii_file.py:26-36 | after a failure, scanning further headers keeps that failure: the first exception aborts the loop |
| ResFile.CollectOk | python_scripts/create_snapshotmatrix_from_ascii_file.py:26-36 | the scan completes exactly when every matched header yields its scalar and its block; entry k of both lists then comes from header k |
| ResFile.CollectFirstError | python_scripts/create_snapshotmatrix_from_ascii_file.py:26-36 | a failed scan raises the error of the first header that fails, all earlier ones succeeding |
| ResFile.CollectBlock | python_scripts/create_snapshotmatrix_from_ascii_file.py:32-36 | block k of a completed scan is the block under the k-th matched header |
| ResFile.RowTriple | python_scripts/create_snapshotmatrix_from_ascii_file.py:49-51 | a node row that converts gives three values |
| ResFile.RowTripleFields | python_scripts/create_snapshotmatrix_from_ascii_file.py:49-51 | a row gives its triple exactly when fields 1, 2 and 3 all convert, and component c is field c + 1 |
| ResFile.Column | python_scripts/create_snapshotmatrix_from_ascii_file.py:45-51 | flattening the first n rows succeeds only when the block has n rows, and gives 3n values |
| ResFile.ColumnEntries | python_scripts/create_snapshotmatrix_from_ascii_file.py:48-51 | entry 3i + c of the flattened column is component c of node row i |
| ResFile.ColumnEntry | python_scripts/create_snapshotmatrix_from_ascii_file.py:48-51 | the same property for one entry `row`: node row `row / 3`, component `row % 3` |
| ResFile.ColumnField | python_scripts/create_snapshotmatrix_from_ascii_file.py:48-51 | entry `row` of the column is field `row % 3 + 1` of node row `row / 3` |
| ResFile.ColumnOkIff | python_scripts/create_snapshotmatrix_from_ascii_file.py:48-51 | the column exists exactly when the block has n rows and each of them yields its triple |
| ResFile.ColumnErrExtends | python_scripts/create_snapshotmatrix_from_ascii_file.py:48-51 | once a row fails, reading more rows keeps that failure |
| ResFile.ColumnIgnoresExtraRows | python_scripts/create_snapshotmatrix_from_ascii_file.py:48 | rows past the first n are never read: extra rows leave the column unchanged |
| AsciiSnapshot.IsDisplacementHeader | python_scripts/create_snapshotmatrix_from_ascii_file.py:27 | a header is a line containing `Result "Displacements (m)"` |
| AsciiSnapshot.Headers | python_scripts/create_snapshotmatrix_from_ascii_file.py:26-27 | the matched header positions lie among the lines scanned |
| AsciiSnapshot.HeadersSound | python_scripts/create_snapshotmatrix_from_ascii_file.py:26-27 | every listed line holds the displacement marker, and the positions strictly increase |
| AsciiSnapshot.HeadersComplete | python_scripts/create_snapshotmatrix_from_ascii_file.py:26-27 | every line holding the marker is listed |
| AsciiSnapshot.HeadersPrefix | python_scripts/create_snapshotmatrix_from_ascii_file.py:26-27 | the headers among the first n lines begin the headers among the first m ≥ n lines |
| AsciiSnapshot.ScanDisplacementBlocks | python_scripts/create_snapshotmatrix_from_ascii_file.py:26-36 | the scan loop returns exactly the scan of all header lines in file order, or its first exception |
| AsciiSnapshot.ScanLine | python_scripts/create_snapshotmatrix_from_ascii_file.py:27-36 | the loop body on line i extends the scan of lines before i to the scan of lines up to i |
| AsciiSnapshot.Columns | python_scripts/create_snapshotmatrix_from_ascii_file.py:44-53 | on success there is one column per block, and column k is block k's flattened column |
| AsciiSnapshot.ColumnsOkIff | python_scripts/create_snapshotmatrix_from_ascii_file.py:44-53 | all columns exist exactly when every block yields its column |
| AsciiSnapshot.ColumnsErrExtends | python_scripts/create_snapshotmatrix_from_ascii_file.py:44-53 | once a block fails, later blocks do not change the failure |
| AsciiSnapshot.ColumnsStep | python_scripts/create_snapshotmatrix_from_ascii_file.py:44-53 | one more time step adds block k's column, or its failure |
| AsciiSnapshot.FlattenRows | python_scripts/create_snapshotmatrix_from_ascii_file.py:45-51 | the `i_node` loop builds `values_to_list` exactly as the flattened column, or raises its first exception |
| AsciiSnapshot.WriteColumn | python_scripts/create_snapshotmatrix_from_ascii_file.py:53 | `snapshot_mtx[:, k] = values` sets column k to the values and leaves every other column unchanged |
| AsciiSnapshot.FillSnapshotMatrix | python_scripts/create_snapshotmatrix_from_ascii_file.py:38-55 | with no block, IndexError. Otherwise the matrix is fresh, of shape (3 × rows of the first block, number of blocks), and entry [row, k] is entry row of block k's column; the same errors arise |
| AsciiSnapshot.SnapshotColumns | python_scripts/create_snapshotmatrix_from_ascii_file.py:26-55 | the function's result as columns: the scan's first exception; else IndexError when no header was found; else the columns of all blocks cut to the first block's row count |
| AsciiSnapshot.CreateSnapshotMatrixFromFile | python_scripts/create_snapshotmatrix_from_ascii_file.py:13-55 | the function returns a fresh matrix exactly when the scan and the columns succeed; its entries are the columns' entries, and otherwise the exception raised is the first one |
| AsciiSnapshot.NoHeaders | python_scripts/create_snapshotmatrix_from_ascii_file.py:26-27 | a file without the marker has no header positions |
| AsciiSnapshot.NoHeaderFails | python_scripts/create_snapshotmatrix_from_ascii_file.py:38 | a file without any displacement header raises IndexError at `values_list[0]` |
| AsciiSnapshot.UnterminatedBlockFails | python_scripts/create_snapshotmatrix_from_ascii_file.py:32 | a header whose node rows run to the end of the file makes the function fail |
| AsciiSnapshot.ShortLaterBlockFails | python_scripts/create_snapshotmatrix_from_ascii_file.py:48-49 | a later block with fewer rows than the first makes the function fail |
| AsciiSnapshot.SnapshotShape | python_scripts/create_snapshotmatrix_from_ascii_file.py:38-42 | on success there is at least one header, one column per header, and 3 × (rows of the first block) entries per column |
| AsciiSnapshot.EntryFromLine | python_scripts/create_snapshotmatrix_from_ascii_file.py:44-53 | entry [row, k] is field `row % 3 + 1` of line `h + 3 + row / 3`, where h is the k-th header line |
| AsciiSnapshot.SnapshotEntries | python_scripts/create_snapshotmatrix_from_ascii_file.py:44-53 | the same tracing holds for every entry of the matrix at once |
| ModalSnapshot.ModeMarker | python_scripts/compute_snapshot_matrix_from_modal_analysis.py:26 | the f-string `Result "Mode_<mode>_` with the mode in decimal; NatStringRoundTrip reads the mode back from its digits |
| ModalSnapshot.IsModeHeader | python_scripts/compute_snapshot_matrix_from_modal_analysis.py:26 | a line matches a marker when it contains the marker and does not contain `Modes_rotations` |
| ModalSnapshot.ModeMarkers | python_scripts/compute_snapshot_matrix_from_modal_analysis.py:25-26 | marker q is the f-string of the q-th chosen mode, one per mode |
| ModalSnapshot.ModeMatches | python_scripts/compute_snapshot_matrix_from_modal_analysis.py:24-26 | every match of the nested loops names a line of the file and a chosen mode |
| ModalSnapshot.ModeMatchesHeaders | python_scripts/compute_snapshot_matrix_from_modal_analysis.py:24-26 | every match is a header for its mode that is not a rotation result |
| ModalSnapshot.ModeMatchesOrdered | python_scripts/compute_snapshot_matrix_from_modal_analysis.py:24-26 | matches come in loop order, by line and then by mode position, so no pair occurs twice |
| ModalSnapshot.ModeMatchesComplete | python_scripts/compute_snapshot_matrix_from_modal_analysis.py:24-26 | every (line, mode) pair that matches and that the loops have passed is among the matches |
| ModalSnapshot.ModeMatchesPrefix | python_scripts/compute_snapshot_matrix_from_modal_analysis.py:24-26 | the matches found up to any position begin the full list |
| ModalSnapshot.MatchLines | python_scripts/compute_snapshot_matrix_from_modal_analysis.py:24-26 | the visited header lines are lines of the file |
| ModalSnapshot.MatchLinesStep | python_scripts/compute_snapshot_matrix_from_modal_analysis.py:24-26 | trying mode m on line i visits line i exactly when the line matches |
| ModalSnapshot.MatchLinesPrefix | python_scripts/compute_snapshot_matrix_from_modal_analysis.py:24-26 | the lines visited up to any position begin the full list |
| ModalSnapshot.ScanModeBlocks | python_scripts/compute_snapshot_matrix_from_modal_analysis.py:24-34 | the nested loops return the frequencies and blocks of all matches in loop order, or the first exception |
| ModalSnapshot.ModeScanEntries | python_scripts/compute_snapshot_matrix_from_modal_analysis.py:26-34 | entry k of `frequencies` and of `values_list` both come from match k: the header's field 2 cut before `)`, and the block under it |
| ModalSnapshot.NoModeMatches | python_scripts/compute_snapshot_matrix_from_modal_analysis.py:24-26 | with no matching line, the loops find nothing |
| ModalSnapshot.NothingMatchedFails | python_scripts/compute_snapshot_matrix_from_modal_analysis.py:42 | with no matching header, `np.max([])` raises ValueError |
| ModalSnapshot.ModalScan | python_scripts/compute_snapshot_matrix_from_modal_analysis.py:24-34 | a completed scan has as many frequencies as blocks |
| ModalSnapshot.PlacedNodes | python_scripts/compute_snapshot_matrix_from_modal_analysis.py:58 | as written, `np.arange(nb_nodes)[:2]` visits two nodes when there are at least two and every node otherwise; corrected, every node |
| ModalSnapshot.RowOf | python_scripts/compute_snapshot_matrix_from_modal_analysis.py:54-70 | the running index `i_node_snapshot_mtx` when node i of slab m is placed. As written: 0 for node 0 of slab 0, `i + 2` for node i > 0, and for node 0 of a later slab the value the previous slab left (`placed + 2`), never reset. Corrected: 3i |
| ModalSnapshot.StepOutcome | python_scripts/compute_snapshot_matrix_from_modal_analysis.py:60-68 | placing one node raises, in order: IndexError for a missing block or row, the conversion's error for fields 1..3, IndexError for a row index past the array |
| ModalSnapshot.PlaceOutcome | python_scripts/compute_snapshot_matrix_from_modal_analysis.py:57-70 | the placement up to node i of slab m raises the first step's exception in loop order, or passes |
| ModalSnapshot.PassedStep | python_scripts/compute_snapshot_matrix_from_modal_analysis.py:57-70 | once the placement of all slabs before M has passed, each placed node of each of them had its row, fields that convert and three rows inside the array |
| ModalSnapshot.SlabWriter | python_scripts/compute_snapshot_matrix_from_modal_analysis.py:58-70 | a row's writer is the last placed node covering it; no later node covers it, and no writer means no node covers it |
| ModalSnapshot.PlaceFailExtends | python_scripts/compute_snapshot_matrix_from_modal_analysis.py:57-70 | once a placement step raises, every later position of the loops reports that exception |
| ModalSnapshot.StepFails | python_scripts/compute_snapshot_matrix_from_modal_analysis.py:57-70 | a step that raises ends its slab with that exception |
| ModalSnapshot.NodeValue | python_scripts/compute_snapshot_matrix_from_modal_analysis.py:60-62 | for a row that converts, component c of node i in slab m is the wave of `float(values_list[m][i].split()[c + 1])` at mode m's frequency |
| ModalSnapshot.NodeValueOf | python_scripts/compute_snapshot_matrix_from_modal_analysis.py:60-62 | component c of node i in slab m is field c + 1 of its row times the wave of mode m's frequency |
| ModalSnapshot.Cell | python_scripts/compute_snapshot_matrix_from_modal_analysis.py:58-70 | after the first n nodes of slab m, a cell no node covers keeps what it held, and a cell holds the value of the last node covering it |
| ModalSnapshot.WriteRow | python_scripts/compute_snapshot_matrix_from_modal_analysis.py:66 | `snapshot_mtx[i_mode, row, :] = displ` sets that row's time axis and nothing else |
| ModalSnapshot.WriteNode | python_scripts/compute_snapshot_matrix_from_modal_analysis.py:60-68 | a node's x, y and z go to rows idx..idx + 2 of its slab; a row past the end raises IndexError |
| ModalSnapshot.CellStep | python_scripts/compute_snapshot_matrix_from_modal_analysis.py:66-68 | placing one more node changes exactly the cells it covers |
| ModalSnapshot.PlaceSlab | python_scripts/compute_snapshot_matrix_from_modal_analysis.py:58-70 | one slab ends with the first exception, or with every cell holding its last writer's value; other slabs are unchanged, and the running index is left where the next slab starts |
| ModalSnapshot.PlaceModes | python_scripts/compute_snapshot_matrix_from_modal_analysis.py:54-70 | all slabs are placed in order; on success every cell holds its last writer's value, or what it held |
| ModalSnapshot.Written | python_scripts/compute_snapshot_matrix_from_modal_analysis.py:58-70 | a cell is written exactly when some placed node covers it; its value is then that of the last node covering it |
| ModalSnapshot.WrittenCell | python_scripts/compute_snapshot_matrix_from_modal_analysis.py:54-70 | a cell that some node writes holds that node's value, whatever it held before |
| ModalSnapshot.ModalOutcome | python_scripts/compute_snapshot_matrix_from_modal_analysis.py:24-70 | the script's outcome: the scan's exception, ValueError from `np.max` when nothing matched, then the placement's; a pass implies a completed scan with at least one block |
| ModalSnapshot.PassedCells | python_scripts/compute_snapshot_matrix_from_modal_analysis.py:57-70 | in either layout, after a passing placement a written cell holds component `row - RowOf` of its writer's triple (field `row - RowOf + 1` of its row) times the wave of its mode |
| ModalSnapshot.ComputeModalSnapshot | python_scripts/compute_snapshot_matrix_from_modal_analysis.py:24-70 | the script succeeds exactly when the scan, `np.max` and the placement do. The array then has shape (modes, 3 × first block's rows, time steps), and every written cell holds its writer's amplitude times the wave. Otherwise the first exception is raised |
| ModalSnapshot.AsWrittenFirstSlab | python_scripts/compute_snapshot_matrix_from_modal_analysis.py:54-70 | as written, slab 0 gets node 0 in rows 0-2 and node 1 in rows 3-5, and nothing from row 6 on |
| ModalSnapshot.AsWrittenLaterSlab | python_scripts/compute_snapshot_matrix_from_modal_analysis.py:57-70 | as written, later slabs start node 0 at row 4 and node 1 at row 3. Node 1 overwrites two of node 0's rows, row 6 keeps node 0's z, and rows 0-2 stay unwritten |
| ModalSnapshot.AsWrittenUnwrittenRows | python_scripts/compute_snapshot_matrix_from_modal_analysis.py:58-70 | as written, nothing is written from row 7 on (from row 6 on in slab 0), however many nodes there are |
| ModalSnapshot.AsWrittenFailsWithFewNodes | python_scripts/compute_snapshot_matrix_from_modal_analysis.py:57-70 | as written, two or more modes with one or two nodes always fail |
| ModalSnapshot.CorrectedWritesEachRowOnce | python_scripts/compute_snapshot_matrix_from_modal_analysis.py:57-70 | corrected, each row of each slab is covered by exactly one node, node `row / 3`, which is its writer |
| ModalSnapshot.CorrectedSlabPasses | python_scripts/compute_snapshot_matrix_from_modal_analysis.py:57-70 | corrected, a slab passes its first i nodes exactly when block m's first i rows flatten into a column |
| ModalSnapshot.CorrectedPasses | python_scripts/compute_snapshot_matrix_from_modal_analysis.py:57-70 | corrected, the placement succeeds exactly when every slab's block flattens into a full column |
| ModalSnapshot.CorrectedCells | python_scripts/compute_snapshot_matrix_from_modal_analysis.py:57-70 | corrected, cell [m, row, t] is entry `row` of block m's column times the wave of mode m |
| KratosSnapshot.NodalVector | notebooks/MainKratos.py:26-30 | a step's vector has three entries per node |
| KratosSnapshot.GetSolutionStepValue | notebooks/MainKratos.py:28-30 | `node.GetSolutionStepValue(variable, 0)`: a node's X, Y or Z displacement |
| KratosSnapshot.NodalVectorEntry | notebooks/MainKratos.py:26-30 | entry 3i + c of a step's vector is node i's value of the c-th nodal unknown |
| KratosSnapshot.NodalVectorEntries | notebooks/MainKratos.py:26-30 | the same ordering, for every entry at once |
| KratosSnapshot.ColumnOf | notebooks/MainKratos.py:41-42 | `SnapshotMatrix[:, i] = v` succeeds exactly when v has the column's length or length 1 (broadcast); it copies or repeats v, and otherwise raises ValueError |
| KratosSnapshot.StackColumns | notebooks/MainKratos.py:40-42 | on success there is one column per recorded vector, each that vector's column |
| KratosSnapshot.StackColumnsErrExtends | notebooks/MainKratos.py:40-42 | once a vector does not fit, later vectors do not change the failure |
| KratosSnapshot.StackColumnsStep | notebooks/MainKratos.py:40-42 | one more iteration adds vector k's column, or its failure |
| KratosSnapshot.StackColumnsOkIff | notebooks/MainKratos.py:39-42 | stacking succeeds exactly when every vector has the first one's length or length 1; otherwise ValueError |
| KratosSnapshot.Stacked | notebooks/MainKratos.py:39-43 | with nothing recorded, `container[0]` raises IndexError; on success there is one column per recorded vector, each that vector's column in a matrix of `len(container[0])` rows |
| KratosSnapshot.StackedRoundTrip | notebooks/MainKratos.py:39-43 | with equal lengths, column k of the matrix is exactly the k-th recorded vector |
| KratosSnapshot.StructuralMechanicsAnalysisSavingData.constructor | notebooks/MainKratos.py:20-22 | a new recorder holds no vector |
| KratosSnapshot.StructuralMechanicsAnalysisSavingData.FinalizeSolutionStep | notebooks/MainKratos.py:24-31 | each step appends its nodal vector and keeps the earlier ones |
| KratosSnapshot.StructuralMechanicsAnalysisSavingData.EvaluateQuantityOfInterest | notebooks/MainKratos.py:34-43 | the matrix is fresh, of shape (length of the first vector, number of steps), and column k is vector k's column. Otherwise the error is IndexError with nothing recorded, or ValueError |
| KratosSnapshot.StructuralMechanicsAnalysisSavingData.Run | notebooks/MainKratos.py:63 | running the simulation appends `Recorded(steps)`, one nodal vector per step in step order, to what was recorded |
| KratosSnapshot.TrainSnapshotMatrix | notebooks/MainKratos.py:62-64 | a fresh recorder run over the steps gives the stacked matrix of `Recorded(steps)`: column k is step k's nodal vector, or the stacking's error |
| KratosSnapshot.Recorded | notebooks/MainKratos.py:24-31 | one vector is recorded per step, vector k being the nodal vector of step k's nodes |
| KratosSnapshot.RecordedSnapshot | notebooks/MainKratos.py:24-43 | with a fixed node set, the matrix has one column per step, and entry [3i + c, k] is node i's c-th unknown at step k |
| KratosSnapshot.Rows | notebooks/MainKratos.py:86 | `u[lo:hi].tolist()` has hi - lo rows of `u`'s width, and entry [k][c] is `u[lo + k, c]` |
| KratosSnapshot.NodeCount | notebooks/MainKratos.py:81-82 | `int(np.shape(u)[0] / Dimensions)`: the largest N with 3N ≤ the rows of `u` |
| KratosSnapshot.ExportNodalBasis | notebooks/MainKratos.py:76-87 | the basis names the three unknowns and has one ROM dof per column of `u`. Its keys are exactly the node ids 1..N, and node id's entry is rows 3(id - 1)..3(id - 1) + 2 of `u` |
| KratosSnapshot.ExportRoundTrip | notebooks/MainKratos.py:84-87 | concatenating the chunks in id order gives back the first 3N rows of `u`: no row is lost or repeated |

## Left out

- Opening, reading and writing files (`open`, `readlines`, `json.dump` of `RomParameters.json`), and every `print`. The model starts from the list of lines and ends at the basis record. JSON's conversion of integer keys to strings is not modelled.
- `float()` on a token is the parameter `toFloat`. Which strings it accepts, and floating-point rounding, are not modelled. Values are `real`.
- `str.isspace` and `str.isdigit` are modelled for ASCII only. Unicode whitespace and digits are not recognised.
- The sine synthesis of the modal script (lines 36-45 and 52; `np.sin(0.8 * f * 2π * times)`) is abstracted as a parameter `wave(amplitude, frequency, t)`. `nb_time_steps`, which comes from `round(duration / dt_sampling)`, is a parameter of type `nat`. So the model does not raise the ValueError or OverflowError that `round()` raises for a NaN or infinite quotient. Nor does it raise the ValueError that `np.empty` (lines 48-49) raises for a negative step count, which a negative largest frequency would give. The only part of lines 42-45 that is kept is the ValueError `np.max` raises on an empty list.
- `np.empty` leaves garbage in its cells. The model states the value of every cell some node writes and says nothing of the others.
- ModalSnapshot.ComputeModalSnapshot, CreateSnapshotMatrixFromFile and EvaluateQuantityOfInterest: after a failure they return only the exception. The partly filled array is dropped, as Python drops it.
- The Kratos simulation itself (`super().__init__`, `super().FinalizeSolutionStep`, the solver and the model part) is reduced to the sequence of node displacements each step leaves. Of `Run`, only the call of `FinalizeSolutionStep` once per step, in step order, is modelled. The project parameters are left out.
- The randomized singular value decomposition (line 68) is not modelled. Its result `u` is the input of the basis export. The plot of singular values (lines 72-74) and the HROM training (lines 104-108) are left out.
- KratosSnapshot.ExportNodalBasis: `np.linspace(1, N, N)` is taken to give exactly the integers 1..N, so `int(node_Id[j])` is j + 1. Floating-point error in linspace is not modelled.
- `plot_displacements_time_per_node` and the `__main__` block of the ASCII script are left out. They plot and choose a file name.
- Behaviour of the code that a reader might not expect, modelled as the code has it:
  - The only errors are Python's own IndexError and ValueError.
  - The first node row is three lines below its header, so two lines are skipped.
  - Stacking with nothing recorded raises IndexError.
  - Blocks of differing size do not always fail. In the ASCII parser, a later block longer than the first is silently cut to the first block's size (ColumnIgnoresExtraRows). In the Kratos stacking, a vector of length 1 is broadcast (ColumnOf).
- Split: its own ensures states only that each word is non-empty and free of whitespace. Which words a line splits into is stated by the lemma SplitWords, for lines laid out as words and whitespace.

## Findings

| source | as written | input that shows it | evidently intended | confidence | as-written member | corrected member |
|---|---|---|---|---|---|---|
| python_scripts/compute_snapshot_matrix_from_modal_analysis.py:58-70 | only nodes 0 and 1 are placed (`[:2]`); the row index becomes `i_node + 3` and is never reset between modes | a file with three nodes and one mode: rows 6-8 are never written. Two modes with three nodes: slab 1 gets node 0 at rows 4-6 and node 1 at 3-5. Two modes with one or two nodes: IndexError | node i of every mode written at rows 3i, 3i + 1, 3i + 2, so every row of every slab is written once | high (the loop is marked `Buggy!` in the source); not executed | ModalSnapshot.AsWrittenLaterSlab | ModalSnapshot.CorrectedWritesEachRowOnce |
