/**
 * What the archive check reports about a forecast run: the fxshare file name of
 * each missing [member][step] cell, the summary status of a whole run, the
 * history of past runs and the verdict of the job.
 */
module StatusReport {
  import opened Wrappers
  import opened Decimal
  import Calendar
  import Describe
  import opened ArchiveStatus

  const FX_PREFIX := "_FXINP_lfrf"

  /**
   * fx_filename: the prefix, the lead time as two-digit days and two-digit hours,
   * "000_", the member in three digits and the file suffix.
   */
  function FxFilename(suffix: string, member: nat, step: nat): string
  {
    FX_PREFIX + Pad(step / 24, 2) + Pad(step % 24, 2) + "000_" + Pad(member, 3) + suffix
  }

  /** The inverse of fx_filename on names of the fixed-width form. */
  function ParseFxFilename(name: string): (r: Option<(string, nat, nat)>)
  {
    if |name| >= 22 && name[..11] == FX_PREFIX && AllDigits(name[11..13]) && AllDigits(name[13..15])
       && name[15..19] == "000_" && AllDigits(name[19..22]) && ParseDigits(name[13..15]) < 24
    then Some((name[22..], ParseDigits(name[19..22]), ParseDigits(name[11..13]) * 24 + ParseDigits(name[13..15])))
    else None
  }

  /** A name joined from the fixed-width fields splits back into them. */
  lemma SplitFxFilename(days: string, hours: string, mmm: string, suffix: string)
    requires |days| == 2 && |hours| == 2 && |mmm| == 3
    requires AllDigits(days) && AllDigits(hours) && AllDigits(mmm)
    ensures var name := FX_PREFIX + days + hours + "000_" + mmm + suffix;
      && |name| >= 22 && name[..11] == FX_PREFIX && name[11..13] == days && name[13..15] == hours
      && name[15..19] == "000_" && name[19..22] == mmm && name[22..] == suffix
  {
    var name := FX_PREFIX + days + hours + "000_" + mmm + suffix;
  }

  /** Members below 1000 and steps below 100 days print in the fixed width and parse back. */
  lemma FxFilenameRoundTrip(suffix: string, member: nat, step: nat)
    requires member < 1000 && step < 2400
    ensures ParseFxFilename(FxFilename(suffix, member, step)) == Some((suffix, member, step))
  {
    assert step / 24 < 100;
    PadExactWidth(step / 24, 2);
    PadExactWidth(step % 24, 2);
    PadExactWidth(member, 3);
    SplitFxFilename(Pad(step / 24, 2), Pad(step % 24, 2), Pad(member, 3), suffix);
  }

  /** Every name that parses is the file name of what it parses to. */
  lemma ParsedFxFilenamePrintsBack(name: string)
    requires ParseFxFilename(name).Some?
    ensures var (suffix, member, step) := ParseFxFilename(name).value;
      member < 1000 && step < 2400 && FxFilename(suffix, member, step) == name
  {
    var (suffix, member, step) := ParseFxFilename(name).value;
    var days, hours, mmm := name[11..13], name[13..15], name[19..22];
    var dd, hh := ParseDigits(days), ParseDigits(hours);
    DivModUnique(step, 24, dd, hh);
    PadOfParseDigits(days);
    PadOfParseDigits(hours);
    PadOfParseDigits(mmm);
    assert name == FX_PREFIX + days + hours + "000_" + mmm + suffix by {
      assert name == name[..11] + name[11..13] + name[13..15] + name[15..19] + name[19..22] + name[22..];
    }
  }

  /** Distinct cells of the same file type give distinct file names. */
  lemma FxFilenameInjective(suffix: string, m1: nat, s1: nat, m2: nat, s2: nat)
    requires m1 < 1000 && s1 < 2400 && m2 < 1000 && s2 < 2400
    requires FxFilename(suffix, m1, s1) == FxFilename(suffix, m2, s2)
    ensures m1 == m2 && s1 == s2
  {
    FxFilenameRoundTrip(suffix, m1, s1);
    FxFilenameRoundTrip(suffix, m2, s2);
  }

  /** The file names the test of fx_filename expects. */
  lemma FxFilenameExamples()
    ensures FxFilename("suf", 0, 0) == "_FXINP_lfrf0000000_000suf"
    ensures FxFilename("", 1, 10) == "_FXINP_lfrf0010000_001"
    ensures FxFilename("s", 123, 49) == "_FXINP_lfrf0201000_123s"
  {
    PadExamples();
    assert 0 / 24 == 0 && 0 % 24 == 0 && 10 / 24 == 0 && 10 % 24 == 10 && 49 / 24 == 2 && 49 % 24 == 1;
    assert FxFilename("suf", 0, 0) == FX_PREFIX + "00" + "00" + "000_" + "000" + "suf";
    assert FxFilename("", 1, 10) == FX_PREFIX + "00" + "10" + "000_" + "001" + "";
    assert FxFilename("s", 123, 49) == FX_PREFIX + "02" + "01" + "000_" + "123" + "s";
  }

  lemma PadExamples()
    ensures Pad(0, 2) == "00" && Pad(0, 3) == "000" && Pad(1, 3) == "001" && Pad(10, 2) == "10"
    ensures Pad(2, 2) == "02" && Pad(1, 2) == "01" && Pad(123, 3) == "123" && Pad(2, 3) == "002"
  {
    PadSmall();
    Pad123();
  }

  lemma PadSmall()
    ensures Pad(0, 2) == "00" && Pad(0, 3) == "000" && Pad(1, 3) == "001" && Pad(10, 2) == "10"
    ensures Pad(2, 2) == "02" && Pad(1, 2) == "01" && Pad(2, 3) == "002"
  {
    assert NumDigits(0) == 1 && NumDigits(1) == 1 && NumDigits(2) == 1 && NumDigits(10) == 2;
  }

  lemma Pad123()
    ensures Pad(123, 3) == "123"
  {
    assert NumDigits(123) == 3;
    assert Digits(123, 3) == "123";
  }

  /** The file names of the cells of one row that are 0, in step order. */
  function FailedInRow(suffix: string, member: nat, row: seq<int>): seq<string>
  {
    if row == [] then []
    else
      var step := |row| - 1;
      FailedInRow(suffix, member, row[..step]) + (if row[step] == 0 then [FxFilename(suffix, member, step)] else [])
  }

  /** The file names of the cells of one matrix that are 0, member by member. */
  function FailedInMatrix(suffix: string, rows: Matrix): seq<string>
  {
    if rows == [] then []
    else
      var member := |rows| - 1;
      FailedInMatrix(suffix, rows[..member]) + FailedInRow(suffix, member, rows[member])
  }

  /** get_failed_files as a value: the names of all cells that are 0, in dictionary order. */
  function FailedFiles(status: Status): seq<string>
  {
    if status == [] then []
    else
      var last := |status| - 1;
      FailedFiles(status[..last]) + FailedInMatrix(status[last].0, status[last].1)
  }

  /** The names the test of get_failed_files expects for its first entry, for any suffix. */
  lemma FailedFileNamesOfFirstEntry(suffix: string)
    ensures FxFilename(suffix, 0, 2) == "_FXINP_lfrf0002000_000" + suffix
    ensures FxFilename(suffix, 1, 0) == "_FXINP_lfrf0000000_001" + suffix
  {
    PadSmall();
    assert 2 / 24 == 0 && 2 % 24 == 2 && 0 / 24 == 0 && 0 % 24 == 0;
  }

  /** The names the test of get_failed_files expects for its second entry, for any suffix. */
  lemma FailedFileNamesOfSecondEntry(suffix: string)
    ensures FxFilename(suffix, 0, 0) == "_FXINP_lfrf0000000_000" + suffix
    ensures FxFilename(suffix, 2, 1) == "_FXINP_lfrf0001000_002" + suffix
  {
    PadSmall();
    assert 0 / 24 == 0 && 0 % 24 == 0 && 1 / 24 == 0 && 1 % 24 == 1;
  }

  /** The failed files of a row of three cells, in step order. */
  lemma FailedInRowOfThree(suffix: string, member: nat, a: int, b: int, c: int)
    ensures FailedInRow(suffix, member, [a, b, c])
         == (if a == 0 then [FxFilename(suffix, member, 0)] else [])
          + (if b == 0 then [FxFilename(suffix, member, 1)] else [])
          + (if c == 0 then [FxFilename(suffix, member, 2)] else [])
  {
    assert [a, b, c][..2] == [a, b] && [a, b][..1] == [a] && [a][..0] == [];
    assert FailedInRow(suffix, member, [a]) == (if a == 0 then [FxFilename(suffix, member, 0)] else []);
    assert FailedInRow(suffix, member, [a, b])
        == (if a == 0 then [FxFilename(suffix, member, 0)] else []) + (if b == 0 then [FxFilename(suffix, member, 1)] else []);
  }

  /** The failed files of a matrix of two or three rows, member by member. */
  lemma FailedInMatrixOfRows(suffix: string, r0: seq<int>, r1: seq<int>, r2: seq<int>)
    ensures FailedInMatrix(suffix, [r0, r1]) == FailedInRow(suffix, 0, r0) + FailedInRow(suffix, 1, r1)
    ensures FailedInMatrix(suffix, [r0, r1, r2])
         == FailedInRow(suffix, 0, r0) + FailedInRow(suffix, 1, r1) + FailedInRow(suffix, 2, r2)
  {
    assert [r0, r1, r2][..2] == [r0, r1] && [r0, r1][..1] == [r0] && [r0][..0] == [];
    assert FailedInMatrix(suffix, [r0]) == FailedInRow(suffix, 0, r0);
  }

  /** The failed files of a dictionary of two entries, entry by entry. */
  lemma FailedFilesOfTwo(e0: (string, Matrix), e1: (string, Matrix))
    ensures FailedFiles([e0, e1]) == FailedInMatrix(e0.0, e0.1) + FailedInMatrix(e1.0, e1.1)
  {
    assert [e0, e1][..1] == [e0] && [e0][..0] == [];
    assert FailedFiles([e0]) == FailedInMatrix(e0.0, e0.1);
  }

  /**
   * The test of get_failed_files, for any two suffixes: the 0 cells, entry by entry, member by
   * member, step by step, with the names the test expects.
   */
  lemma FailedFilesExample(suf1: string, suf2: string)
    ensures FailedFiles([(suf1, [[1, 1, 0], [0, 1, 1]]), (suf2, [[0, 1, 1], [1, 1, 1], [1, 0, 1]])])
         == ["_FXINP_lfrf0002000_000" + suf1, "_FXINP_lfrf0000000_001" + suf1,
             "_FXINP_lfrf0000000_000" + suf2, "_FXINP_lfrf0001000_002" + suf2]
  {
    FailedInRowOfThree(suf1, 0, 1, 1, 0);
    FailedInRowOfThree(suf1, 1, 0, 1, 1);
    FailedInRowOfThree(suf2, 0, 0, 1, 1);
    FailedInRowOfThree(suf2, 1, 1, 1, 1);
    FailedInRowOfThree(suf2, 2, 1, 0, 1);
    FailedInMatrixOfRows(suf1, [1, 1, 0], [0, 1, 1], []);
    FailedInMatrixOfRows(suf2, [0, 1, 1], [1, 1, 1], [1, 0, 1]);
    FailedFilesOfTwo((suf1, [[1, 1, 0], [0, 1, 1]]), (suf2, [[0, 1, 1], [1, 1, 1], [1, 0, 1]]));
    FailedFileNamesOfFirstEntry(suf1);
    FailedFileNamesOfSecondEntry(suf2);
  }

  /** Indices of a cell: the entry of the dictionary, the member and the step. */
  predicate IsCell(status: Status, i: int, m: int, s: int)
  {
    0 <= i < |status| && 0 <= m < |status[i].1| && 0 <= s < |status[i].1[m]|
  }

  /** A row lists exactly the names of its 0 cells. */
  lemma {:induction false} FailedInRowMembership(suffix: string, member: nat, row: seq<int>)
    ensures forall s | 0 <= s < |row| && row[s] == 0 :: FxFilename(suffix, member, s) in FailedInRow(suffix, member, row)
    ensures forall name | name in FailedInRow(suffix, member, row) ::
      exists s | 0 <= s < |row| :: row[s] == 0 && name == FxFilename(suffix, member, s)
  {
    if row != [] {
      var step := |row| - 1;
      var init := row[..step];
      FailedInRowMembership(suffix, member, init);
      assert forall s | 0 <= s < step :: init[s] == row[s];
    }
  }

  /** A matrix lists exactly the names of its 0 cells. */
  lemma {:induction false} FailedInMatrixMembership(suffix: string, rows: Matrix)
    ensures forall m, s | 0 <= m < |rows| && 0 <= s < |rows[m]| && rows[m][s] == 0 ::
      FxFilename(suffix, m, s) in FailedInMatrix(suffix, rows)
    ensures forall name | name in FailedInMatrix(suffix, rows) ::
      exists m, s | 0 <= m < |rows| && 0 <= s < |rows[m]| :: rows[m][s] == 0 && name == FxFilename(suffix, m, s)
  {
    if rows != [] {
      var member := |rows| - 1;
      var init := rows[..member];
      FailedInMatrixMembership(suffix, init);
      FailedInRowMembership(suffix, member, rows[member]);
      assert forall m | 0 <= m < member :: init[m] == rows[m];
    }
  }

  /** get_failed_files lists the name of every cell that is 0. */
  lemma {:induction false} FailedFilesComplete(status: Status)
    ensures forall i, m, s | IsCell(status, i, m, s) && status[i].1[m][s] == 0 ::
      FxFilename(status[i].0, m, s) in FailedFiles(status)
  {
    if status != [] {
      var last := |status| - 1;
      var init := status[..last];
      FailedFilesComplete(init);
      FailedInMatrixMembership(status[last].0, status[last].1);
      assert forall i | 0 <= i < last :: init[i] == status[i];
    }
  }

  /** get_failed_files lists nothing but the names of cells that are 0. */
  lemma {:induction false} FailedFilesSound(status: Status)
    ensures forall name | name in FailedFiles(status) ::
      exists i, m, s | IsCell(status, i, m, s) :: status[i].1[m][s] == 0 && name == FxFilename(status[i].0, m, s)
  {
    if status != [] {
      var last := |status| - 1;
      var init := status[..last];
      FailedFilesSound(init);
      FailedInMatrixMembership(status[last].0, status[last].1);
      forall name | name in FailedFiles(status)
        ensures exists i, m, s | IsCell(status, i, m, s) :: status[i].1[m][s] == 0 && name == FxFilename(status[i].0, m, s)
      {
        if name in FailedFiles(init) {
          var i, m, s :| IsCell(init, i, m, s) && init[i].1[m][s] == 0 && name == FxFilename(init[i].0, m, s);
          assert init[i] == status[i];
          assert IsCell(status, i, m, s);
        } else {
          var m, s :| 0 <= m < |status[last].1| && 0 <= s < |status[last].1[m]|
            && status[last].1[m][s] == 0 && name == FxFilename(status[last].0, m, s);
          assert IsCell(status, last, m, s);
        }
      }
    }
  }

  /** The number of cells of a row that are set. */
  function SetInRow(row: seq<int>): nat
  {
    if row == [] then 0 else SetInRow(row[1..]) + (if row[0] != 0 then 1 else 0)
  }

  /** The number of cells of all entries. */
  function CellCount(status: Status): nat
  {
    if status == [] then 0 else MatrixCells(status[0].1) + CellCount(status[1..])
  }

  function MatrixCells(rows: Matrix): nat
  {
    if rows == [] then 0 else |rows[0]| + MatrixCells(rows[1..])
  }

  /** The number of set cells of all entries. */
  function SetCount(status: Status): nat
  {
    if status == [] then 0 else MatrixSet(status[0].1) + SetCount(status[1..])
  }

  function MatrixSet(rows: Matrix): nat
  {
    if rows == [] then 0 else SetInRow(rows[0]) + MatrixSet(rows[1..])
  }

  /** A row has as many failed files as unset cells. */
  lemma {:induction false} FailedInRowCount(suffix: string, member: nat, row: seq<int>)
    ensures |FailedInRow(suffix, member, row)| + SetInRow(row) == |row|
  {
    if row != [] {
      var step := |row| - 1;
      FailedInRowCount(suffix, member, row[..step]);
      SetInRowSnoc(row[..step], row[step]);
      assert row[..step] + [row[step]] == row;
    }
  }

  /** Counting the set cells of a row from its end. */
  lemma {:induction false} SetInRowSnoc(row: seq<int>, x: int)
    ensures SetInRow(row + [x]) == SetInRow(row) + (if x != 0 then 1 else 0)
  {
    if row != [] {
      assert (row + [x])[1..] == row[1..] + [x];
      SetInRowSnoc(row[1..], x);
    }
  }

  lemma {:induction false} MatrixCountsSnoc(rows: Matrix, row: seq<int>)
    ensures MatrixCells(rows + [row]) == MatrixCells(rows) + |row|
    ensures MatrixSet(rows + [row]) == MatrixSet(rows) + SetInRow(row)
  {
    if rows != [] {
      assert (rows + [row])[1..] == rows[1..] + [row];
      MatrixCountsSnoc(rows[1..], row);
    }
  }

  /** A matrix has as many failed files as unset cells. */
  lemma {:induction false} FailedInMatrixCount(suffix: string, rows: Matrix)
    ensures |FailedInMatrix(suffix, rows)| + MatrixSet(rows) == MatrixCells(rows)
  {
    if rows != [] {
      var member := |rows| - 1;
      FailedInMatrixCount(suffix, rows[..member]);
      FailedInRowCount(suffix, member, rows[member]);
      MatrixCountsSnoc(rows[..member], rows[member]);
      assert rows[..member] + [rows[member]] == rows;
    }
  }

  lemma {:induction false} StatusCountsSnoc(status: Status, entry: (string, Matrix))
    ensures CellCount(status + [entry]) == CellCount(status) + MatrixCells(entry.1)
    ensures SetCount(status + [entry]) == SetCount(status) + MatrixSet(entry.1)
  {
    if status != [] {
      assert (status + [entry])[1..] == status[1..] + [entry];
      StatusCountsSnoc(status[1..], entry);
    }
  }

  /**
   * get_failed_files lists one name per unset cell: the set cells and the failed files
   * together account for every expected cell.
   */
  lemma {:induction false} FailedFilesCount(status: Status)
    ensures |FailedFiles(status)| + SetCount(status) == CellCount(status)
  {
    if status != [] {
      var last := |status| - 1;
      FailedFilesCount(status[..last]);
      FailedInMatrixCount(status[last].0, status[last].1);
      StatusCountsSnoc(status[..last], status[last]);
      assert status[..last] + [status[last]] == status;
    }
  }

  /** get_failed_files: the names of the 0 cells, by entry, member and step. */
  method GetFailedFiles(status: Status) returns (files: seq<string>)
    ensures files == FailedFiles(status)
  {
    files := [];
    var i := 0;
    while i < |status|
      invariant 0 <= i <= |status|
      invariant files == FailedFiles(status[..i])
    {
      assert status[..i + 1][..i] == status[..i];
      files := AddMatrixFailures(files, status[i].0, status[i].1);
      i := i + 1;
    }
    assert status[..i] == status;
  }

  /** The member loop of get_failed_files over one entry of the dictionary. */
  method AddMatrixFailures(acc: seq<string>, suffix: string, paramStatus: Matrix) returns (files: seq<string>)
    ensures files == acc + FailedInMatrix(suffix, paramStatus)
  {
    files := acc;
    var member := 0;
    while member < |paramStatus|
      invariant 0 <= member <= |paramStatus|
      invariant files == acc + FailedInMatrix(suffix, paramStatus[..member])
    {
      assert paramStatus[..member + 1][..member] == paramStatus[..member];
      files := AddRowFailures(files, suffix, member, paramStatus[member]);
      member := member + 1;
    }
    assert paramStatus[..member] == paramStatus;
  }

  /** The step loop of get_failed_files over the row of one member. */
  method AddRowFailures(acc: seq<string>, suffix: string, member: nat, stepsStatus: seq<int>) returns (files: seq<string>)
    ensures files == acc + FailedInRow(suffix, member, stepsStatus)
  {
    files := acc;
    var step := 0;
    while step < |stepsStatus|
      invariant 0 <= step <= |stepsStatus|
      invariant files == acc + FailedInRow(suffix, member, stepsStatus[..step])
    {
      assert stepsStatus[..step + 1][..step] == stepsStatus[..step];
      if stepsStatus[step] == 0 {
        files := files + [FxFilename(suffix, member, step)];
      }
      step := step + 1;
    }
    assert stepsStatus[..step] == stepsStatus;
  }

  /** ForecastStatus: the verdict on one forecast run as a whole. */
  datatype ForecastStatus = Missing | Complete | Incomplete

  /** The integer value of the enumeration. */
  function Code(s: ForecastStatus): nat
  {
    match s
    case Missing => 0
    case Complete => 1
    case Incomplete => 2
  }

  /** Every cell of every entry is set (vacuously so when there are no cells). */
  ghost predicate AllPresent(status: Status)
  {
    forall i, m, s | IsCell(status, i, m, s) :: status[i].1[m][s] != 0
  }

  /** Some cell of some entry is set. */
  ghost predicate AnyPresent(status: Status)
  {
    exists i, m, s | IsCell(status, i, m, s) :: status[i].1[m][s] != 0
  }

  /** summary_status as a value: complete when all cells are set, else incomplete when any is, else missing. */
  ghost function Summary(status: Status): ForecastStatus
  {
    if AllPresent(status) then Complete
    else if AnyPresent(status) then Incomplete
    else Missing
  }

  /** any(steps_stat): some step of the row is set. */
  predicate RowAny(row: seq<int>)
  {
    exists s | 0 <= s < |row| :: row[s] != 0
  }

  /** all(steps_stat): every step of the row is set. */
  predicate RowAll(row: seq<int>)
  {
    forall s | 0 <= s < |row| :: row[s] != 0
  }

  /** any(any(steps_stat) for steps_stat in status) for one entry. */
  predicate MatrixAny(rows: Matrix)
  {
    exists m | 0 <= m < |rows| :: RowAny(rows[m])
  }

  /** all(all(steps_stat) for steps_stat in status) for one entry. */
  predicate MatrixAll(rows: Matrix)
  {
    forall m | 0 <= m < |rows| :: RowAll(rows[m])
  }

  /** summary_status: folds any and all over the entries, then classifies. */
  method SummaryStatus(status: Status) returns (r: ForecastStatus)
    ensures r == Summary(status)
  {
    var anySuccess := false;
    var allSuccess := true;
    var i := 0;
    while i < |status|
      invariant 0 <= i <= |status|
      invariant anySuccess <==> exists j, m, s | IsCell(status, j, m, s) && j < i :: status[j].1[m][s] != 0
      invariant allSuccess <==> forall j, m, s | IsCell(status, j, m, s) && j < i :: status[j].1[m][s] != 0
    {
      anySuccess := anySuccess || MatrixAny(status[i].1);
      allSuccess := allSuccess && MatrixAll(status[i].1);
      i := i + 1;
    }
    if allSuccess {
      return Complete;
    }
    if anySuccess {
      return Incomplete;
    }
    return Missing;
  }

  /**
   * A run is complete exactly when get_failed_files has nothing to list; otherwise it is
   * incomplete when some cell is set and missing when none is.
   */
  lemma SummaryByFailedFiles(status: Status)
    ensures Summary(status) == Complete <==> FailedFiles(status) == []
    ensures Summary(status) == Incomplete <==> FailedFiles(status) != [] && AnyPresent(status)
    ensures Summary(status) == Missing <==> FailedFiles(status) != [] && !AnyPresent(status)
  {
    FailedFilesComplete(status);
    FailedFilesSound(status);
    if FailedFiles(status) != [] {
      var name := FailedFiles(status)[0];
      assert name in FailedFiles(status);
    }
  }

  /** The summaries the tests of the summary status expect. */
  lemma SummaryExamples(missing: Status, complete: Status, incomplete: Status)
    requires missing == [("p1", [[0, 0, 0, 0], [0, 0, 0, 0]]), ("p2", [[0], [0], [0], [0]])]
    requires complete == [("p1", [[1, 1, 1, 1], [1, 1, 1, 1]]), ("p2", [[1], [1], [1], [1]])]
    requires incomplete == [("p1", [[1, 1, 1, 0], [1, 1, 1, 1]]), ("p2", [[1], [1], [1], [1]])]
    ensures Summary(missing) == Missing
    ensures Summary(complete) == Complete
    ensures Summary(incomplete) == Incomplete
    ensures Summary([]) == Complete && Summary([("c", [])]) == Complete
  {
    assert IsCell(missing, 0, 0, 0) && missing[0].1[0][0] == 0;
    assert IsCell(incomplete, 0, 0, 3) && incomplete[0].1[0][3] == 0;
    assert IsCell(incomplete, 0, 0, 0) && incomplete[0].1[0][0] != 0;
  }

  /** The "%y%m%d%H00" label of a run start. */
  function Label(t: int): string
  {
    Calendar.LabelString(Calendar.FromTimestamp(t))
  }

  /** How many past runs historical_summary_status looks at: range(1, forecasts). */
  function HistoryLength(c: Collection): nat
  {
    if c.forecasts == 0 then 0 else c.forecasts - 1
  }

  /**
   * The summaries, as `summarize` gives them, of the n runs before `last`, newest first, each
   * one interval earlier than the one before; the first failing run makes the whole history fail.
   */
  ghost function History(summarize: int -> Result<ForecastStatus, CheckError>, last: int, interval: int, n: nat)
    : Result<seq<ForecastStatus>, CheckError>
  {
    if n == 0 then Success([])
    else
      match History(summarize, last, interval, n - 1)
      case Failure(e) => Failure(e)
      case Success(statuses) =>
        match summarize(PastStart(last, interval, n))
        case Failure(e) => Failure(e)
        case Success(summary) => Success(statuses + [summary])
  }

  /** historical_summary_status as a value: the history's summaries with the labels of the run starts. */
  ghost function HistoryReport(query: StepQuery, model: string, last: int, interval: int, n: nat)
    : Result<(seq<ForecastStatus>, seq<string>), CheckError>
  {
    match History(RunSummary(query, model), last, interval, n)
    case Failure(e) => Failure(e)
    case Success(statuses) => Success((statuses, Labels(RunStarts(last, interval, n))))
  }

  /** PastSummary as a function of the run start alone. */
  ghost function RunSummary(query: StepQuery, model: string): int -> Result<ForecastStatus, CheckError>
  {
    t => PastSummary(query, model, t)
  }

  /** summary_status(get_archive_status(model, t)). */
  ghost function PastSummary(query: StepQuery, model: string, t: int): Result<ForecastStatus, CheckError>
  {
    match ArchiveStatusOf(query, model, t)
    case Failure(e) => Failure(e)
    case Success(status) => Success(Summary(status))
  }

  /** The body of the loop of historical_summary_status for the run starting at t. */
  method GetPastSummary(query: StepQuery, model: string, t: int) returns (r: Result<ForecastStatus, CheckError>)
    ensures r == PastSummary(query, model, t)
  {
    var pastStatus := GetArchiveStatus(query, model, t);
    if pastStatus.Failure? {
      return Failure(pastStatus.error);
    }
    var summary := SummaryStatus(pastStatus.value);
    return Success(summary);
  }

  /** The start of the n-th run before `last`. */
  function PastStart(last: int, interval: int, n: nat): int
  {
    if n == 0 then last else PastStart(last, interval, n - 1) - interval
  }

  /** The n-th past run starts n whole intervals before the latest one. */
  lemma {:induction false} PastStartDistance(last: int, interval: int, n: nat)
    ensures PastStart(last, interval, n) == last - n * interval
  {
    if n > 0 {
      PastStartDistance(last, interval, n - 1);
      assert n * interval == (n - 1) * interval + interval;
    }
  }

  /** The starts of the n runs before `last`, newest first. */
  function RunStarts(last: int, interval: int, n: nat): (r: seq<int>)
    ensures |r| == n
  {
    if n == 0 then [] else RunStarts(last, interval, n - 1) + [PastStart(last, interval, n)]
  }

  /** The k-th listed run starts k + 1 whole intervals before the latest one. */
  lemma {:induction false} RunStartsSpacing(last: int, interval: int, n: nat)
    ensures forall k | 0 <= k < n :: RunStarts(last, interval, n)[k] == last - (k + 1) * interval
  {
    if n > 0 {
      RunStartsSpacing(last, interval, n - 1);
      PastStartDistance(last, interval, n);
      var starts := RunStarts(last, interval, n - 1);
      assert RunStarts(last, interval, n) == starts + [PastStart(last, interval, n)];
      forall k | 0 <= k < n
        ensures (starts + [PastStart(last, interval, n)])[k] == last - (k + 1) * interval
      {
        if k < n - 1 {
          assert (starts + [PastStart(last, interval, n)])[k] == starts[k];
        }
      }
    }
  }

  /** The labels of a sequence of run starts, in the same order. */
  function Labels(starts: seq<int>): (r: seq<string>)
    ensures |r| == |starts|
  {
    if starts == [] then [] else Labels(starts[..|starts| - 1]) + [Label(starts[|starts| - 1])]
  }

  lemma LabelsAppend(starts: seq<int>, t: int)
    ensures Labels(starts + [t]) == Labels(starts) + [Label(t)]
  {
    assert (starts + [t])[..|starts|] == starts;
  }

  /** The label of each listed run start is at the same position. */
  lemma {:induction false} LabelsAt(starts: seq<int>)
    ensures forall k | 0 <= k < |starts| :: Labels(starts)[k] == Label(starts[k])
  {
    if starts != [] {
      var init, t := starts[..|starts| - 1], starts[|starts| - 1];
      LabelsAt(init);
      assert starts == init + [t];
      LabelsAppend(init, t);
      forall k | 0 <= k < |starts|
        ensures (Labels(init) + [Label(t)])[k] == Label(starts[k])
      {
        if k < |init| {
          assert (Labels(init) + [Label(t)])[k] == Labels(init)[k];
        }
      }
    }
  }

  /** historical_summary_status: steps back one interval at a time from the latest run. */
  method HistoricalSummaryStatus(query: StepQuery, lastRunStart: int, c: Collection)
    returns (r: Result<(seq<ForecastStatus>, seq<string>), CheckError>)
    ensures r == HistoryReport(query, c.model, lastRunStart, c.interval, HistoryLength(c))
  {
    var historyStatus: seq<ForecastStatus> := [];
    var historyDatetime: seq<string> := [];
    var pastStart := lastRunStart;
    var n: nat := 0;
    while n < HistoryLength(c)
      invariant n <= HistoryLength(c)
      invariant pastStart == PastStart(lastRunStart, c.interval, n)
      invariant History(RunSummary(query, c.model), lastRunStart, c.interval, n) == Success(historyStatus)
      invariant historyDatetime == Labels(RunStarts(lastRunStart, c.interval, n))
    {
      pastStart := pastStart - c.interval;
      var pastSummary := GetPastSummary(query, c.model, pastStart);
      if pastSummary.Failure? {
        HistoryStops(query, c.model, lastRunStart, c.interval, n + 1, HistoryLength(c), historyStatus, pastStart);
        return Failure(pastSummary.error);
      }
      HistoryAdvance(query, c.model, lastRunStart, c.interval, n + 1, historyStatus, historyDatetime, pastStart);
      historyStatus := historyStatus + [pastSummary.value];
      historyDatetime := historyDatetime + [Label(pastStart)];
      n := n + 1;
    }
    return Success((historyStatus, historyDatetime));
  }

  /** A step of historical_summary_status whose run has a summary extends both lists by that run. */
  lemma HistoryAdvance(query: StepQuery, model: string, last: int, interval: int, k: nat,
                       statuses: seq<ForecastStatus>, labels: seq<string>, t: int)
    requires k >= 1 && t == PastStart(last, interval, k - 1) - interval
    requires History(RunSummary(query, model), last, interval, k - 1) == Success(statuses)
    requires labels == Labels(RunStarts(last, interval, k - 1))
    requires PastSummary(query, model, t).Success?
    ensures History(RunSummary(query, model), last, interval, k) == Success(statuses + [PastSummary(query, model, t).value])
    ensures Labels(RunStarts(last, interval, k)) == labels + [Label(t)]
  {
    assert t == PastStart(last, interval, k);
    assert RunSummary(query, model)(t) == PastSummary(query, model, t);
    HistoryStep(RunSummary(query, model), last, interval, k, statuses);
    LabelsAppend(RunStarts(last, interval, k - 1), t);
  }

  /** A step of historical_summary_status whose run fails ends the history with that failure. */
  lemma HistoryStops(query: StepQuery, model: string, last: int, interval: int, k: nat, n: nat,
                     statuses: seq<ForecastStatus>, t: int)
    requires 1 <= k <= n && t == PastStart(last, interval, k - 1) - interval
    requires History(RunSummary(query, model), last, interval, k - 1) == Success(statuses)
    requires PastSummary(query, model, t).Failure?
    ensures HistoryReport(query, model, last, interval, n) == Failure(PastSummary(query, model, t).error)
  {
    assert t == PastStart(last, interval, k);
    assert RunSummary(query, model)(t) == PastSummary(query, model, t);
    HistoryStep(RunSummary(query, model), last, interval, k, statuses);
    HistoryFailure(RunSummary(query, model), last, interval, k, n);
  }

  /** One more past run: its failure, or its summary appended. */
  lemma HistoryStep(summarize: int -> Result<ForecastStatus, CheckError>, last: int, interval: int, k: nat,
                    statuses: seq<ForecastStatus>)
    requires k >= 1 && History(summarize, last, interval, k - 1) == Success(statuses)
    ensures History(summarize, last, interval, k)
      == match summarize(PastStart(last, interval, k))
         case Failure(e) => Failure(e)
         case Success(summary) => Success(statuses + [summary])
  {
  }

  /** A run whose summary fails makes the whole history fail. */
  lemma {:induction false} HistoryFailure(summarize: int -> Result<ForecastStatus, CheckError>, last: int, interval: int, k: nat, n: nat)
    requires k <= n && History(summarize, last, interval, k).Failure?
    ensures History(summarize, last, interval, n) == History(summarize, last, interval, k)
    decreases n - k
  {
    if k < n {
      HistoryFailure(summarize, last, interval, k + 1, n);
    }
  }

  /** A history whose every run has a summary collects the summary of each run start, in order. */
  lemma {:induction false} HistoryOfSummaries(summarize: int -> Result<ForecastStatus, CheckError>, last: int, interval: int, n: nat)
    requires forall t :: summarize(t).Success?
    ensures History(summarize, last, interval, n).Success?
    ensures var statuses := History(summarize, last, interval, n).value;
      && |statuses| == n
      && forall k | 0 <= k < n :: Success(statuses[k]) == summarize(RunStarts(last, interval, n)[k])
  {
    if n > 0 {
      HistoryOfSummaries(summarize, last, interval, n - 1);
      var statuses := History(summarize, last, interval, n - 1).value;
      HistoryStep(summarize, last, interval, n, statuses);
      var t := PastStart(last, interval, n);
      var summary := summarize(t).value;
      assert History(summarize, last, interval, n) == Success(statuses + [summary]);
      var starts := RunStarts(last, interval, n - 1);
      assert RunStarts(last, interval, n) == starts + [t];
      forall k | 0 <= k < n
        ensures Success((statuses + [summary])[k]) == summarize((starts + [t])[k])
      {
        if k < n - 1 {
          assert (statuses + [summary])[k] == statuses[k] && (starts + [t])[k] == starts[k];
        }
      }
    }
  }

  /**
   * With the corrected query, for a model of the collection table the history never fails: it
   * holds the summary of each run start and the label of each run start, in order.
   */
  lemma HistoryKnownModel(fdb: Describe.Listing, model: string, last: int, interval: int, n: nat)
    requires model in COLLECTIONS
    ensures HistoryReport(CorrectedQuery(fdb), model, last, interval, n).Success?
    ensures var past := HistoryReport(CorrectedQuery(fdb), model, last, interval, n).value;
      var starts := RunStarts(last, interval, n);
      && |past.0| == n && |past.1| == n
      && forall k | 0 <= k < n ::
           && Success(past.0[k]) == PastSummary(CorrectedQuery(fdb), model, starts[k])
           && past.1[k] == Label(starts[k])
  {
    var summarize := RunSummary(CorrectedQuery(fdb), model);
    forall t
      ensures summarize(t).Success?
    {
      ArchiveStatusSucceeds(fdb, model, t);
    }
    HistoryOfSummaries(summarize, last, interval, n);
    LabelsAt(RunStarts(last, interval, n));
  }

  /** With the corrected query, for a known model the archive status of any run can be computed. */
  lemma ArchiveStatusSucceeds(fdb: Describe.Listing, model: string, t: int)
    requires model in COLLECTIONS
    ensures ArchiveStatusOf(CorrectedQuery(fdb), model, t).Success? && PastSummary(CorrectedQuery(fdb), model, t).Success?
  {
    ArchiveStatusKnownModel(fdb, model, t);
  }

  /** Every past run a history of n runs looks at has something listed for every member. */
  predicate HistoryListed(fdb: Describe.Listing, model: string, last: int, interval: int, n: nat)
  {
    forall k | 1 <= k <= n :: RunListed(fdb, model, PastStart(last, interval, k))
  }

  /** Each of the n runs before `last` has a summary as `summarize` gives them. */
  ghost predicate AllSummarized(summarize: int -> Result<ForecastStatus, CheckError>, last: int, interval: int, n: nat)
  {
    forall k | 1 <= k <= n :: summarize(PastStart(last, interval, k)).Success?
  }

  /**
   * When the corrected summaries of the n runs never fail and each summary as written is
   * either the corrected one or the error e, the history as written is the corrected one
   * unless some run fails, and then it is e.
   */
  lemma {:induction false} HistoryOneError(asWritten: int -> Result<ForecastStatus, CheckError>,
                                           corrected: int -> Result<ForecastStatus, CheckError>,
                                           last: int, interval: int, n: nat, e: CheckError)
    requires AllSummarized(corrected, last, interval, n)
    requires forall k | 1 <= k <= n ::
      asWritten(PastStart(last, interval, k)) == corrected(PastStart(last, interval, k))
      || asWritten(PastStart(last, interval, k)) == Failure(e)
    ensures History(asWritten, last, interval, n)
         == if AllSummarized(asWritten, last, interval, n) then History(corrected, last, interval, n) else Failure(e)
  {
    if n > 0 {
      HistoryOneError(asWritten, corrected, last, interval, n - 1, e);
      var t := PastStart(last, interval, n);
      if AllSummarized(asWritten, last, interval, n - 1) {
        assert AllSummarized(asWritten, last, interval, n) <==> asWritten(t).Success?;
        HistorySucceeds(corrected, last, interval, n - 1);
        var statuses := History(corrected, last, interval, n - 1).value;
        HistoryStep(asWritten, last, interval, n, statuses);
        HistoryStep(corrected, last, interval, n, statuses);
      } else {
        var j :| 1 <= j <= n - 1 && !asWritten(PastStart(last, interval, j)).Success?;
        assert !AllSummarized(asWritten, last, interval, n);
        HistoryFailure(asWritten, last, interval, n - 1, n);
      }
    }
  }

  /** Runs that all have a summary give a history. */
  lemma {:induction false} HistorySucceeds(summarize: int -> Result<ForecastStatus, CheckError>, last: int, interval: int, n: nat)
    requires AllSummarized(summarize, last, interval, n)
    ensures History(summarize, last, interval, n).Success?
  {
    if n > 0 {
      HistorySucceeds(summarize, last, interval, n - 1);
    }
  }

  /**
   * summary_status(get_archive_status(model, t)) as written, for a known model: KeyError('step')
   * when some member of the run has nothing listed, and the corrected summary otherwise.
   */
  lemma PastSummaryAsWritten(fdb: Describe.Listing, model: string, t: int)
    requires model in COLLECTIONS
    ensures RunSummary(CorrectedQuery(fdb), model)(t).Success?
    ensures RunSummary(AsWrittenQuery(fdb), model)(t)
         == if RunListed(fdb, model, t) then RunSummary(CorrectedQuery(fdb), model)(t)
            else Failure(QueryFailed(Describe.MissingKey("step")))
  {
    ArchiveStatusAsWritten(fdb, model, t);
    ArchiveStatusSucceeds(fdb, model, t);
  }

  /**
   * historical_summary_status as written, for a known model: KeyError('step') when some
   * member of some past run has nothing listed, and the corrected history otherwise.
   */
  lemma HistoryAsWritten(fdb: Describe.Listing, model: string, last: int, interval: int, n: nat)
    requires model in COLLECTIONS
    ensures HistoryReport(AsWrittenQuery(fdb), model, last, interval, n)
         == if HistoryListed(fdb, model, last, interval, n) then HistoryReport(CorrectedQuery(fdb), model, last, interval, n)
            else Failure(QueryFailed(Describe.MissingKey("step")))
  {
    var asWritten, corrected := RunSummary(AsWrittenQuery(fdb), model), RunSummary(CorrectedQuery(fdb), model);
    forall k | 1 <= k <= n
      ensures corrected(PastStart(last, interval, k)).Success?
      ensures asWritten(PastStart(last, interval, k)) == corrected(PastStart(last, interval, k))
           || asWritten(PastStart(last, interval, k)) == Failure(QueryFailed(Describe.MissingKey("step")))
      ensures asWritten(PastStart(last, interval, k)).Success? <==> RunListed(fdb, model, PastStart(last, interval, k))
    {
      PastSummaryAsWritten(fdb, model, PastStart(last, interval, k));
    }
    assert AllSummarized(asWritten, last, interval, n) <==> HistoryListed(fdb, model, last, interval, n);
    HistoryOneError(asWritten, corrected, last, interval, n, QueryFailed(Describe.MissingKey("step")));
  }

  /** For a model without a collection, any history of at least one run fails with its name. */
  lemma HistoryUnknownModel(query: StepQuery, model: string, last: int, interval: int, n: nat)
    requires model !in COLLECTIONS && n > 0
    ensures HistoryReport(query, model, last, interval, n) == Failure(UnknownModel(model))
  {
    ArchiveStatusUnknownModel(query, model, PastStart(last, interval, 1));
    HistoryFailure(RunSummary(query, model), last, interval, 1, n);
  }

  /** What main decides and reports about one model at one moment. */
  datatype CheckReport = CheckReport(
    passed: bool,               // main's return value; False makes the script exit with status 1
    history: seq<ForecastStatus>,  // latest run first, then the past runs, newest first
    labels: seq<string>,        // the "%y%m%d%H00" label of each of those runs
    failedFiles: seq<string>)   // the names logged as failed, when the latest run is not complete

  /**
   * main as a value: the latest run's status and summary, the history before it, and the
   * verdict: fail when the latest run is not complete (logging its failed files), fail when
   * any run is missing altogether, pass otherwise.
   */
  ghost function CheckOf(query: StepQuery, model: string, now: int): Result<CheckReport, CheckError>
  {
    if model !in COLLECTIONS then Failure(UnknownModel(model))
    else
      var c := COLLECTIONS[model];
      CollectionsWellFormed();
      var last := LastRunTime(c, now);
      match ArchiveStatusOf(query, model, last)
      case Failure(e) => Failure(e)
      case Success(latest) =>
        match HistoryReport(query, c.model, last, c.interval, HistoryLength(c))
        case Failure(e) => Failure(e)
        case Success(past) => Success(Verdict(latest, Label(last), past.0, past.1))
  }

  /** The end of main, once the latest status and the past summaries and labels are known. */
  ghost function Verdict(latest: Status, latestLabel: string, statuses: seq<ForecastStatus>, labels: seq<string>): CheckReport
  {
    var history := [Summary(latest)] + statuses;
    var allLabels := [latestLabel] + labels;
    if history[0] != Complete then CheckReport(false, history, allLabels, FailedFiles(latest))
    else CheckReport(Missing !in history, history, allLabels, [])
  }

  /**
   * The verdict passes exactly when the latest run is complete and no run is missing, and
   * names failed files exactly when the latest run is not complete.
   */
  lemma VerdictMeaning(latest: Status, latestLabel: string, statuses: seq<ForecastStatus>, labels: seq<string>)
    ensures var r := Verdict(latest, latestLabel, statuses, labels);
      && r.history == [Summary(latest)] + statuses && r.labels == [latestLabel] + labels
      && (r.passed <==> Summary(latest) == Complete && forall k | 0 <= k < |r.history| :: r.history[k] != Missing)
      && (r.failedFiles == [] <==> Summary(latest) == Complete)
  {
    SummaryByFailedFiles(latest);
  }

  /** main: check the latest run of `model` at time `now` and the runs before it. */
  method RunCheck(query: StepQuery, model: string, now: int) returns (r: Result<CheckReport, CheckError>)
    ensures r == CheckOf(query, model, now)
  {
    if model !in COLLECTIONS {
      return Failure(UnknownModel(model));
    }
    var c := COLLECTIONS[model];
    CollectionsWellFormed();
    var last := LastRunTime(c, now);
    var latest := GetArchiveStatus(query, model, last);
    if latest.Failure? {
      return Failure(latest.error);
    }
    var past := HistoricalSummaryStatus(query, last, c);
    if past.Failure? {
      return Failure(past.error);
    }
    var latestSummary := SummaryStatus(latest.value);
    var history := [latestSummary] + past.value.0;
    var labels := [Label(last)] + past.value.1;
    if history[0] != Complete {
      var failed := GetFailedFiles(latest.value);
      return Success(CheckReport(false, history, labels, failed));
    }
    return Success(CheckReport(Missing !in history, history, labels, []));
  }

  /**
   * With the corrected query, for a model of the collection table the check always reaches a
   * verdict: the one of the latest run at the last run time and of the forecasts - 1 runs
   * before it (VerdictMeaning and HistoryKnownModel say what those are).
   */
  lemma CheckKnownModel(fdb: Describe.Listing, model: string, now: int)
    requires model in COLLECTIONS
    ensures COLLECTIONS[model].interval > 0
    ensures var c, query := COLLECTIONS[model], CorrectedQuery(fdb);
      var last := LastRunTime(c, now);
      && ArchiveStatusOf(query, model, last).Success?
      && HistoryReport(query, model, last, c.interval, HistoryLength(c)).Success?
      && CheckOf(query, model, now)
         == Success(Verdict(ArchiveStatusOf(query, model, last).value, Label(last),
                            HistoryReport(query, model, last, c.interval, HistoryLength(c)).value.0,
                            HistoryReport(query, model, last, c.interval, HistoryLength(c)).value.1))
  {
    var c := COLLECTIONS[model];
    CollectionsWellFormed();
    var last := LastRunTime(c, now);
    ArchiveStatusSucceeds(fdb, model, last);
    HistoryKnownModel(fdb, model, last, c.interval, HistoryLength(c));
  }

  /** Every run the check looks at, the latest and the ones before it, has something listed for every member. */
  predicate CheckListed(fdb: Describe.Listing, model: string, now: int)
  {
    if model !in COLLECTIONS then false
    else
      var c := COLLECTIONS[model];
      CollectionsWellFormed();
      var last := LastRunTime(c, now);
      RunListed(fdb, model, last) && HistoryListed(fdb, model, last, c.interval, HistoryLength(c))
  }

  /**
   * main as written, for a known model: KeyError('step') when some member of some run it
   * looks at has nothing listed, and the corrected verdict otherwise.
   */
  lemma CheckAsWritten(fdb: Describe.Listing, model: string, now: int)
    requires model in COLLECTIONS
    ensures CheckOf(AsWrittenQuery(fdb), model, now)
         == if CheckListed(fdb, model, now) then CheckOf(CorrectedQuery(fdb), model, now)
            else Failure(QueryFailed(Describe.MissingKey("step")))
  {
    var c := COLLECTIONS[model];
    CollectionsWellFormed();
    var last := LastRunTime(c, now);
    ArchiveStatusAsWritten(fdb, model, last);
    ArchiveStatusSucceeds(fdb, model, last);
    HistoryAsWritten(fdb, model, last, c.interval, HistoryLength(c));
    HistoryKnownModel(fdb, model, last, c.interval, HistoryLength(c));
  }

  /** Nothing listed for a known model: every cell of every parameter's status is 0. */
  lemma EmptyParamStatus(fdb: Describe.Listing, model: string, p: Parameter, date: string, time: string)
    requires forall r :: fdb(r) == []
    requires FieldsInSchema(p) && model in COLLECTIONS
    ensures ParamStatusOf(CorrectedQuery(fdb), model, p, date, time).Success?
    ensures var rows := ParamStatusOf(CorrectedQuery(fdb), model, p, date, time).value;
      && |rows| == COLLECTIONS[model].members
      && forall m | 0 <= m < |rows| :: |rows[m]| == Width(COLLECTIONS[model], p) && forall s | 0 <= s < |rows[m]| :: rows[m][s] == 0
  {
    ParamStatusMeaning(fdb, model, p, date, time);
  }

  /** A status with at least one cell and no set cell is missing. */
  lemma NoneSetMissing(status: Status)
    requires IsCell(status, 0, 0, 0)
    requires forall i, m, s | IsCell(status, i, m, s) :: status[i].1[m][s] == 0
    ensures Summary(status) == Missing
  {
    assert status[0].1[0][0] == 0;
  }

  /** Nothing listed for a known model: the corrected status of any run is missing. */
  lemma EmptyArchiveMissing(fdb: Describe.Listing, model: string, t: int)
    requires forall r :: fdb(r) == []
    requires model in COLLECTIONS
    ensures ArchiveStatusOf(CorrectedQuery(fdb), model, t).Success?
    ensures Summary(ArchiveStatusOf(CorrectedQuery(fdb), model, t).value) == Missing
  {
    var d := Calendar.FromTimestamp(t);
    var date, time := Calendar.DateString(d), Calendar.HourString(d);
    ArchiveStatusKnownModel(fdb, model, t);
    var status := ArchiveStatusOf(CorrectedQuery(fdb), model, t).value;
    assert |Suffixes(status)| == |status| == 3;
    ParamsInSchema();
    CollectionsWellFormed();
    forall i, m, s | IsCell(status, i, m, s)
      ensures status[i].1[m][s] == 0
    {
      EmptyParamStatus(fdb, model, PARAMS[i], date, time);
    }
    EmptyParamStatus(fdb, model, PARAMS[0], date, time);
    NoneSetMissing(status);
  }

  /**
   * An archive that lists nothing: the check as written ends with KeyError('step'), where the
   * evident intent is to report the latest run as missing and fail.
   */
  lemma EmptyArchiveCheck(fdb: Describe.Listing, model: string, now: int)
    requires forall r :: fdb(r) == []
    requires model in COLLECTIONS
    ensures CheckOf(AsWrittenQuery(fdb), model, now) == Failure(QueryFailed(Describe.MissingKey("step")))
    ensures CheckOf(CorrectedQuery(fdb), model, now).Success?
    ensures |CheckOf(CorrectedQuery(fdb), model, now).value.history| > 0
    ensures CheckOf(CorrectedQuery(fdb), model, now).value.history[0] == Missing
    ensures !CheckOf(CorrectedQuery(fdb), model, now).value.passed
  {
    var c := COLLECTIONS[model];
    CollectionsWellFormed();
    var last := LastRunTime(c, now);
    var d := Calendar.FromTimestamp(last);
    assert !RunListed(fdb, model, last) by {
      assert fdb(MemberFilter(model, PARAMS[0], Calendar.DateString(d), Calendar.HourString(d), 0)) == [];
    }
    CheckAsWritten(fdb, model, now);
    CheckKnownModel(fdb, model, now);
    EmptyArchiveMissing(fdb, model, last);
  }
}
