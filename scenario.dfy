/**
 * The four-directory scenario of pswap (src/main.rs): a `/proc` listing
 * `1`, `2`, `abc` and `self`, where `1/status` holds the record of `init`
 * and `2/status` cannot be opened, run through the filter, the reader and
 * the total of `main`.
 */
module ProcScenario {
  import opened Wrappers
  import opened RustStr
  import opened Status
  import opened StatusProperties
  import opened ProcessReader

  /** The record of process 1: a `Pid` line, then a `Name` line. */
  lemma InitRecord()
    ensures ParseStatus(Opened([PidLine(1), NameLine("init")], None)) == Ok(ProcessStatus(1, "init", None))
  {
    assert NoSurroundingWhitespace("init");
    PidAndNameLines(1, "init");
  }

  /**
   * A `/proc` with directories `1`, `2`, `abc` and `self`, where `1/status`
   * holds `Pid` 1 and `Name` init and `2/status` cannot be opened.
   */
  function ScenarioListing(missing: OsError, abc: StatusFile, self: StatusFile): Listing {
    [ Ok(DirEntry(Some("1"), true, Opened([PidLine(1), NameLine("init")], None))),
      Ok(DirEntry(Some("2"), true, Unopenable(missing))),
      Ok(DirEntry(Some("abc"), true, abc)),
      Ok(DirEntry(Some("self"), true, self)) ]
  }

  /** Only `1` and `2` pass the filter, in listing order. */
  lemma ScenarioSubdirs(missing: OsError, abc: StatusFile, self: StatusFile)
    ensures AllOk(ScenarioListing(missing, abc, self))
    ensures ProcessSubdirs(ScenarioListing(missing, abc, self))
            == [ScenarioListing(missing, abc, self)[0].value, ScenarioListing(missing, abc, self)[1].value]
  {
    var l := ScenarioListing(missing, abc, self);
    assert !IsProcessSubdir(l[3]) by { assert !IsDigit(l[3].value.fileName.value[0]); }
    assert l[3..][1..] == [];
    assert ProcessSubdirs(l[3..]) == [];
    assert !IsProcessSubdir(l[2]) by { assert !IsDigit(l[2].value.fileName.value[0]); }
    assert l[2..][1..] == l[3..];
    assert ProcessSubdirs(l[2..]) == [];
    assert IsProcessSubdir(l[1]) by { assert AllDigits(l[1].value.fileName.value); }
    assert l[1..][1..] == l[2..];
    assert ProcessSubdirs(l[1..]) == [l[1].value];
    assert IsProcessSubdir(l[0]) by { assert AllDigits(l[0].value.fileName.value); }
  }

  /**
   * The scenario yields the record of process 1 and an I/O failure for
   * directory 2, and leaves `abc` and `self` out; neither adds swap.
   */
  lemma ScenarioReport(missing: OsError, abc: StatusFile, self: StatusFile)
    ensures AllOk(ScenarioListing(missing, abc, self))
    ensures Report(ScenarioListing(missing, abc, self))
            == [Ok(ProcessStatus(1, "init", None)), Err(IoError(missing))]
    ensures SwapTotal(Report(ScenarioListing(missing, abc, self))) == 0
  {
    var l := ScenarioListing(missing, abc, self);
    ScenarioSubdirs(missing, abc, self);
    var dirs := ProcessSubdirs(l);
    assert dirs[0].status == Opened([PidLine(1), NameLine("init")], None);
    assert dirs[1].status == Unopenable(missing);
    var init := ProcessStatus(1, "init", None);
    InitRecord();
    var items := Statuses(dirs);
    assert |items| == 2 && items[0] == Ok(init) && items[1] == Err(IoError(missing));
    assert items == [Ok(init), Err(IoError(missing))];
    var none: seq<Result<ProcessStatus, ReadError>> := [];
    SwapTotalSnoc(none, Ok(init));
    SwapTotalSnoc([Ok(init)], Err(IoError(missing)));
    assert none + [Ok(init)] == [Ok(init)];
  }
}
