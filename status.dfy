/**
 * `read_process_status` (src/main.rs): reading a `/proc/<pid>/status`
 * record line by line and pulling out the `Pid`, `Name` and `VmSwap`
 * fields.
 *
 * The model has three layers:
 *  - `Fields` cuts the lines into the (label, trimmed value) pairs the loop
 *    examines, and `ApplyField`/`Apply` replay the field updates;
 *    `ParseStatus` puts them together into the result of one call;
 *  - `ReadProcessStatus` is the loop itself, proved equal to `ParseStatus`;
 *  - `Summary` says what the result is without replaying anything (the last
 *    `Pid` line, the concatenated `Name` values, the last `VmSwap` line),
 *    and `ParseStatusSummary` proves the two agree.
 */
module Status {
  import opened Wrappers
  import opened RustStr

  /** An `io::Error` from the operating system; its content is opaque here. */
  datatype OsError = OsError(code: int)

  /** `ReadError`. Every `ParseIntError` becomes `InvalidValue`. */
  datatype ReadError = IoError(cause: OsError) | InvalidValue

  /** `ProcessStatus`; `vmSwap == None` means the record had no `VmSwap` line. */
  datatype ProcessStatus = ProcessStatus(pid: i32, processName: string, vmSwap: Option<usize>)

  /** `ProcessStatus::default()`. */
  const DefaultStatus := ProcessStatus(0, "", None)

  /**
   * What one successful `read_line` appends to the buffer: at least one
   * character (`read_line` returns 0 only at the end of the file), and no
   * `\n` before the last character, since reading stops at the first `\n`.
   */
  type Line = s: string | s != [] && NoInnerNewline(s) witness "\n"

  /** No `\n` occurs before the last character. */
  predicate NoInnerNewline(s: string) {
    |s| <= 1 || (s[0] != '\n' && NoInnerNewline(s[1..]))
  }

  /** A text without `\n` in front of a one-line text leaves it one line. */
  lemma {:induction false} NoInnerNewlineAppend(text: string, rest: string)
    requires '\n' !in text && rest != [] && NoInnerNewline(rest)
    ensures NoInnerNewline(text + rest)
    decreases |text|
  {
    if text == [] {
      assert text + rest == rest;
    } else {
      assert (text + rest)[1..] == text[1..] + rest;
      assert text[0] in text;
      NoInnerNewlineAppend(text[1..], rest);
    }
  }

  /** The line was ended by a `\n`, not by the end of the file. */
  predicate Ended(line: Line) {
    line[|line| - 1] == '\n'
  }

  /**
   * Lines successive `read_line` calls on one file can return: a line not
   * ended by `\n` is the last one.
   */
  predicate ReadLines(lines: seq<Line>) {
    forall i :: 0 <= i < |lines| - 1 ==> Ended(lines[i])
  }

  /** Every line was ended by `\n`: another line may follow them. */
  predicate AllEnded(lines: seq<Line>) {
    forall i :: 0 <= i < |lines| ==> Ended(lines[i])
  }

  /** In a file, the lines before some further line were all ended by `\n`. */
  lemma ReadLinesBefore(lines: seq<Line>, line: Line, more: seq<Line>)
    requires ReadLines(lines + [line] + more)
    ensures AllEnded(lines)
  {
    forall i | 0 <= i < |lines| ensures Ended(lines[i]) {
      assert (lines + [line] + more)[i] == lines[i];
    }
  }

  /**
   * What opening `<entry>/status` and reading it line by line yields: either
   * `File::open` fails, or the reads return `lines` and then reach the end of
   * the file (`readError == None`) or fail (`readError == Some(e)`).
   */
  datatype StatusFile =
    | Unopenable(openError: OsError)
    | Opened(lines: seq<Line>, readError: Option<OsError>)

  /** A line cut at its first `:`: the label (`key`) as it stands, the value trimmed. */
  datatype Field = Field(key: string, value: string)

  /** The fields cut so far, and the buffer text not yet cut. */
  datatype Grouping = Grouping(fields: seq<Field>, pending: string)

  /**
   * How the loop turns the lines into fields. Each line is appended to the
   * buffer; a buffer with a `:` is cut at its first `:` and cleared. A buffer
   * without one is NOT cleared (the `continue` skips `line.clear()`), so it
   * becomes the front of the next line's label.
   */
  function Fields(lines: seq<Line>): (g: Grouping)
    ensures ':' !in g.pending
    ensures |g.fields| <= |lines|
  {
    if lines == [] then Grouping([], "")
    else
      var g := Fields(lines[..|lines| - 1]);
      var buffer := g.pending + lines[|lines| - 1];
      match SplitOnce(buffer, ':')
      case None => Grouping(g.fields, buffer)
      case Some((key, value)) => Grouping(g.fields + [Field(key, Trim(value))], "")
  }

  /**
   * The kilobytes a `VmSwap` value gives: it must end in ` kB` exactly, and
   * what comes before must parse as a `usize`; either failure is `None`.
   */
  function SwapKb(value: string): Option<usize> {
    match StripSuffix(value, " kB")
    case None => None
    case Some(digits) => ParseUsize(digits)
  }

  /** A field that does not make the call fail with `InvalidValue`. */
  predicate ValidField(f: Field) {
    && (f.key == "Pid" ==> ParseI32(f.value).Some?)
    && (f.key == "VmSwap" ==> SwapKb(f.value).Some?)
  }

  predicate AllValid(fields: seq<Field>) {
    forall i :: 0 <= i < |fields| ==> ValidField(fields[i])
  }

  /**
   * The `match field` of the loop body: `Pid` is parsed as an `i32`, `Name`
   * is appended, `VmSwap` must end in ` kB` and the rest is parsed as a
   * `usize`. Labels are compared exactly; any other label changes nothing.
   */
  function ApplyField(st: ProcessStatus, f: Field): (r: Result<ProcessStatus, ReadError>)
    ensures r.Err? <==> !ValidField(f)
    ensures r.Err? ==> r.error == InvalidValue
    ensures r.Ok? ==> f.key != "Pid" ==> r.value.pid == st.pid
    ensures r.Ok? ==> f.key != "Name" ==> r.value.processName == st.processName
    ensures r.Ok? ==> f.key != "VmSwap" ==> r.value.vmSwap == st.vmSwap
  {
    if f.key == "Pid" then
      match ParseI32(f.value)
      case None => Err(InvalidValue)
      case Some(pid) => Ok(st.(pid := pid))
    else if f.key == "Name" then
      Ok(st.(processName := st.processName + f.value))
    else if f.key == "VmSwap" then
      match SwapKb(f.value)
      case None => Err(InvalidValue)
      case Some(kb) => Ok(st.(vmSwap := Some(kb)))
    else Ok(st)
  }

  /** The field updates applied in order to the default record, stopping at the first error. */
  function Apply(fields: seq<Field>): Result<ProcessStatus, ReadError> {
    if fields == [] then Ok(DefaultStatus)
    else
      match Apply(fields[..|fields| - 1])
      case Err(e) => Err(e)
      case Ok(st) => ApplyField(st, fields[|fields| - 1])
  }

  /**
   * The result of `read_process_status`: an open failure, the first invalid
   * field, a read failure, or the record built from all the fields, in that
   * order of precedence.
   */
  function ParseStatus(file: StatusFile): Result<ProcessStatus, ReadError> {
    match file
    case Unopenable(e) => Err(IoError(e))
    case Opened(lines, readError) =>
      match Apply(Fields(lines).fields)
      case Err(e) => Err(e)
      case Ok(st) => if readError.Some? then Err(IoError(readError.value)) else Ok(st)
  }

  // ---------------------------------------------------------------------
  // The declarative description of the result.

  /** The position of the last field labelled `key`. */
  function LastWith(fields: seq<Field>, key: string): (r: Option<nat>)
    ensures r.None? ==> forall i :: 0 <= i < |fields| ==> fields[i].key != key
    ensures r.Some? ==> r.value < |fields| && fields[r.value].key == key
    ensures r.Some? ==> forall j :: r.value < j < |fields| ==> fields[j].key != key
  {
    if fields == [] then None
    else if fields[|fields| - 1].key == key then Some(|fields| - 1)
    else LastWith(fields[..|fields| - 1], key)
  }

  /** The values of the `Name` fields, concatenated in file order. */
  function Names(fields: seq<Field>): (name: string)
    ensures (forall i :: 0 <= i < |fields| ==> fields[i].key != "Name") ==> name == ""
  {
    if fields == [] then ""
    else
      var init := fields[..|fields| - 1];
      var last := fields[|fields| - 1];
      assert forall i :: 0 <= i < |init| ==> init[i] == fields[i];
      Names(init) + (if last.key == "Name" then last.value else "")
  }

  /**
   * The record the fields describe: the value of the last `Pid` field (0
   * when there is none), the concatenated `Name` values, and the amount of
   * the last `VmSwap` field (`None` when there is none).
   */
  function Summary(fields: seq<Field>): ProcessStatus
    requires AllValid(fields)
  {
    ProcessStatus(
      match LastWith(fields, "Pid")
      case None => 0
      case Some(i) => ParseI32(fields[i].value).value,
      Names(fields),
      match LastWith(fields, "VmSwap")
      case None => None
      case Some(i) => SwapKb(fields[i].value))
  }

  /** One more valid field moves the summary on exactly as `ApplyField` does. */
  lemma SummarySnoc(init: seq<Field>, last: Field)
    requires AllValid(init) && ValidField(last)
    ensures AllValid(init + [last])
    ensures ApplyField(Summary(init), last) == Ok(Summary(init + [last]))
  {
    var fields := init + [last];
    assert fields[..|init|] == init;
    assert AllValid(fields) by {
      forall i | 0 <= i < |fields| ensures ValidField(fields[i]) {
        if i < |init| { assert fields[i] == init[i]; }
      }
    }
    var pidAt, swapAt := LastWith(fields, "Pid"), LastWith(fields, "VmSwap");
    assert pidAt == if last.key == "Pid" then Some(|init|) else LastWith(init, "Pid");
    assert swapAt == if last.key == "VmSwap" then Some(|init|) else LastWith(init, "VmSwap");
    assert pidAt.Some? ==> fields[pidAt.value] == if last.key == "Pid" then last else init[pidAt.value];
    assert swapAt.Some? ==> fields[swapAt.value] == if last.key == "VmSwap" then last else init[swapAt.value];
    assert Names(fields) == Names(init) + (if last.key == "Name" then last.value else "");
    assert Names(init) + "" == Names(init);
  }

  /**
   * Replaying the fields fails with `InvalidValue` exactly when one of them
   * is invalid, and otherwise gives their summary.
   */
  lemma {:induction false} ApplySummary(fields: seq<Field>)
    ensures Apply(fields) == if AllValid(fields) then Ok(Summary(fields)) else Err(InvalidValue)
  {
    if fields != [] {
      var init := fields[..|fields| - 1];
      var last := fields[|fields| - 1];
      assert fields == init + [last];
      ApplySummary(init);
      if AllValid(init) && ValidField(last) {
        SummarySnoc(init, last);
      } else if AllValid(init) {
        assert !AllValid(fields);
      } else {
        var i :| 0 <= i < |init| && !ValidField(init[i]);
        assert !ValidField(fields[i]);
      }
    }
  }

  /**
   * `read_process_status` on an opened record, said without replaying the
   * loop: `InvalidValue` if any `Pid` value is not an `i32` or any `VmSwap`
   * value is not `<usize> kB`; otherwise the read error if there was one;
   * otherwise the summary of the fields.
   */
  lemma ParseStatusSummary(lines: seq<Line>, readError: Option<OsError>)
    ensures var fields := Fields(lines).fields;
      ParseStatus(Opened(lines, readError)) ==
        if !AllValid(fields) then Err(InvalidValue)
        else if readError.Some? then Err(IoError(readError.value))
        else Ok(Summary(fields))
  {
    ApplySummary(Fields(lines).fields);
  }

  // ---------------------------------------------------------------------
  // How the lines become fields.

  /** The field a line with a `:` gives on its own. */
  function FieldOf(line: string): Field
    requires ':' in line
  {
    var (key, value) := SplitOnce(line, ':').value;
    Field(key, Trim(value))
  }

  /** One more line: the loop body's effect on the buffer and the fields. */
  lemma FieldsSnoc(lines: seq<Line>, line: Line)
    ensures Fields(lines + [line]) ==
              var g := Fields(lines);
              var buffer := g.pending + line;
              match SplitOnce(buffer, ':')
              case None => Grouping(g.fields, buffer)
              case Some((key, value)) => Grouping(g.fields + [Field(key, Trim(value))], "")
  {
    assert (lines + [line])[..|lines|] == lines;
  }

  /** Reading more lines only adds fields after the ones already cut. */
  lemma {:induction false} FieldsExtend(lines: seq<Line>, more: seq<Line>)
    ensures Fields(lines).fields <= Fields(lines + more).fields
    decreases |more|
  {
    if more == [] {
      assert lines + more == lines;
    } else {
      var init := more[..|more| - 1];
      assert lines + more == (lines + init) + [more[|more| - 1]];
      FieldsSnoc(lines + init, more[|more| - 1]);
      FieldsExtend(lines, init);
    }
  }

  /** The fields of a prefix of the lines come first among the fields of all of them. */
  lemma FieldsPrefix(lines: seq<Line>, k: nat)
    requires k <= |lines|
    ensures Fields(lines[..k]).fields <= Fields(lines).fields
  {
    var before, after := lines[..k], lines[k..];
    assert before + after == lines;
    FieldsExtend(before, after);
  }

  /**
   * When every line has a `:`, as in the records the kernel writes, each
   * line is one field and nothing is left over.
   */
  lemma {:induction false} FieldsOfColonLines(lines: seq<Line>)
    requires forall i :: 0 <= i < |lines| ==> ':' in lines[i]
    ensures Fields(lines).pending == ""
    ensures |Fields(lines).fields| == |lines|
    ensures forall i :: 0 <= i < |lines| ==> Fields(lines).fields[i] == FieldOf(lines[i])
  {
    if lines != [] {
      var init := lines[..|lines| - 1];
      var last := lines[|lines| - 1];
      assert lines == init + [last];
      FieldsOfColonLines(init);
      FieldsSnoc(init, last);
      assert "" + last == last;
      var g := Fields(init);
      assert Fields(lines).fields == g.fields + [FieldOf(last)];
      forall i | 0 <= i < |lines| ensures Fields(lines).fields[i] == FieldOf(lines[i]) {
        if i < |init| { assert lines[i] == init[i]; }
      }
    }
  }

  /**
   * A line without a `:` is not skipped: it is glued to the front of the
   * next line, whose label then no longer matches.
   */
  lemma ColonlessLineJoinsNext(lines: seq<Line>, junk: Line, next: Line)
    requires Fields(lines).pending == ""
    requires ':' !in junk && ':' in next
    ensures Fields(lines + [junk, next]) ==
              Grouping(Fields(lines).fields + [FieldOf(junk + next)], "")
  {
    FieldsSnoc(lines, junk);
    assert "" + junk == junk;
    assert lines + [junk, next] == (lines + [junk]) + [next];
    FieldsSnoc(lines + [junk], next);
  }

  // ---------------------------------------------------------------------
  // The loop.

  /** Replaying fails exactly on an invalid field, and then with `InvalidValue`. */
  lemma ApplyFails(fields: seq<Field>)
    ensures Apply(fields).Err? <==> !AllValid(fields)
    ensures Apply(fields).Err? ==> Apply(fields) == Err(InvalidValue)
  {
    ApplySummary(fields);
  }

  /** A failed replay stays failed, whatever fields follow. */
  lemma ApplyFailureIsFinal(before: seq<Field>, after: seq<Field>)
    requires before <= after
    requires Apply(before).Err?
    ensures Apply(after) == Apply(before)
  {
    ApplyFails(before);
    var i :| 0 <= i < |before| && !ValidField(before[i]);
    assert after[i] == before[i];
    ApplyFails(after);
  }

  /** Once an invalid field has been met, no later line changes the result. */
  lemma FailureIsFinal(lines: seq<Line>, k: nat)
    requires k <= |lines|
    requires Apply(Fields(lines[..k]).fields).Err?
    ensures Apply(Fields(lines).fields) == Apply(Fields(lines[..k]).fields)
  {
    FieldsPrefix(lines, k);
    ApplyFailureIsFinal(Fields(lines[..k]).fields, Fields(lines).fields);
  }

  /**
   * `read_process_status`: the `while read_line` loop with its `line`
   * buffer and `status` record, returning early on the first error.
   */
  method ReadProcessStatus(file: StatusFile) returns (r: Result<ProcessStatus, ReadError>)
    ensures r == ParseStatus(file)
  {
    if file.Unopenable? {
      return Err(IoError(file.openError));
    }
    var lines := file.lines;
    var line := "";
    var status := DefaultStatus;
    var read := 0;
    while true
      invariant read <= |lines|
      invariant Fields(lines[..read]).pending == line
      invariant Apply(Fields(lines[..read]).fields) == Ok(status)
      decreases |lines| - read
    {
      if read == |lines| {
        assert lines[..read] == lines;
        if file.readError.Some? {
          return Err(IoError(file.readError.value));
        }
        break;
      }
      line := line + lines[read];
      ghost var done := Fields(lines[..read]).fields;
      assert lines[..read + 1] == lines[..read] + [lines[read]];
      FieldsSnoc(lines[..read], lines[read]);
      read := read + 1;
      var split := SplitOnce(line, ':');
      if split.None? {
        continue;
      }
      var field, value := split.value.0, Trim(split.value.1);
      assert Fields(lines[..read]).fields == done + [Field(field, value)];
      assert (done + [Field(field, value)])[..|done|] == done;
      if field == "Pid" {
        var pid := ParseI32(value);
        if pid.None? {
          FailureIsFinal(lines, read);
          return Err(InvalidValue);
        }
        status := status.(pid := pid.value);
      } else if field == "Name" {
        status := status.(processName := status.processName + value);
      } else if field == "VmSwap" {
        var digits := StripSuffix(value, " kB");
        if digits.None? {
          FailureIsFinal(lines, read);
          return Err(InvalidValue);
        }
        var kb := ParseUsize(digits.value);
        if kb.None? {
          FailureIsFinal(lines, read);
          return Err(InvalidValue);
        }
        status := status.(vmSwap := Some(kb.value));
      }
      line := "";
    }
    return Ok(status);
  }
}
