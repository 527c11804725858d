/**
 * What `read_process_status` promises about whole records: the effect of
 * one more `label:value` line, the record the kernel writes read back
 * intact, failures that end the parse at once, the default record, and the
 * colon-less-line behaviour of the buffer.
 */
module StatusProperties {
  import opened Wrappers
  import opened RustStr
  import opened Status

  /**
   * A `<key>:<value>` line, as one `read_line` returns it: neither part holds
   * a `\n` before the end of the line.
   */
  function FieldLine(key: string, value: string): (r: Line)
    requires '\n' !in key && NoInnerNewline(value)
    ensures Ended(r) <==> value != [] && value[|value| - 1] == '\n'
  {
    FieldText(key, value);
    key + ":" + value
  }

  /** A label and a value, neither holding a `\n` before the end, make one line. */
  lemma FieldText(key: string, value: string)
    requires '\n' !in key && NoInnerNewline(value)
    ensures NoInnerNewline(key + ":" + value)
  {
    if value == [] {
      NoInnerNewlineAppend(key, ":");
      assert key + ":" + value == key + ":";
    } else {
      NoInnerNewlineAppend(key + ":", value);
    }
  }

  /** A text without `\n`, ended by one, is one whole line. */
  lemma NewlineEnded(text: string)
    requires '\n' !in text
    ensures NoInnerNewline(text + "\n")
    ensures (text + "\n")[|text|] == '\n'
  {
    NoInnerNewlineAppend(text, "\n");
  }

  /**
   * The `Name`, `Pid` and `VmSwap` lines as the kernel writes them, each
   * ended by `\n`. A name holding a `\n` would be written as two lines.
   */
  function NameLine(name: string): (r: Line)
    requires '\n' !in name
    ensures Ended(r)
  {
    NewlineEnded("\t" + name);
    FieldLine("Name", "\t" + name + "\n")
  }

  function PidLine(pid: i32): (r: Line)
    ensures Ended(r)
  {
    PidText(pid);
    FieldLine("Pid", "\t" + FormatInt(pid) + "\n")
  }

  /** The decimal text of a pid holds no `\n`, so its line is one line. */
  lemma PidText(pid: i32)
    ensures '\n' !in "\t" + FormatInt(pid)
    ensures NoInnerNewline("\t" + FormatInt(pid) + "\n")
  {
    NewlineEnded("\t" + FormatInt(pid));
  }

  /**
   * `padding` stands for the spaces that right-align the amount; a `\n` in
   * it would split the line.
   */
  function VmSwapLine(padding: string, kb: nat): (r: Line)
    requires '\n' !in padding
    ensures Ended(r)
  {
    SwapText(padding, kb);
    FieldLine("VmSwap", "\t" + padding + FormatNat(kb) + " kB\n")
  }

  /** The amount text holds no `\n`, so a `VmSwap` line is one line. */
  lemma SwapText(padding: string, kb: nat)
    requires '\n' !in padding
    ensures NoInnerNewline("\t" + padding + FormatNat(kb) + " kB\n")
  {
    var digits := FormatNat(kb);
    assert "\t" + padding + digits + " kB\n" == ("\t" + padding + digits + " kB") + "\n";
    NewlineEnded("\t" + padding + digits + " kB");
  }

  /**
   * One more line with a `:` after a clean buffer acts as one more field:
   * an earlier failure stands, otherwise the field is applied to the record
   * parsed so far. In particular a later `Pid` or `VmSwap` line overrides an
   * earlier one, a `Name` line appends, and any other label leaves the record
   * as it was (see `ApplyField`).
   */
  lemma AppendFieldLine(lines: seq<Line>, key: string, value: string)
    requires Fields(lines).pending == ""
    requires ':' !in key && '\n' !in key && NoInnerNewline(value)
    requires AllEnded(lines)
    ensures Fields(lines + [FieldLine(key, value)]).pending == ""
    ensures ParseStatus(Opened(lines + [FieldLine(key, value)], None)) ==
              match ParseStatus(Opened(lines, None))
              case Err(e) => Err(e)
              case Ok(st) => ApplyField(st, Field(key, Trim(value)))
  {
    AppendLine(lines, FieldLine(key, value), key, value);
  }

  /** After a clean buffer, a `<key>:<value>` line is cut into exactly one field. */
  lemma FieldLineIsField(lines: seq<Line>, key: string, value: string)
    requires Fields(lines).pending == ""
    requires ':' !in key && '\n' !in key && NoInnerNewline(value)
    requires AllEnded(lines)
    ensures Fields(lines + [FieldLine(key, value)]) == Grouping(Fields(lines).fields + [Field(key, Trim(value))], "")
  {
    AppendLine(lines, FieldLine(key, value), key, value);
  }

  /** One more line that is `key:value`, cut and applied as one field. */
  lemma AppendLine(lines: seq<Line>, line: Line, key: string, value: string)
    requires Fields(lines).pending == ""
    requires ':' !in key && line == key + ":" + value
    ensures Fields(lines + [line]) == Grouping(Fields(lines).fields + [Field(key, Trim(value))], "")
    ensures ParseStatus(Opened(lines + [line], None)) ==
              match ParseStatus(Opened(lines, None))
              case Err(e) => Err(e)
              case Ok(st) => ApplyField(st, Field(key, Trim(value)))
  {
    FieldsSnoc(lines, line);
    assert "" + line == key + [':'] + value;
    SplitOnceAt(key, ':', value);
    ApplySnoc(Fields(lines).fields, Field(key, Trim(value)));
  }

  /** Replaying one more field. */
  lemma ApplySnoc(fields: seq<Field>, f: Field)
    ensures Apply(fields + [f]) ==
              match Apply(fields)
              case Err(e) => Err(e)
              case Ok(st) => ApplyField(st, f)
  {
    assert (fields + [f])[..|fields|] == fields;
  }

  /** The value of a `Name` line trims back to the name. */
  lemma NameLineValue(name: string)
    requires NoSurroundingWhitespace(name)
    ensures Trim("\t" + name + "\n") == name
  {
    assert AllWhitespace("\t") && AllWhitespace("\n");
    TrimPadded("\t", name, "\n");
  }

  /** The value of a `Pid` line parses back to the pid. */
  lemma PidLineValue(pid: i32)
    ensures ParseI32(Trim("\t" + FormatInt(pid) + "\n")) == Some(pid)
  {
    assert AllWhitespace("\t") && AllWhitespace("\n");
    TrimPadded("\t", FormatInt(pid), "\n");
    ParseI32OfFormat(pid);
  }

  /** The value of a `VmSwap` line gives back the amount. */
  lemma VmSwapLineValue(padding: string, kb: usize)
    requires AllWhitespace(padding)
    ensures SwapKb(Trim("\t" + padding + FormatNat(kb) + " kB\n")) == Some(kb)
  {
    var amount := FormatNat(kb) + " kB";
    assert amount[|amount| - 1] == 'B';
    assert IsDigit(amount[0]);
    assert AllWhitespace("\t" + padding) by {
      assert forall i :: 0 < i < |"\t" + padding| ==> ("\t" + padding)[i] == padding[i - 1];
    }
    assert AllWhitespace("\n");
    assert "\t" + padding + FormatNat(kb) + " kB\n" == ("\t" + padding) + amount + "\n";
    TrimPadded("\t" + padding, amount, "\n");
    StripSuffixOf(amount, " kB");
    ParseUsizeOfFormat(kb);
  }

  /** A later `Pid` line overrides the pid read so far. */
  lemma AppendPidLine(lines: seq<Line>, pid: i32)
    requires Fields(lines).pending == ""
    requires AllEnded(lines)
    ensures Fields(lines + [PidLine(pid)]).pending == ""
    ensures ParseStatus(Opened(lines + [PidLine(pid)], None)) ==
              match ParseStatus(Opened(lines, None))
              case Err(e) => Err(e)
              case Ok(st) => Ok(st.(pid := pid))
  {
    AppendLine(lines, PidLine(pid), "Pid", "\t" + FormatInt(pid) + "\n");
    PidLineValue(pid);
  }

  /** A `Name` line appends its value to the name read so far. */
  lemma AppendNameLine(lines: seq<Line>, name: string)
    requires Fields(lines).pending == ""
    requires NoSurroundingWhitespace(name) && '\n' !in name
    requires AllEnded(lines)
    ensures Fields(lines + [NameLine(name)]).pending == ""
    ensures ParseStatus(Opened(lines + [NameLine(name)], None)) ==
              match ParseStatus(Opened(lines, None))
              case Err(e) => Err(e)
              case Ok(st) => Ok(st.(processName := st.processName + name))
  {
    AppendLine(lines, NameLine(name), "Name", "\t" + name + "\n");
    NameLineValue(name);
  }

  /** A later `VmSwap` line overrides the amount read so far. */
  lemma AppendVmSwapLine(lines: seq<Line>, padding: string, kb: usize)
    requires Fields(lines).pending == ""
    requires AllWhitespace(padding) && '\n' !in padding
    requires AllEnded(lines)
    ensures Fields(lines + [VmSwapLine(padding, kb)]).pending == ""
    ensures ParseStatus(Opened(lines + [VmSwapLine(padding, kb)], None)) ==
              match ParseStatus(Opened(lines, None))
              case Err(e) => Err(e)
              case Ok(st) => Ok(st.(vmSwap := Some(kb)))
  {
    var value := "\t" + padding + FormatNat(kb) + " kB\n";
    AppendLine(lines, VmSwapLine(padding, kb), "VmSwap", value);
    match ParseStatus(Opened(lines, None)) {
      case Err(_) =>
      case Ok(st) =>
        VmSwapField(padding, kb, st);
    }
  }

  /** The field of a `VmSwap` line sets the amount, whatever the record. */
  lemma VmSwapField(padding: string, kb: usize, st: ProcessStatus)
    requires AllWhitespace(padding)
    ensures ApplyField(st, Field("VmSwap", Trim("\t" + padding + FormatNat(kb) + " kB\n"))) == Ok(st.(vmSwap := Some(kb)))
  {
    VmSwapLineValue(padding, kb);
  }

  /** The empty record reads as the default record. */
  lemma NoLines()
    ensures Fields([]).pending == ""
    ensures ParseStatus(Opened([], None)) == Ok(DefaultStatus)
  {
    ParseStatusSummary([], None);
  }

  /** A `Name` line on its own sets the name. */
  lemma NameLineAlone(name: string)
    requires NoSurroundingWhitespace(name) && '\n' !in name
    ensures Fields([NameLine(name)]).pending == ""
    ensures ParseStatus(Opened([NameLine(name)], None)) == Ok(ProcessStatus(0, name, None))
  {
    assert "" + name == name;
    assert [] + [NameLine(name)] == [NameLine(name)];
    NoLines();
    AppendNameLine([], name);
  }

  /** The `Name` and `Pid` lines, in the order the kernel writes them. */
  lemma NameAndPidLines(name: string, pid: i32)
    requires NoSurroundingWhitespace(name) && '\n' !in name
    ensures Fields([NameLine(name), PidLine(pid)]).pending == ""
    ensures ParseStatus(Opened([NameLine(name), PidLine(pid)], None)) == Ok(ProcessStatus(pid, name, None))
  {
    NameLineAlone(name);
    AppendPidLine([NameLine(name)], pid);
    assert [NameLine(name)] + [PidLine(pid)] == [NameLine(name), PidLine(pid)];
  }

  /**
   * The record the kernel writes reads back as the status it describes, as
   * long as the name has no surrounding whitespace (that would be trimmed)
   * and no `\n` (that would split its line); a record without a `VmSwap`
   * line reads back with `vmSwap == None`.
   */
  lemma StatusLinesRoundTrip(st: ProcessStatus, padding: string)
    requires NoSurroundingWhitespace(st.processName) && '\n' !in st.processName
    requires AllWhitespace(padding) && '\n' !in padding
    ensures var lines := [NameLine(st.processName), PidLine(st.pid)] +
                         (if st.vmSwap.Some? then [VmSwapLine(padding, st.vmSwap.value)] else []);
            ParseStatus(Opened(lines, None)) == Ok(st)
  {
    var head := [NameLine(st.processName), PidLine(st.pid)];
    NameAndPidLines(st.processName, st.pid);
    if st.vmSwap.Some? {
      AppendVmSwapLine(head, padding, st.vmSwap.value);
    } else {
      assert head + [] == head;
    }
  }

  /**
   * A line whose field makes the call fail (a `Pid` value that is not an
   * `i32`, a `VmSwap` value that is not `<usize> kB`) ends the parse: whatever
   * lines follow, and even if reading them would fail, the result is
   * `InvalidValue`.
   */
  lemma InvalidLineIsFinal(lines: seq<Line>, key: string, value: string, more: seq<Line>, readError: Option<OsError>)
    requires Fields(lines).pending == ""
    requires ':' !in key && '\n' !in key && NoInnerNewline(value)
    requires ReadLines(lines + [FieldLine(key, value)] + more)
    requires !ValidField(Field(key, Trim(value)))
    ensures ParseStatus(Opened(lines + [FieldLine(key, value)] + more, readError)) == Err(InvalidValue)
  {
    var upTo := lines + [FieldLine(key, value)];
    ReadLinesBefore(lines, FieldLine(key, value), more);
    AppendFieldLine(lines, key, value);
    ParseStatusSummary(upTo, None);
    ParseStatusSummary(lines, None);
    var before := Fields(upTo).fields;
    assert Apply(before).Err?;
    FieldsExtend(upTo, more);
    ApplyFailureIsFinal(before, Fields(upTo + more).fields);
    ApplyFails(before);
  }

  /** A `VmSwap` value that does not end in ` kB` is rejected, whatever it holds. */
  lemma SwapWithoutUnitIsInvalid(value: string)
    requires !(|value| >= 3 && value[|value| - 3..] == " kB")
    ensures SwapKb(value) == None
    ensures !ValidField(Field("VmSwap", value))
  {
  }

  /** `VmSwap:\t128` has no unit and is rejected rather than read as 128. */
  lemma BareSwapAmountIsInvalid()
    ensures !ValidField(Field("VmSwap", Trim("\t128\n")))
  {
    assert AllWhitespace("\t") && AllWhitespace("\n");
    TrimPadded("\t", "128", "\n");
    SwapWithoutUnitIsInvalid("128");
  }

  /**
   * A record none of whose labels is `Pid`, `Name` or `VmSwap` reads as the
   * default record: pid 0, an empty name and no swap amount.
   */
  lemma UnknownLabelsGiveDefault(lines: seq<Line>)
    requires forall i :: 0 <= i < |Fields(lines).fields| ==>
               Fields(lines).fields[i].key !in {"Pid", "Name", "VmSwap"}
    ensures ParseStatus(Opened(lines, None)) == Ok(DefaultStatus)
  {
    ParseStatusSummary(lines, None);
  }

  /** Without a `VmSwap` line a successful read has no swap amount at all. */
  lemma NoVmSwapLineMeansNone(lines: seq<Line>, readError: Option<OsError>)
    requires forall i :: 0 <= i < |Fields(lines).fields| ==> Fields(lines).fields[i].key != "VmSwap"
    ensures ParseStatus(Opened(lines, readError)).Ok? ==> ParseStatus(Opened(lines, readError)).value.vmSwap == None
  {
    ParseStatusSummary(lines, readError);
  }

  /**
   * Without a `Pid` line the record is not rejected for lacking one: a
   * successful read has the default pid 0.
   */
  lemma NoPidLineMeansZero(lines: seq<Line>, readError: Option<OsError>)
    requires forall i :: 0 <= i < |Fields(lines).fields| ==> Fields(lines).fields[i].key != "Pid"
    ensures ParseStatus(Opened(lines, readError)).Ok? ==> ParseStatus(Opened(lines, readError)).value.pid == 0
  {
    ParseStatusSummary(lines, readError);
  }

  /** Leading zeros in a `VmSwap` amount are accepted: `0128 kB` is 128. */
  lemma VmSwapLeadingZeros()
    ensures SwapKb("0128 kB") == Some(128)
  {
    StripSuffixOf("0128 kB", " kB");
    assert "0128 kB" == "0128" + " kB";
    ParseUsizeDigits("0128");
    assert "0128"[..3] == "012" && "012"[..2] == "01" && "01"[..1] == "0" && "0"[..0] == "";
    assert DecimalValue("0") == 0;
    assert DecimalValue("01") == 1;
    assert DecimalValue("012") == 12;
    assert DecimalValue("0128") == 128;
  }

  /** `VmSwap:\t0 kB` is an amount of zero, not an absent amount. */
  lemma VmSwapZeroIsSomeZero()
    ensures ParseStatus(Opened([VmSwapLine("", 0)], None)) == Ok(DefaultStatus.(vmSwap := Some(0)))
  {
    NoLines();
    AppendVmSwapLine([], "", 0);
    assert [] + [VmSwapLine("", 0)] == [VmSwapLine("", 0)];
  }

  /**
   * The buffer is not cleared after a line without a `:`, so that line does
   * not vanish: it becomes the front of the next label. A `Pid` line that
   * sets the pid on its own is ignored after such a line.
   */
  lemma ColonlessLineMasksPid(junk: Line, pid: i32)
    requires ':' !in junk && Ended(junk)
    ensures ParseStatus(Opened([PidLine(pid)], None)) == Ok(DefaultStatus.(pid := pid))
    ensures ParseStatus(Opened([junk, PidLine(pid)], None)) == Ok(DefaultStatus)
  {
    PidLineAlone(pid);
    var line := PidLine(pid);
    GluedPidLine(junk, pid);
    UnknownLabelsGiveDefault([junk, line]);
  }

  /** A colon-less line and a `Pid` line form one field, under no label the loop knows. */
  lemma GluedPidLine(junk: Line, pid: i32)
    requires ':' !in junk
    ensures Fields([junk, PidLine(pid)]).fields == [FieldOf(junk + PidLine(pid))]
    ensures FieldOf(junk + PidLine(pid)).key !in {"Pid", "Name", "VmSwap"}
  {
    var value := "\t" + FormatInt(pid) + "\n";
    var line := PidLine(pid);
    var none: seq<Line> := [];
    assert none + [junk, line] == [junk, line];
    PidText(pid);
    assert line[3] == ':';
    ColonlessLineJoinsNext(none, junk, line);
    GluedPidLabel(junk, value);
  }

  /** A `Pid` line on its own sets the pid. */
  lemma PidLineAlone(pid: i32)
    ensures ParseStatus(Opened([PidLine(pid)], None)) == Ok(DefaultStatus.(pid := pid))
  {
    NoLines();
    AppendPidLine([], pid);
    assert [] + [PidLine(pid)] == [PidLine(pid)];
  }

  /** Glued to a colon-less line, a `Pid` line's label is no label the loop knows. */
  lemma GluedPidLabel(junk: string, value: string)
    requires junk != [] && ':' !in junk && NoInnerNewline(value)
    ensures FieldOf(junk + FieldLine("Pid", value)).key !in {"Pid", "Name", "VmSwap"}
  {
    var key := junk + "Pid";
    assert junk + FieldLine("Pid", value) == key + [':'] + value;
    SplitOnceAt(key, ':', value);
    assert key[|key| - 1] == 'd' && |key| > 3;
  }

  /** `Pid`, then `Name`: each line sets its own field. */
  lemma PidAndNameLines(pid: i32, name: string)
    requires NoSurroundingWhitespace(name) && '\n' !in name
    ensures Fields([PidLine(pid), NameLine(name)]).pending == ""
    ensures ParseStatus(Opened([PidLine(pid), NameLine(name)], None)) == Ok(ProcessStatus(pid, name, None))
  {
    assert "" + name == name;
    assert [PidLine(pid)] + [NameLine(name)] == [PidLine(pid), NameLine(name)];
    PidLineAlone(pid);
    AppendNameLine([PidLine(pid)], name);
  }

  /** `Pid`, then `Name`, then `VmSwap`: each line sets its own field. */
  lemma PidNameSwapLines(pid: i32, name: string, kb: usize)
    requires NoSurroundingWhitespace(name) && '\n' !in name
    ensures ParseStatus(Opened([PidLine(pid), NameLine(name), VmSwapLine("", kb)], None))
            == Ok(ProcessStatus(pid, name, Some(kb)))
  {
    var head := [PidLine(pid), NameLine(name)];
    PidAndNameLines(pid, name);
    AppendVmSwapLine(head, "", kb);
    assert head + [VmSwapLine("", kb)] == [PidLine(pid), NameLine(name), VmSwapLine("", kb)];
  }

  /** The three lines of the record `Pid 42`, `Name foo`, `VmSwap 128 kB`. */
  lemma ExampleRecordLines()
    ensures PidLine(42) == "Pid:\t42\n"
    ensures NameLine("foo") == "Name:\tfoo\n"
    ensures VmSwapLine("", 128) == "VmSwap:\t128 kB\n"
  {
    assert FormatInt(42) == "42" && FormatNat(128) == "128";
  }

  /**
   * The well-formed record `Pid:\t42`, `Name:\tfoo`, `VmSwap:\t128 kB`, whose
   * lines `ExampleRecordLines` spells out.
   */
  lemma WellFormedRecordExample()
    ensures ParseStatus(Opened([PidLine(42), NameLine("foo"), VmSwapLine("", 128)], None))
            == Ok(ProcessStatus(42, "foo", Some(128)))
  {
    PidNameSwapLines(42, "foo", 128);
  }
}
