/**
 * The `/proc` side of pswap (src/main.rs): choosing the per-process
 * directories of the listing (`is_all_digits`, `is_process_subdir`), the
 * `ProcessStatusReader` iterator that reads one status record per call of
 * `next`, and the loop of `main` that adds up the swap usage.
 *
 * The listing of `/proc` is an input: a sequence of entries as `read_dir`
 * yields them, each carrying what reading its `status` file would give.
 */
module ProcessReader {
  import opened Wrappers
  import opened RustStr
  import opened Status

  /** `is_all_digits`: every character is an ASCII decimal digit; true for "". */
  function IsAllDigits(s: string): (r: bool)
    ensures r <==> AllDigits(s)
  {
    s == [] || (IsDigit(s[0]) && IsAllDigits(s[1..]))
  }

  /**
   * One entry of the `/proc` listing: its file name when that is valid
   * UTF-8 (`None` when `to_str` fails), whether its path is a directory
   * (`is_dir`, which follows links and is false when the path cannot be
   * examined), and what opening and reading `<entry>/status` yields.
   */
  datatype DirEntry = DirEntry(fileName: Option<string>, isDir: bool, status: StatusFile)

  /** What `read_dir("/proc")` yields, in its order; an entry may be an error. */
  type Listing = seq<Result<DirEntry, OsError>>

  predicate AllOk(listing: Listing) {
    forall i :: 0 <= i < |listing| ==> listing[i].Ok?
  }

  /**
   * `is_process_subdir`: a directory whose name is all digits. The entry is
   * unwrapped, so an `Err` entry panics; the caller must not pass one.
   */
  function IsProcessSubdir(entry: Result<DirEntry, OsError>): (r: bool)
    requires entry.Ok?
    ensures r <==> entry.value.isDir && entry.value.fileName.Some? && AllDigits(entry.value.fileName.value)
  {
    entry.value.isDir &&
    match entry.value.fileName
    case Some(name) => IsAllDigits(name)
    case None => false
  }

  /** The entries `read_dir(..).filter(is_process_subdir)` lets through, in listing order. */
  function ProcessSubdirs(listing: Listing): (r: seq<DirEntry>)
    requires AllOk(listing)
    ensures |r| <= |listing|
  {
    if listing == [] then []
    else
      var rest := ProcessSubdirs(listing[1..]);
      if IsProcessSubdir(listing[0]) then [listing[0].value] + rest else rest
  }

  /** The filter keeps exactly the entries that are process directories. */
  lemma {:induction false} ProcessSubdirsMembers(listing: Listing)
    requires AllOk(listing)
    ensures forall d :: d in ProcessSubdirs(listing) <==> Ok(d) in listing && IsProcessSubdir(Ok(d))
    decreases |listing|
  {
    if listing != [] {
      ProcessSubdirsMembers(listing[1..]);
      assert listing == [listing[0]] + listing[1..];
    }
  }

  /** Filtering keeps the listing's order: a split listing filters piece by piece. */
  lemma {:induction false} ProcessSubdirsAppend(a: Listing, b: Listing)
    requires AllOk(a) && AllOk(b)
    ensures AllOk(a + b)
    ensures ProcessSubdirs(a + b) == ProcessSubdirs(a) + ProcessSubdirs(b)
    decreases |a|
  {
    if a == [] {
      assert a + b == b;
    } else {
      assert (a + b)[1..] == a[1..] + b;
      ProcessSubdirsAppend(a[1..], b);
    }
  }

  /**
   * `ProcessStatusReader`. Its `iter` is the lazy filter over the listing,
   * represented by the part of the listing not yet consumed: the filter
   * examines entries only as `next` pulls them.
   */
  class ProcessStatusReader {
    var iter: Listing

    constructor (listing: Listing)
      ensures iter == listing
    {
      iter := listing;
    }

    /**
     * `next`: skip entries until the filter accepts one, then read that
     * directory's status record; `None` once the listing is exhausted. The
     * `Err` arm of the source's match cannot be reached, since the filter
     * has already unwrapped the entry.
     */
    method Next() returns (item: Option<Result<ProcessStatus, ReadError>>)
      requires AllOk(iter)
      modifies this
      ensures AllOk(iter)
      ensures old(ProcessSubdirs(iter)) == [] ==> item == None && iter == []
      ensures old(ProcessSubdirs(iter)) != [] ==>
                item == Some(ParseStatus(old(ProcessSubdirs(iter))[0].status)) &&
                ProcessSubdirs(iter) == old(ProcessSubdirs(iter))[1..] &&
                |iter| < old(|iter|)
    {
      while iter != [] && !IsProcessSubdir(iter[0])
        invariant AllOk(iter)
        invariant |iter| <= old(|iter|)
        invariant ProcessSubdirs(iter) == old(ProcessSubdirs(iter))
        decreases |iter|
      {
        iter := iter[1..];
      }
      if iter == [] {
        return None;
      }
      match iter[0]
      case Ok(entry) =>
        iter := iter[1..];
        var status := ReadProcessStatus(entry.status);
        return Some(status);
    }
  }

  /** `create_process_status_reader`: `read_dir` failing is passed on with `?`. */
  method CreateProcessStatusReader(readDir: Result<Listing, OsError>) returns (r: Result<ProcessStatusReader, OsError>)
    ensures readDir.Err? ==> r == Err(readDir.error)
    ensures readDir.Ok? ==> r.Ok? && fresh(r.value) && r.value.iter == readDir.value
  {
    match readDir
    case Err(e) =>
      return Err(e);
    case Ok(listing) =>
      var reader := new ProcessStatusReader(listing);
      return Ok(reader);
  }

  /** The status record read for each directory, in order. */
  function Statuses(dirs: seq<DirEntry>): (items: seq<Result<ProcessStatus, ReadError>>)
    ensures |items| == |dirs|
    ensures forall i :: 0 <= i < |dirs| ==> items[i] == ParseStatus(dirs[i].status)
  {
    if dirs == [] then [] else [ParseStatus(dirs[0].status)] + Statuses(dirs[1..])
  }

  /** Reading one more directory adds its record at the end. */
  lemma StatusesSnoc(dirs: seq<DirEntry>, d: DirEntry)
    ensures Statuses(dirs + [d]) == Statuses(dirs) + [ParseStatus(d.status)]
  {
    var items := Statuses(dirs + [d]);
    assert forall i :: 0 <= i < |dirs| ==> items[i] == ParseStatus(dirs[i].status) by {
      forall i | 0 <= i < |dirs| ensures items[i] == ParseStatus(dirs[i].status) {
        assert (dirs + [d])[i] == dirs[i];
      }
    }
  }

  /** The items the reader yields over a whole listing. */
  function Report(listing: Listing): seq<Result<ProcessStatus, ReadError>>
    requires AllOk(listing)
  {
    Statuses(ProcessSubdirs(listing))
  }

  /** What one item adds to `total`: its swap in kB, 0 when absent or on error. */
  function SwapKbOf(item: Result<ProcessStatus, ReadError>): nat {
    match item
    case Ok(status) => status.vmSwap.UnwrapOr(0)
    case Err(_) => 0
  }

  /** `total` after the items have been visited in order. */
  function SwapTotal(items: seq<Result<ProcessStatus, ReadError>>): nat {
    if items == [] then 0 else SwapTotal(items[..|items| - 1]) + SwapKbOf(items[|items| - 1])
  }

  /** The total of a split sequence is the sum of the totals of its pieces. */
  lemma {:induction false} SwapTotalAppend(a: seq<Result<ProcessStatus, ReadError>>, b: seq<Result<ProcessStatus, ReadError>>)
    ensures SwapTotal(a + b) == SwapTotal(a) + SwapTotal(b)
    decreases |b|
  {
    if b == [] {
      assert a + b == a;
    } else {
      var init := b[..|b| - 1];
      assert (a + b)[..|a + b| - 1] == a + init;
      SwapTotalAppend(a, init);
    }
  }

  /** Every successful item's `VmSwap` is counted in the total. */
  lemma {:induction false} SwapTotalCovers(items: seq<Result<ProcessStatus, ReadError>>, i: nat)
    requires i < |items|
    requires items[i].Ok? && items[i].value.vmSwap.Some?
    ensures items[i].value.vmSwap.value <= SwapTotal(items)
    decreases |items|
  {
    if i < |items| - 1 {
      var init := items[..|items| - 1];
      assert init[i] == items[i];
      SwapTotalCovers(init, i);
    }
  }

  /** Visiting one more item adds what it contributes. */
  lemma SwapTotalSnoc(items: seq<Result<ProcessStatus, ReadError>>, item: Result<ProcessStatus, ReadError>)
    ensures SwapTotal(items + [item]) == SwapTotal(items) + SwapKbOf(item)
  {
    assert (items + [item])[..|items|] == items;
  }

  /** A sequence of failed items adds nothing to the total. */
  lemma {:induction false} SwapTotalOfErrors(items: seq<Result<ProcessStatus, ReadError>>)
    requires forall i :: 0 <= i < |items| ==> items[i].Err?
    ensures SwapTotal(items) == 0
    decreases |items|
  {
    if items != [] {
      SwapTotalOfErrors(items[..|items| - 1]);
    }
  }

  /**
   * One round of the loop of `main`: the next directory's item joins the
   * items and the total.
   */
  lemma ReportStep(visited: seq<DirEntry>, pending: seq<DirEntry>, items: seq<Result<ProcessStatus, ReadError>>)
    requires pending != [] && items == Statuses(visited)
    ensures items + [ParseStatus(pending[0].status)] == Statuses(visited + [pending[0]])
    ensures SwapTotal(items + [ParseStatus(pending[0].status)]) == SwapTotal(items) + SwapKbOf(ParseStatus(pending[0].status))
    ensures visited + pending == (visited + [pending[0]]) + pending[1..]
  {
    var next := pending[0];
    assert visited + pending == (visited + [next]) + pending[1..] by {
      assert pending == [next] + pending[1..];
    }
    StatusesSnoc(visited, next);
    SwapTotalSnoc(items, ParseStatus(next.status));
  }

  /**
   * The loop of `main`: create the reader (unwrapped, so `read_dir` must
   * succeed), visit every item, and add up the swap of the successful ones.
   * `items` is what is printed, one line per item.
   */
  method SwapReport(readDir: Result<Listing, OsError>) returns (items: seq<Result<ProcessStatus, ReadError>>, total: nat)
    requires readDir.Ok? && AllOk(readDir.value)
    ensures items == Report(readDir.value)
    ensures total == SwapTotal(items)
  {
    var created := CreateProcessStatusReader(readDir);
    var reader := created.value;
    items := [];
    total := 0;
    ghost var visited: seq<DirEntry> := [];
    while true
      invariant fresh(reader)
      invariant AllOk(reader.iter)
      invariant ProcessSubdirs(readDir.value) == visited + ProcessSubdirs(reader.iter)
      invariant items == Statuses(visited)
      invariant total == SwapTotal(items)
      decreases |reader.iter|
    {
      ghost var pending := ProcessSubdirs(reader.iter);
      var next := reader.Next();
      if next.None? {
        break;
      }
      assert pending != [] && ProcessSubdirs(reader.iter) == pending[1..];
      var item := next.value;
      match item {
        case Err(_) =>
        case Ok(status) =>
          total := total + status.vmSwap.UnwrapOr(0);
      }
      ReportStep(visited, pending, items);
      items := items + [item];
      visited := visited + [pending[0]];
    }
    assert visited + [] == visited;
  }
}
