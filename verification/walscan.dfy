/**
  The same-day WAL listing of wal.py: the entries of the WAL directory whose
  names look like WAL segments and whose modification date is today, in the
  order the directory lists them, and the report printed about them. The
  listing and each file's modification time are inputs.
*/
module WalScan {

  import opened Text
  import opened Calendar

  /** A directory entry with its modification time in local time. */
  datatype Entry = Entry(name: string, mtime: Instant)

  /** A WAL segment name: starts with `0000` and is 24 characters long. */
  predicate SegmentName(name: string) {
    StartsWith(name, "0000") && |name| == 24
  }

  /** The entries `get_wal_files_for_today` keeps. */
  predicate Selected(e: Entry, now: Instant) {
    SegmentName(e.name) && DateOf(e.mtime) == DateOf(now)
  }

  /** `idx` picks out of `listing`, in increasing positions, exactly the
      entries whose names are `names`. */
  predicate PicksInOrder(names: seq<string>, idx: seq<nat>, listing: seq<Entry>) {
    && |idx| == |names|
    && (forall k :: 0 <= k < |idx| ==> idx[k] < |listing| && listing[idx[k]].name == names[k])
    && (forall k, l :: 0 <= k < l < |idx| ==> idx[k] < idx[l])
  }

  /** `get_wal_files_for_today`, with `now` the wall-clock reading. The names
      returned are those of the selected entries, each once, in listing order;
      `idx` gives the position of each in the listing. */
  method TodaysWalFiles(listing: seq<Entry>, now: Instant) returns (names: seq<string>, idx: seq<nat>)
    ensures PicksInOrder(names, idx, listing)
    ensures forall k :: 0 <= k < |idx| ==> Selected(listing[idx[k]], now)
    ensures forall i :: 0 <= i < |listing| && Selected(listing[i], now) ==> i in idx
  {
    names, idx := [], [];
    var i := 0;
    while i < |listing|
      invariant 0 <= i <= |listing|
      invariant PicksInOrder(names, idx, listing)
      invariant forall k :: 0 <= k < |idx| ==> idx[k] < i && Selected(listing[idx[k]], now)
      invariant forall j :: 0 <= j < i && Selected(listing[j], now) ==> j in idx
    {
      var e := listing[i];
      if StartsWith(e.name, "0000") && |e.name| == 24 {
        if DateOf(e.mtime) == DateOf(now) {
          names := names + [e.name];
          idx := idx + [i];
        }
      }
      i := i + 1;
    }
  }

  const NoneToday := "No WAL files were modified today."
  const CountHeader := "Total WAL files modified today: "
  const ListHeader := "List of WAL files:"

  /** The lines `main` prints for the names found. */
  function Report(names: seq<string>): (lines: seq<string>)
    ensures |names| == 0 ==> lines == [NoneToday]
    ensures |names| > 0 ==> |lines| == |names| + 2 && lines[1] == ListHeader && lines[2..] == names
    ensures |names| > 0 ==> StartsWith(lines[0], CountHeader) && AllDigits(lines[0][|CountHeader|..])
  {
    if |names| == 0 then [NoneToday]
    else
      var header := CountHeader + Decimal(|names|);
      assert header[|CountHeader|..] == Decimal(|names|);
      [header, ListHeader] + names
  }

  /** The count printed in the header reads back as the number of names. */
  lemma ReportCount(names: seq<string>)
    requires |names| > 0
    ensures DigitsValue(Report(names)[0][|CountHeader|..]) == |names|
  {
    var header := CountHeader + Decimal(|names|);
    assert header[|CountHeader|..] == Decimal(|names|);
    DecimalValue(|names|);
  }
}
