/**
  The HiveServer2 log analyser of hs2_anlyzer.py: lines of the logs are read
  in order, a "Compiling command" line opens a query, the matching
  "Completed compiling command" line closes it and emits one record, and
  per-user and per-hour counters follow the emitted records.

  The two regular expressions are an abstract classifier: each line carries
  what the start pattern and the end pattern found in it (already stripped),
  and `unions` is the number of `UNION ALL` matches in a query. The lines of
  all files are one sequence of entries, each tagged with its file, because
  the in-flight table is shared across files.
*/
module Hs2 {

  import opened Wrappers
  import opened Text
  import opened Calendar

  // ---------------------------------------------------------------------------
  // parse_timestamp: `YYYY-MM-DD HH:MM:SS,mmm` at the start of a line.
  // ---------------------------------------------------------------------------

  /** The 23 characters the timestamp pattern matches (ASCII digits). */
  predicate TimestampShape(p: string) {
    && |p| == 23
    && DateShape(p[..10]) && p[10] == ' '
    && AllDigits(p[11..13]) && p[13] == ':' && AllDigits(p[14..16]) && p[16] == ':'
    && AllDigits(p[17..19]) && p[19] == ',' && AllDigits(p[20..23])
  }

  /** Microseconds since midnight of a clock reading with milliseconds. */
  function ClockMicros(h: nat, m: nat, s: nat, ms: nat): nat {
    (((h * 60 + m) * 60 + s) * 1000 + ms) * 1000
  }

  /** A valid clock reading falls within the day, on a whole millisecond. */
  lemma ClockMicrosRange(h: nat, m: nat, s: nat, ms: nat)
    requires h <= 23 && m <= 59 && s <= 59 && ms < 1000
    ensures ClockMicros(h, m, s, ms) < MicrosPerDay && ClockMicros(h, m, s, ms) % 1000 == 0
  {
    var secs := (h * 60 + m) * 60 + s;
    assert secs <= 86399;
    var millis := secs * 1000 + ms;
    assert millis < 86_400_000;
    assert ClockMicros(h, m, s, ms) == millis * 1000;
  }

  /** The clock part of the matched characters, where `strptime` accepts
      it: hour up to 23, minute and second up to 59, three `%f` digits read as
      milliseconds. */
  function StampClock(p: string): (r: Option<Micro>)
    requires TimestampShape(p)
    ensures r.Some? ==> r.value % 1000 == 0
  {
    var h, m, s, ms := DigitsValue(p[11..13]), DigitsValue(p[14..16]), DigitsValue(p[17..19]), DigitsValue(p[20..23]);
    if h <= 23 && m <= 59 && s <= 59 then
      PaddedDigits(p[20..23]);
      assert Pow10(3) == 1000;
      ClockMicrosRange(h, m, s, ms);
      Some(ClockMicros(h, m, s, ms))
    else None
  }

  /** `strptime(p, '%Y-%m-%d %H:%M:%S,%f')` on the matched characters, or
      `None` where it raises `ValueError`. */
  function ParseStamp(p: string): (r: Option<Instant>)
    requires TimestampShape(p)
    ensures r.Some? <==> ParseDate(p[..10]).Some? && StampClock(p).Some?
    ensures r.Some? ==> ParseDate(p[..10]) == Some(DateOf(r.value)) && StampClock(p) == Some(r.value.micro)
  {
    match ParseDate(p[..10])
    case None => None
    case Some(d) =>
      match StampClock(p)
      case None => None
      case Some(c) =>
        OrdinalRange(d);
        FromOrdinalOfOrdinal(d);
        Some(Instant(Ordinal(d), c))
  }

  /** `parse_timestamp`: `None` whenever the line does not start with the
      timestamp pattern, else what `strptime` makes of the match. */
  function ParseTimestamp(line: string): (r: Option<Instant>)
    ensures r.Some? ==> |line| >= 23 && TimestampShape(line[..23])
    ensures r.Some? ==> ParseDate(line[..10]) == Some(DateOf(r.value))
    ensures r.Some? ==> r.value.micro % 1000 == 0
  {
    if |line| < 23 || !TimestampShape(line[..23]) then None
    else
      assert line[..23][..10] == line[..10];
      ParseStamp(line[..23])
  }

  function Hour(t: Instant): (h: nat)
    ensures h < 24
  {
    t.micro / 3_600_000_000
  }
  function Minute(t: Instant): nat { t.micro / 60_000_000 % 60 }
  function Second(t: Instant): nat { t.micro / 1_000_000 % 60 }
  function Milli(t: Instant): nat { t.micro / 1000 % 1000 }

  /** The clock fields of an instant put it back together. */
  lemma ClockParts(t: Instant)
    ensures Hour(t) < 24 && Minute(t) < 60 && Second(t) < 60 && Milli(t) < 1000
    ensures t.micro == ClockMicros(Hour(t), Minute(t), Second(t), Milli(t)) + t.micro % 1000
  {
    var u := t.micro;
    var a, b := u / 1000, u % 1000;
    var c := a / 1000;
    DivUnique(u, 1_000_000, c, 1000 * (a % 1000) + b);
    var d := c / 60;
    DivUnique(u, 60_000_000, d, 1_000_000 * (c % 60) + 1000 * (a % 1000) + b);
    var e := d / 60;
    DivUnique(u, 3_600_000_000, e, 60_000_000 * (d % 60) + 1_000_000 * (c % 60) + 1000 * (a % 1000) + b);
  }

  /** A clock reading is read back field by field. */
  lemma ClockOf(t: Instant, h: nat, m: nat, s: nat, ms: nat)
    requires h < 24 && m < 60 && s < 60 && ms < 1000
    requires t.micro == ClockMicros(h, m, s, ms)
    ensures Hour(t) == h && Minute(t) == m && Second(t) == s && Milli(t) == ms
  {
    var u := t.micro;
    DivUnique(u, 1000, ((h * 60 + m) * 60 + s) * 1000 + ms, 0);
    DivUnique(((h * 60 + m) * 60 + s) * 1000 + ms, 1000, (h * 60 + m) * 60 + s, ms);
    DivUnique(u, 1_000_000, (h * 60 + m) * 60 + s, ms * 1000);
    DivUnique((h * 60 + m) * 60 + s, 60, h * 60 + m, s);
    DivUnique(u, 60_000_000, h * 60 + m, s * 1_000_000 + ms * 1000);
    DivUnique(h * 60 + m, 60, h, m);
    DivUnique(u, 3_600_000_000, h, m * 60_000_000 + s * 1_000_000 + ms * 1000);
  }

  /** `%02d` and `%03d`. */
  function Pad2(n: nat): (s: string)
    requires n < 100
    ensures |s| == 2 && AllDigits(s)
  {
    assert Pow10(2) == 100;
    Padded(n, 2)
  }

  function Pad3(n: nat): (s: string)
    requires n < 1000
    ensures |s| == 3 && AllDigits(s)
  {
    assert Pow10(3) == 1000;
    Padded(n, 3)
  }

  /** `dt.strftime('%Y-%m-%d %H')`: the key of the hourly bucket. */
  function HourKey(t: Instant): string {
    Format(DateOf(t)) + " " + Pad2(Hour(t))
  }

  /** The instant written in the log's own timestamp layout. */
  function Render(t: Instant): (s: string)
    ensures |s| == 23 && s[..13] == HourKey(t)
  {
    HourKey(t) + ":" + Pad2(Minute(t)) + ":" + Pad2(Second(t)) + "," + Pad3(Milli(t))
  }

  /** The layout of a timestamp, piece by piece. */
  lemma StampPieces(f: string, h: string, mi: string, se: string, ml: string)
    requires |f| == 10 && |h| == 2 && |mi| == 2 && |se| == 2 && |ml| == 3
    ensures var r := f + " " + h + ":" + mi + ":" + se + "," + ml;
      && |r| == 23 && r[..10] == f && r[10] == ' ' && r[11..13] == h && r[13] == ':'
      && r[14..16] == mi && r[16] == ':' && r[17..19] == se && r[19] == ',' && r[20..23] == ml
  {
  }

  lemma StampJoin(p: string)
    requires |p| == 23 && p[10] == ' ' && p[13] == ':' && p[16] == ':' && p[19] == ','
    ensures p == p[..10] + " " + p[11..13] + ":" + p[14..16] + ":" + p[17..19] + "," + p[20..23]
  {
    StampPieces(p[..10], p[11..13], p[14..16], p[17..19], p[20..23]);
  }

  /** Where each field of the rendering sits. */
  lemma RenderPieces(t: Instant)
    ensures Render(t)[..10] == Format(DateOf(t)) && Render(t)[10] == ' '
    ensures Render(t)[11..13] == Pad2(Hour(t)) && Render(t)[13] == ':'
    ensures Render(t)[14..16] == Pad2(Minute(t)) && Render(t)[16] == ':'
    ensures Render(t)[17..19] == Pad2(Second(t)) && Render(t)[19] == ','
    ensures Render(t)[20..23] == Pad3(Milli(t))
  {
    StampPieces(Format(DateOf(t)), Pad2(Hour(t)), Pad2(Minute(t)), Pad2(Second(t)), Pad3(Milli(t)));
  }

  lemma RenderShape(t: Instant)
    ensures TimestampShape(Render(t))
  {
    RenderPieces(t);
    FormatShape(DateOf(t));
  }

  lemma StampClockOf(p: string, h: nat, m: nat, s: nat, ms: nat)
    requires TimestampShape(p) && h < 24 && m < 60 && s < 60 && ms < 1000
    requires p[11..13] == Pad2(h) && p[14..16] == Pad2(m) && p[17..19] == Pad2(s) && p[20..23] == Pad3(ms)
    ensures StampClock(p) == Some(ClockMicros(h, m, s, ms))
  {
    assert Pow10(2) == 100 && Pow10(3) == 1000;
    PaddedValue(h, 2);
    PaddedValue(m, 2);
    PaddedValue(s, 2);
    PaddedValue(ms, 3);
  }

  lemma StampClockRender(t: Instant)
    requires t.micro % 1000 == 0
    ensures TimestampShape(Render(t)) && StampClock(Render(t)) == Some(t.micro)
  {
    RenderClock(t);
    ClockWhole(t);
    StampClockOf(Render(t), Hour(t), Minute(t), Second(t), Milli(t));
  }

  /** What the clock half of a rendering holds. */
  lemma RenderClock(t: Instant)
    ensures TimestampShape(Render(t))
    ensures Render(t)[11..13] == Pad2(Hour(t)) && Render(t)[14..16] == Pad2(Minute(t))
    ensures Render(t)[17..19] == Pad2(Second(t)) && Render(t)[20..23] == Pad3(Milli(t))
  {
    RenderShape(t);
    RenderPieces(t);
  }

  /** A whole-millisecond instant is exactly its clock fields. */
  lemma ClockWhole(t: Instant)
    requires t.micro % 1000 == 0
    ensures Hour(t) < 24 && Minute(t) < 60 && Second(t) < 60 && Milli(t) < 1000
    ensures t.micro == ClockMicros(Hour(t), Minute(t), Second(t), Milli(t))
  {
    ClockParts(t);
  }

  /** Every millisecond instant is read back from its rendering, whatever
      follows it on the line. */
  lemma ParseRender(t: Instant, rest: string)
    requires t.micro % 1000 == 0
    ensures ParseTimestamp(Render(t) + rest) == Some(t)
  {
    var line := Render(t) + rest;
    assert line[..23] == Render(t);
    StampClockRender(t);
    RenderPieces(t);
    ParseFormat(DateOf(t));
    FromOrdinalOfOrdinal(DateOf(t));
    assert ParseStamp(Render(t)) == Some(t);
  }

  /** Conversely, a parsed timestamp renders as the characters it was read
      from, so its hourly key is the first 13 characters of the line. */
  lemma RenderParse(line: string)
    requires ParseTimestamp(line).Some?
    ensures Render(ParseTimestamp(line).value) == line[..23]
    ensures HourKey(ParseTimestamp(line).value) == line[..13]
  {
    var p := line[..23];
    var t := ParseTimestamp(line).value;
    assert ParseStamp(p) == Some(t);
    var h, m, s, ms := DigitsValue(p[11..13]), DigitsValue(p[14..16]), DigitsValue(p[17..19]), DigitsValue(p[20..23]);
    PaddedDigits(p[11..13]);
    PaddedDigits(p[14..16]);
    PaddedDigits(p[17..19]);
    PaddedDigits(p[20..23]);
    assert Pow10(2) == 100 && Pow10(3) == 1000;
    ClockOf(t, h, m, s, ms);
    FormatParse(p[..10]);
    RenderPieces(t);
    StampJoin(p);
    assert line[..13] == p[..13];
  }

  // ---------------------------------------------------------------------------
  // The analyser's state.
  // ---------------------------------------------------------------------------

  /** `compile_threshold_ms`, `union_threshold`, `max_query_len`. */
  datatype Config = Config(compileThresholdMs: int, unionThreshold: int, maxQueryLen: int)

  const Defaults := Config(10000, 3, 20000)

  /** What the start pattern captures: query id, user and query text. */
  datatype StartMatch = StartMatch(queryId: string, user: string, query: string)

  /** What the end pattern captures: query id and `compileTime` in ms. */
  datatype EndMatch = EndMatch(queryId: string, compileMs: nat)

  /** A log line with what each pattern found in it. */
  datatype Line = Line(text: string, start: Option<StartMatch>, end: Option<EndMatch>)

  /** A line of the file at `path`. */
  datatype Entry = Entry(path: string, line: Line)

  datatype InFlight = InFlight(queryId: string, user: string, query: string, startTs: Option<Instant>)

  /** One CSV row. */
  datatype QueryRecord = QueryRecord(
    queryId: string, user: string, compileMs: nat, unionCount: nat, slow: bool, excessive: bool,
    startTs: Option<Instant>, endTs: Option<Instant>, sourceLog: string, query: string)

  datatype UserStats = UserStats(total: nat, slow: nat, excessive: nat, totalMs: nat, maxMs: nat)

  datatype HourStats = HourStats(total: nat, sumMs: nat)

  /** The in-flight table, the rows written, and the two `defaultdict`s. */
  datatype Analyzer = Analyzer(
    inflight: map<string, InFlight>, records: seq<QueryRecord>,
    perUser: map<string, UserStats>, perHour: map<string, HourStats>)

  const Initial := Analyzer(map[], [], map[], map[])

  const TruncatedMark := " --[TRUNCATED]"

  /** `query[:k]`: Python counts a negative bound from the end. */
  function SliceEnd(n: nat, k: int): (e: nat)
    ensures e <= n
  {
    if k >= n then n else if k >= 0 then k else if n + k >= 0 then n + k else 0
  }

  /** The stored query: unchanged when short enough, else cut and marked. */
  function Truncate(query: string, maxLen: int): (r: string)
    ensures |query| <= maxLen ==> r == query
    ensures |query| > maxLen ==> EndsWith(r, TruncatedMark) && StartsWith(query, r[..|r| - |TruncatedMark|])
    ensures 0 <= maxLen < |query| ==> |r| == maxLen + |TruncatedMark|
  {
    if |query| <= maxLen then query
    else
      var r := query[..SliceEnd(|query|, maxLen)] + TruncatedMark;
      assert r[..|r| - |TruncatedMark|] == query[..SliceEnd(|query|, maxLen)];
      r
  }

  /** The record emitted when `end` closes `infl`; both flags are strict. */
  function MakeRecord(cfg: Config, unions: string -> nat, infl: InFlight, end: EndMatch,
                      endTs: Option<Instant>, path: string): (rec: QueryRecord)
    ensures rec.slow <==> end.compileMs > cfg.compileThresholdMs
    ensures rec.excessive <==> rec.unionCount > cfg.unionThreshold
    ensures rec.unionCount == unions(infl.query)
    ensures rec.queryId == end.queryId && rec.user == infl.user && rec.query == infl.query
    ensures rec.startTs == infl.startTs && rec.endTs == endTs && rec.sourceLog == path
  {
    var n := unions(infl.query);
    QueryRecord(end.queryId, infl.user, end.compileMs, n, end.compileMs > cfg.compileThresholdMs,
                n > cfg.unionThreshold, infl.startTs, endTs, path, infl.query)
  }

  /** The timestamp that dates a record: the start's, else the end's. */
  function Dated(rec: QueryRecord): Option<Instant> {
    if rec.startTs.Some? then rec.startTs else rec.endTs
  }

  /** The hourly bucket of a record, if it has a timestamp. */
  function HourOf(rec: QueryRecord): Option<string> {
    match Dated(rec)
    case Some(t) => Some(HourKey(t))
    case None => None
  }

  function UserAt(m: map<string, UserStats>, u: string): UserStats {
    if u in m then m[u] else UserStats(0, 0, 0, 0, 0)
  }

  function HourAt(m: map<string, HourStats>, k: string): HourStats {
    if k in m then m[k] else HourStats(0, 0)
  }

  /** One more row in a user's counters: `max_compile_ms` is a running maximum. */
  function AddUser(u: UserStats, rec: QueryRecord): UserStats {
    UserStats(u.total + 1, u.slow + (if rec.slow then 1 else 0), u.excessive + (if rec.excessive then 1 else 0),
              u.totalMs + rec.compileMs, if rec.compileMs > u.maxMs then rec.compileMs else u.maxMs)
  }

  function AddHour(h: HourStats, rec: QueryRecord): HourStats {
    HourStats(h.total + 1, h.sumMs + rec.compileMs)
  }

  /** `_emit_record`: the row is written, and the counters of its user, and
      of its hour when it is dated, take it in; no other counter changes. */
  function Emit(a: Analyzer, rec: QueryRecord): (b: Analyzer)
    ensures b.inflight == a.inflight && b.records == a.records + [rec]
    ensures b.perUser.Keys == a.perUser.Keys + {rec.user}
    ensures forall u :: u in a.perUser && u != rec.user ==> b.perUser[u] == a.perUser[u]
    ensures HourOf(rec).None? ==> b.perHour == a.perHour
    ensures HourOf(rec).Some? ==> b.perHour.Keys == a.perHour.Keys + {HourOf(rec).value}
    ensures forall k :: k in a.perHour && Some(k) != HourOf(rec) ==> b.perHour[k] == a.perHour[k]
  {
    var perHour :=
      match HourOf(rec)
      case None => a.perHour
      case Some(k) => a.perHour[k := AddHour(HourAt(a.perHour, k), rec)];
    Analyzer(a.inflight, a.records + [rec], a.perUser[rec.user := AddUser(UserAt(a.perUser, rec.user), rec)], perHour)
  }

  /** One line of `process_logs`. A start line is never also read as an end
      line; it opens (or reopens) its query id. An end line closes an open
      query and emits its record; one with no open query does nothing. */
  function Step(cfg: Config, unions: string -> nat, a: Analyzer, e: Entry): (b: Analyzer)
    ensures e.line.start.Some? ==>
      var st := e.line.start.value;
      b == a.(inflight := a.inflight[st.queryId := InFlight(st.queryId, st.user, Truncate(st.query, cfg.maxQueryLen),
                                                            ParseTimestamp(e.line.text))])
    ensures e.line.start.None? && e.line.end.Some? && e.line.end.value.queryId in a.inflight ==>
      var en := e.line.end.value;
      && b.inflight == a.inflight - {en.queryId}
      && b.records == a.records + [MakeRecord(cfg, unions, a.inflight[en.queryId], en, ParseTimestamp(e.line.text), e.path)]
    ensures e.line.start.None? && (e.line.end.None? || e.line.end.value.queryId !in a.inflight) ==> b == a
  {
    var ts := ParseTimestamp(e.line.text);
    match e.line.start
    case Some(st) =>
      var q := Truncate(st.query, cfg.maxQueryLen);
      a.(inflight := a.inflight[st.queryId := InFlight(st.queryId, st.user, q, ts)])
    case None =>
      match e.line.end
      case None => a
      case Some(en) =>
        if en.queryId !in a.inflight then a
        else
          var rec := MakeRecord(cfg, unions, a.inflight[en.queryId], en, ts, e.path);
          Emit(a.(inflight := a.inflight - {en.queryId}), rec)
  }

  /** `process_logs` over the lines of all logs, in order. */
  function Process(cfg: Config, unions: string -> nat, es: seq<Entry>): Analyzer
    decreases |es|
  {
    if |es| == 0 then Initial else Step(cfg, unions, Process(cfg, unions, es[..|es| - 1]), es[|es| - 1])
  }

  // ---------------------------------------------------------------------------
  // Pairing: each start yields at most one record.
  // ---------------------------------------------------------------------------

  function Starts(es: seq<Entry>): (n: nat)
    ensures n <= |es|
  {
    if |es| == 0 then 0 else Starts(es[..|es| - 1]) + (if es[|es| - 1].line.start.Some? then 1 else 0)
  }

  /** Records emitted plus queries still open never exceed the start lines
      seen: a reopened id loses its earlier start, and an end line without an
      open query emits nothing. */
  lemma {:induction false} PairingBound(cfg: Config, unions: string -> nat, es: seq<Entry>)
    ensures |Process(cfg, unions, es).records| + |Process(cfg, unions, es).inflight| <= Starts(es)
    decreases |es|
  {
    if |es| > 0 {
      var a := Process(cfg, unions, es[..|es| - 1]);
      var e := es[|es| - 1];
      PairingBound(cfg, unions, es[..|es| - 1]);
      if e.line.start.None? && e.line.end.Some? && e.line.end.value.queryId in a.inflight {
        var k := e.line.end.value.queryId;
        var rest := a.inflight - {k};
        assert rest.Keys == a.inflight.Keys - {k};
        assert a.inflight.Keys == rest.Keys + {k};
      }
    }
  }

  predicate StartsFor(e: Entry, id: string) {
    e.line.start.Some? && e.line.start.value.queryId == id
  }

  predicate EndsFor(e: Entry, id: string) {
    e.line.start.None? && e.line.end.Some? && e.line.end.value.queryId == id
  }

  /** Entry `i` starts `id` and no end line of `id` follows it. */
  predicate OpenFrom(es: seq<Entry>, i: nat, id: string)
    requires i < |es|
  {
    StartsFor(es[i], id) && forall j :: i < j < |es| ==> !EndsFor(es[j], id)
  }

  /** Some start of `id` has no end line of `id` after it. */
  ghost predicate Pending(es: seq<Entry>, id: string) {
    exists i :: 0 <= i < |es| && OpenFrom(es, i, id)
  }

  /** One step opens `id` on its start line, closes it on its end line and
      otherwise leaves it as it was. */
  lemma StepInflight(cfg: Config, unions: string -> nat, a: Analyzer, e: Entry, id: string)
    ensures id in Step(cfg, unions, a, e).inflight <==> StartsFor(e, id) || (!EndsFor(e, id) && id in a.inflight)
  {
  }

  /** `Pending` over one more entry. */
  lemma PendingSnoc(es: seq<Entry>, id: string)
    requires |es| > 0
    ensures var last := |es| - 1;
      Pending(es, id) <==> StartsFor(es[last], id) || (!EndsFor(es[last], id) && Pending(es[..last], id))
  {
    var last := |es| - 1;
    var init := es[..last];
    if StartsFor(es[last], id) {
      assert OpenFrom(es, last, id);
    } else {
      if Pending(es, id) {
        var i :| 0 <= i < |es| && OpenFrom(es, i, id);
        assert i < last && !EndsFor(es[last], id);
        assert OpenFrom(init, i, id);
      }
      if !EndsFor(es[last], id) && Pending(init, id) {
        var i :| 0 <= i < |init| && OpenFrom(init, i, id);
        assert OpenFrom(es, i, id);
      }
    }
  }

  /** A query id is open at the end exactly when one of its starts has no end
      line after it; such a start is never emitted. */
  lemma {:induction false} PendingIff(cfg: Config, unions: string -> nat, es: seq<Entry>, id: string)
    ensures id in Process(cfg, unions, es).inflight <==> Pending(es, id)
    decreases |es|
  {
    if |es| > 0 {
      var last := |es| - 1;
      PendingIff(cfg, unions, es[..last], id);
      StepInflight(cfg, unions, Process(cfg, unions, es[..last]), es[last], id);
      PendingSnoc(es, id);
    }
  }

  // ---------------------------------------------------------------------------
  // The counters summarise the rows written.
  // ---------------------------------------------------------------------------

  /** The rows of one user, in order. */
  function OfUser(rs: seq<QueryRecord>, u: string): (f: seq<QueryRecord>)
    ensures |f| <= |rs|
    decreases |rs|
  {
    if |rs| == 0 then []
    else OfUser(rs[..|rs| - 1], u) + (if rs[|rs| - 1].user == u then [rs[|rs| - 1]] else [])
  }

  /** The rows bucketed under hour `k`, in order. */
  function InHour(rs: seq<QueryRecord>, k: string): (f: seq<QueryRecord>)
    ensures |f| <= |rs|
    decreases |rs|
  {
    if |rs| == 0 then []
    else InHour(rs[..|rs| - 1], k) + (if HourOf(rs[|rs| - 1]) == Some(k) then [rs[|rs| - 1]] else [])
  }

  function SlowCount(rs: seq<QueryRecord>): (n: nat)
    ensures n <= |rs|
    decreases |rs|
  {
    if |rs| == 0 then 0 else SlowCount(rs[..|rs| - 1]) + (if rs[|rs| - 1].slow then 1 else 0)
  }

  function ExcessiveCount(rs: seq<QueryRecord>): (n: nat)
    ensures n <= |rs|
    decreases |rs|
  {
    if |rs| == 0 then 0 else ExcessiveCount(rs[..|rs| - 1]) + (if rs[|rs| - 1].excessive then 1 else 0)
  }

  function SumMs(rs: seq<QueryRecord>): nat
    decreases |rs|
  {
    if |rs| == 0 then 0 else SumMs(rs[..|rs| - 1]) + rs[|rs| - 1].compileMs
  }

  /** The largest compile time among the rows, 0 for none. */
  function MaxMs(rs: seq<QueryRecord>): (m: nat)
    ensures forall r :: r in rs ==> r.compileMs <= m
    ensures |rs| == 0 ==> m == 0
    ensures |rs| > 0 ==> exists r :: r in rs && r.compileMs == m
    decreases |rs|
  {
    if |rs| == 0 then 0
    else
      var init := MaxMs(rs[..|rs| - 1]);
      assert forall r :: r in rs <==> r in rs[..|rs| - 1] || r == rs[|rs| - 1];
      if rs[|rs| - 1].compileMs > init then rs[|rs| - 1].compileMs else init
  }

  /** What the per-user counters should hold: totals over that user's rows. */
  function UserReference(rs: seq<QueryRecord>, u: string): (s: UserStats)
    ensures s.slow <= s.total && s.excessive <= s.total && s.maxMs <= s.totalMs
  {
    StatsOf(OfUser(rs, u))
  }

  /** The counters of a list of rows. */
  function StatsOf(f: seq<QueryRecord>): (s: UserStats)
    ensures s.total == |f| && s.slow <= s.total && s.excessive <= s.total && s.maxMs <= s.totalMs
  {
    MaxBelowSum(f);
    UserStats(|f|, SlowCount(f), ExcessiveCount(f), SumMs(f), MaxMs(f))
  }

  lemma {:induction false} MaxBelowSum(rs: seq<QueryRecord>)
    ensures MaxMs(rs) <= SumMs(rs)
    decreases |rs|
  {
    if |rs| > 0 {
      MaxBelowSum(rs[..|rs| - 1]);
    }
  }

  function HourReference(rs: seq<QueryRecord>, k: string): HourStats {
    var f := InHour(rs, k);
    HourStats(|f|, SumMs(f))
  }

  lemma OfUserSnoc(rs: seq<QueryRecord>, rec: QueryRecord, u: string)
    ensures OfUser(rs + [rec], u) == OfUser(rs, u) + (if rec.user == u then [rec] else [])
  {
    assert (rs + [rec])[..|rs|] == rs;
  }

  /** The reference counters of one more row. */
  lemma CountersSnoc(f: seq<QueryRecord>, rec: QueryRecord)
    ensures SlowCount(f + [rec]) == SlowCount(f) + (if rec.slow then 1 else 0)
    ensures ExcessiveCount(f + [rec]) == ExcessiveCount(f) + (if rec.excessive then 1 else 0)
    ensures SumMs(f + [rec]) == SumMs(f) + rec.compileMs
    ensures MaxMs(f + [rec]) == if rec.compileMs > MaxMs(f) then rec.compileMs else MaxMs(f)
  {
    assert (f + [rec])[..|f|] == f;
  }

  lemma UserReferenceSnoc(rs: seq<QueryRecord>, rec: QueryRecord, u: string)
    ensures UserReference(rs + [rec], u) ==
            if rec.user == u then AddUser(UserReference(rs, u), rec) else UserReference(rs, u)
  {
    OfUserSnoc(rs, rec, u);
    if rec.user == u {
      StatsSnoc(OfUser(rs, u), rec);
    } else {
      assert OfUser(rs + [rec], u) == OfUser(rs, u);
    }
  }

  /** One more row is one more row taken into the counters. */
  lemma StatsSnoc(f: seq<QueryRecord>, rec: QueryRecord)
    ensures StatsOf(f + [rec]) == AddUser(StatsOf(f), rec)
  {
    CountersSnoc(f, rec);
  }

  lemma HourReferenceSnoc(rs: seq<QueryRecord>, rec: QueryRecord, k: string)
    ensures HourReference(rs + [rec], k) ==
            if HourOf(rec) == Some(k) then AddHour(HourReference(rs, k), rec) else HourReference(rs, k)
  {
    var rs2 := rs + [rec];
    assert rs2[..|rs2| - 1] == rs;
    var f := InHour(rs, k);
    if HourOf(rec) == Some(k) {
      var f2 := f + [rec];
      assert InHour(rs2, k) == f2;
      assert f2[..|f2| - 1] == f;
    } else {
      assert InHour(rs2, k) == f;
    }
  }

  /** The per-user counters agree with the rows: a user has counters exactly
      when it has a row, and they are the reference over its rows. */
  ghost predicate UsersSummarised(a: Analyzer) {
    && (forall u :: u in a.perUser <==> UserReference(a.records, u).total > 0)
    && (forall u :: u in a.perUser ==> a.perUser[u] == UserReference(a.records, u))
  }

  /** The same for the hourly counters. */
  ghost predicate HoursSummarised(a: Analyzer) {
    && (forall k :: k in a.perHour <==> HourReference(a.records, k).total > 0)
    && (forall k :: k in a.perHour ==> a.perHour[k] == HourReference(a.records, k))
  }

  ghost predicate Summarised(a: Analyzer) {
    UsersSummarised(a) && HoursSummarised(a)
  }

  lemma EmitUsers(a: Analyzer, rec: QueryRecord)
    requires UsersSummarised(a)
    ensures UsersSummarised(Emit(a, rec))
  {
    var b := Emit(a, rec);
    forall u
      ensures u in b.perUser <==> UserReference(b.records, u).total > 0
      ensures u in b.perUser ==> b.perUser[u] == UserReference(b.records, u)
    {
      UserReferenceSnoc(a.records, rec, u);
    }
  }

  lemma EmitHours(a: Analyzer, rec: QueryRecord)
    requires HoursSummarised(a)
    ensures HoursSummarised(Emit(a, rec))
  {
    var b := Emit(a, rec);
    forall k
      ensures k in b.perHour <==> HourReference(b.records, k).total > 0
      ensures k in b.perHour ==> b.perHour[k] == HourReference(b.records, k)
    {
      HourReferenceSnoc(a.records, rec, k);
    }
  }

  lemma StepSummarised(cfg: Config, unions: string -> nat, a: Analyzer, e: Entry)
    requires Summarised(a)
    ensures Summarised(Step(cfg, unions, a, e))
  {
    var b := Step(cfg, unions, a, e);
    if e.line.start.None? && e.line.end.Some? && e.line.end.value.queryId in a.inflight {
      var en := e.line.end.value;
      var rec := MakeRecord(cfg, unions, a.inflight[en.queryId], en, ParseTimestamp(e.line.text), e.path);
      var a2 := a.(inflight := a.inflight - {en.queryId});
      assert UsersSummarised(a2) && HoursSummarised(a2);
      EmitUsers(a2, rec);
      EmitHours(a2, rec);
      assert b == Emit(a2, rec);
    } else {
      assert b.records == a.records && b.perUser == a.perUser && b.perHour == a.perHour;
    }
  }

  /** After any run, every per-user and per-hour counter is exactly the
      summary of the rows written for that user or hour; in particular slow
      and excessive counts never exceed the total, and rows with no timestamp
      are in no hour. */
  lemma {:induction false} ProcessSummarised(cfg: Config, unions: string -> nat, es: seq<Entry>)
    ensures Summarised(Process(cfg, unions, es))
    decreases |es|
  {
    if |es| > 0 {
      ProcessSummarised(cfg, unions, es[..|es| - 1]);
      StepSummarised(cfg, unions, Process(cfg, unions, es[..|es| - 1]), es[|es| - 1]);
    }
  }
}
