/** Table cells (src/columns.rs): the cells that drift with the clock over cached rows,
    and CPU amounts. */
module Cells {
  import opened Wrappers
  import opened Text
  import opened CuratedColumns
  import Durations

  /** A time field of an object: missing or not a string, a string that is not a time,
      or seconds since the epoch. */
  datatype Stamp = Missing | Unreadable(text: string) | At(secs: int)

  /** The times of an object that columns measure from; `seen` and `deployed` are those an
      event and a Helm release resolve to, and `body` stands for all the rest. */
  datatype Object = Object(created: Option<int>, started: Stamp, completed: Stamp, scheduled: Stamp,
                           seen: Option<int>, deployed: Option<int>, body: string)

  /** The extractors that only look at the object, by name. */
  type Render = (string, Object) -> string

  function Secs(s: Stamp): Option<int> { if s.At? then Some(s.secs) else None }

  function Elapsed(since: int, now: int): string {
    Durations.Humanize(if now - since < 0 then 0 else now - since)
  }

  function Since(at: Option<int>, missing: string, now: int): string {
    if at.Some? then Elapsed(at.value, now) else missing
  }

  function JobDurationText(o: Object, now: int): string {
    var start, end := Secs(o.started), Secs(o.completed);
    if start.None? then "<none>" else Elapsed(start.value, if end.Some? then end.value else now)
  }

  // ----- two tables of the columns that move with the clock --------------------------------------

  /** A curated cell, as the column's own extractor renders it. */
  function CuratedCell(render: Render, o: Object, c: Column, now: int): string {
    match c.extract
    case Age => Since(o.created, "<unknown>", now)
    case HelmUpdated => Since(o.deployed, "<unknown>", now)
    case EventLastSeen => Since(o.seen, "<unknown>", now)
    case JobDuration => JobDurationText(o, now)
    case CronLastSchedule => Since(Secs(o.scheduled), "<none>", now)
    case Reads(name) => render(name, o)
  }

  /** `volatile_cell`: the override for a cached cell, found by resource name and header
      alone. */
  function VolatileCell(o: Object, plural: string, header: string, now: int): Option<string> {
    if header == "AGE" then Some(Since(o.created, "<unknown>", now))
    else if plural in {"helm", "helmhistory"} && header == "UPDATED" then Some(Since(o.deployed, "<unknown>", now))
    else if plural == "events" && header == "LAST-SEEN" then Some(Since(o.seen, "<unknown>", now))
    else if plural == "jobs" && header == "DURATION" && o.completed.Missing? then Some(JobDurationText(o, now))
    else if plural == "cronjobs" && header == "LAST-SCHEDULE" then Some(Since(Secs(o.scheduled), "<none>", now))
    else None
  }

  /** The override table has an arm for a column just where its extractor asks for one. */
  predicate Joined(plural: string, c: Column) {
    match c.extract
    case Age => c.header == "AGE"
    case HelmUpdated => plural in {"helm", "helmhistory"} && c.header == "UPDATED"
    case EventLastSeen => plural == "events" && c.header == "LAST-SEEN"
    case JobDuration => plural == "jobs" && c.header == "DURATION"
    case CronLastSchedule => plural == "cronjobs" && c.header == "LAST-SCHEDULE"
    case Reads(_) =>
      && c.header != "AGE"
      && !(plural in {"helm", "helmhistory"} && c.header == "UPDATED")
      && !(plural == "events" && c.header == "LAST-SEEN")
      && !(plural == "jobs" && c.header == "DURATION")
      && !(plural == "cronjobs" && c.header == "LAST-SCHEDULE")
  }

  predicate AllJoined(plural: string, table: seq<Column>) {
    forall c :: c in table ==> Joined(plural, c)
  }

  /** A table whose one clock column, if any, is AGE joins under every resource name. */
  predicate OnlyAge(table: seq<Column>) {
    forall i :: 0 <= i < |table| ==>
      if table[i].extract.Age? then table[i].header == "AGE"
      else table[i].extract.Reads? && table[i].header !in CLOCK_HEADERS
  }

  const CLOCK_HEADERS := {"AGE", "UPDATED", "LAST-SEEN", "DURATION", "LAST-SCHEDULE"}

  lemma OnlyAgeIsJoined(plural: string, table: seq<Column>)
    requires OnlyAge(table)
    ensures AllJoined(plural, table)
  {
    forall c | c in table ensures Joined(plural, c) {
      var i :| 0 <= i < |table| && table[i] == c;
    }
  }

  lemma WorkloadTables()
    ensures OnlyAge(POD_COLUMNS) && OnlyAge(DEPLOYMENT_COLUMNS) && OnlyAge(REPLICASET_COLUMNS)
    ensures OnlyAge(STATEFULSET_COLUMNS)
  {
  }

  lemma DaemonTables()
    ensures OnlyAge(DAEMONSET_COLUMNS) && OnlyAge(SERVICE_COLUMNS) && OnlyAge(NODE_COLUMNS)
    ensures OnlyAge(CSR_COLUMNS)
  {
  }

  lemma CoreTables()
    ensures OnlyAge(NAMESPACE_COLUMNS) && OnlyAge(CONFIGMAP_COLUMNS) && OnlyAge(SECRET_COLUMNS)
    ensures OnlyAge(HPA_COLUMNS) && OnlyAge(PVC_COLUMNS) && OnlyAge(PV_COLUMNS)
  {
  }

  lemma NetworkTables()
    ensures OnlyAge(INGRESS_COLUMNS) && OnlyAge(HTTPROUTE_COLUMNS) && OnlyAge(ENDPOINT_COLUMNS)
    ensures OnlyAge(CRD_COLUMNS)
  {
  }

  lemma FluxTables()
    ensures OnlyAge(FLUX_OBJECT_COLUMNS) && OnlyAge(FLUX_SOURCE_COLUMNS) && OnlyAge(FLUX_OPERATOR_COLUMNS)
    ensures OnlyAge(FLUX_INPUT_PROVIDER_COLUMNS)
  {
  }

  lemma ViewTables()
    ensures OnlyAge(DEFAULT_COLUMNS) && OnlyAge(WORKLOAD_COLUMNS) && OnlyAge(NS_RESOURCE_COLUMNS)
    ensures OnlyAge(ROLLOUT_HISTORY_COLUMNS) && OnlyAge(ARGOCD_APP_COLUMNS) && OnlyAge(ARGOCD_APPSET_COLUMNS)
  {
  }

  lemma JobTables()
    ensures AllJoined("jobs", JOB_COLUMNS)
  {
  }

  lemma CronJobTables()
    ensures AllJoined("cronjobs", CRONJOB_COLUMNS)
  {
  }

  lemma EventTables()
    ensures AllJoined("events", EVENT_COLUMNS)
  {
  }

  lemma HelmTables()
    ensures AllJoined("helm", HELM_COLUMNS) && AllJoined("helmhistory", HELM_HISTORY_COLUMNS)
  {
  }

  /** The two tables agree for every group and resource name, although the overrides never
      look at the group. */
  lemma TablesAgree(group: string, plural: string)
    ensures AllJoined(plural, ColumnsFor(group, plural))
  {
    WorkloadTables();
    DaemonTables();
    CoreTables();
    NetworkTables();
    FluxTables();
    ViewTables();
    JobTables();
    CronJobTables();
    EventTables();
    HelmTables();
    hide AllJoined, OnlyAge;
    if OnlyAge(ColumnsFor(group, plural)) { OnlyAgeIsJoined(plural, ColumnsFor(group, plural)); }
  }

  // ----- refreshing a cached row ------------------------------------------------------------------

  /** A column of a view: curated, a configured time column with what it shows when it has
      no time, or any other text. */
  datatype ViewColumn = Curated(column: Column) | UserTime(at: Option<int>, text: string) | Other(text: string)

  /** A fresh render of one cell (`cells`). */
  function Cell(render: Render, o: Object, c: ViewColumn, now: int): string {
    match c
    case Curated(column) => CuratedCell(render, o, column, now)
    case UserTime(at, text) => Since(at, text, now)
    case Other(text) => text
  }

  /** The override of one cell of a cached row (`volatile`). */
  function Volatile(o: Object, plural: string, c: ViewColumn, now: int): Option<string> {
    match c
    case Curated(column) => VolatileCell(o, plural, column.header, now)
    case UserTime(at, text) => Some(Since(at, text, now))
    case Other(_) => None
  }

  /** What decodes a Helm release, besides the extractor of its time. */
  const RELEASE_READERS := {"helm_status", "helm_chart", "helm_app_version", "helm_description"}

  predicate DecodesRelease(c: ViewColumn) {
    && c.Curated?
    && (c.column.extract.HelmUpdated? || (c.column.extract.Reads? && c.column.extract.name in RELEASE_READERS))
  }

  /** The release time that a render keeps beside its cells (`cells_with_helm_time`): known
      only if some cell had to decode the release. */
  function KeptTime(o: Object, columns: seq<ViewColumn>): Option<int> {
    if exists c :: c in columns && DecodesRelease(c) then o.deployed else None
  }

  /** The override of one cell over the release time kept with the row (`volatile_cached`),
      without decoding the release again. */
  function VolatileCached(o: Object, plural: string, c: ViewColumn, now: int, kept: Option<int>): Option<string> {
    if plural in {"helm", "helmhistory"} && c.Curated? && c.column.header == "UPDATED"
    then Some(Since(kept, "<unknown>", now))
    else Volatile(o, plural, c, now)
  }

  /** The release time kept by a row's own render serves every cell of the row as decoding
      the release again would, although not every render decodes one: a cell that needs the
      time has itself decoded it. */
  lemma KeptTimeServes(o: Object, group: string, plural: string, columns: seq<ViewColumn>, c: ViewColumn, now: int)
    requires c in columns && (c.Curated? ==> c.column in ColumnsFor(group, plural))
    ensures VolatileCached(o, plural, c, now, KeptTime(o, columns)) == Volatile(o, plural, c, now)
  {
    hide ColumnsFor, Elapsed;
    TablesAgree(group, plural);
    assert c.Curated? ==> Joined(plural, c.column);
  }

  function Row(render: Render, o: Object, columns: seq<ViewColumn>, now: int): (r: seq<string>)
    ensures |r| == |columns| && forall i :: 0 <= i < |r| ==> r[i] == Cell(render, o, columns[i], now)
  {
    seq(|columns|, i requires 0 <= i < |columns| => Cell(render, o, columns[i], now))
  }

  /** The one cell that goes stale: the running time of a job whose completion time is
      a string that is not a time, when the elapsed text has moved on. */
  predicate Stale(o: Object, c: ViewColumn, before: int, now: int) {
    && c.Curated? && c.column.extract.JobDuration?
    && o.completed.Unreadable? && o.started.At?
    && Elapsed(o.started.secs, before) != Elapsed(o.started.secs, now)
  }

  /** For every kind and every one of its columns: the refreshed cell, overridden or kept,
      is the fresh one exactly unless it is such a job's running time. */
  lemma CellIsFreshIff(render: Render, o: Object, group: string, plural: string, c: ViewColumn, before: int, now: int)
    requires c.Curated? ==> c.column in ColumnsFor(group, plural)
    ensures var override := Volatile(o, plural, c, now);
            (if override.Some? then override.value else Cell(render, o, c, before)) == Cell(render, o, c, now)
            <==> !Stale(o, c, before, now)
  {
    hide ColumnsFor, Elapsed;
    TablesAgree(group, plural);
    assert c.Curated? ==> Joined(plural, c.column);
  }

  /** Refreshing a cached row, with the release time its render kept, gives a fresh render at
      the new clock, cell by cell, exactly where no cell is such a job's running time. */
  method Refresh(ghost render: Render, o: Object, ghost group: string, plural: string, columns: seq<ViewColumn>,
                 cached: seq<string>, kept: Option<int>, ghost before: int, now: int)
    returns (row: seq<string>)
    requires forall c :: c in columns && c.Curated? ==> c.column in ColumnsFor(group, plural)
    requires cached == Row(render, o, columns, before) && kept == KeptTime(o, columns)
    ensures |row| == |columns|
    ensures forall i :: 0 <= i < |row| ==>
              (row[i] == Row(render, o, columns, now)[i] <==> !Stale(o, columns[i], before, now))
  {
    hide Cell, Volatile, VolatileCached, KeptTime, Stale, ColumnsFor;
    row := [];
    for i := 0 to |columns|
      invariant |row| == i
      invariant forall j :: 0 <= j < i ==>
                  (row[j] == Cell(render, o, columns[j], now) <==> !Stale(o, columns[j], before, now))
    {
      CellIsFreshIff(render, o, group, plural, columns[i], before, now);
      KeptTimeServes(o, group, plural, columns, columns[i], now);
      var override := VolatileCached(o, plural, columns[i], now, kept);
      row := row + [if override.Some? then override.value else cached[i]];
    }
  }

  /** A job that started at 0 and has an unreadable completion time, cached at 45 seconds
      and refreshed at 90: the cell still says 45s. */
  lemma StaleJob(render: Render)
    ensures var o := Object(None, At(0), Unreadable("soon"), Missing, None, None, "");
            var c := Curated(Column("DURATION", JobDuration));
            && c.column in ColumnsFor("batch", "jobs")
            && Volatile(o, "jobs", c, 90) == None
            && Cell(render, o, c, 45) == "45s" && Cell(render, o, c, 90) == "1m"
  {
    assert JOB_COLUMNS[3] == Column("DURATION", JobDuration);
    assert Durations.Humanize(45) == "45s" && Durations.Humanize(90) == "1m" by {
      assert Digits(4) == "4" && Digits(45) == "45" && Digits(1) == "1";
    }
    hide Durations.Humanize;
  }

  /** What the columns that read the clock show: the time since the moment they measure from,
      never negative, or a text of their own when there is no such moment; a finished job shows
      how long it ran. */
  lemma ClockCells(render: Render, o: Object, header: string, now: int)
    ensures var ago := (t: int) => Durations.Humanize(if t < now then now - t else 0);
      && CuratedCell(render, o, Column(header, Age), now)
         == (if o.created.Some? then ago(o.created.value) else "<unknown>")
      && CuratedCell(render, o, Column(header, HelmUpdated), now)
         == (if o.deployed.Some? then ago(o.deployed.value) else "<unknown>")
      && CuratedCell(render, o, Column(header, EventLastSeen), now)
         == (if o.seen.Some? then ago(o.seen.value) else "<unknown>")
      && CuratedCell(render, o, Column(header, CronLastSchedule), now)
         == (if o.scheduled.At? then ago(o.scheduled.secs) else "<none>")
      && (o.started.At? && o.completed.At? && o.started.secs <= o.completed.secs ==>
            CuratedCell(render, o, Column(header, JobDuration), now)
            == Durations.Humanize(o.completed.secs - o.started.secs))
      && (o.started.At? && !o.completed.At? ==>
            CuratedCell(render, o, Column(header, JobDuration), now) == ago(o.started.secs))
      && (!o.started.At? ==> CuratedCell(render, o, Column(header, JobDuration), now) == "<none>")
  {
    hide Durations.Humanize;
  }

  /** What a configured column shows: a time as the time since it, never negative, or the
      column's own text without one; and anything else as it is. */
  lemma ConfiguredCells(render: Render, o: Object, at: Option<int>, text: string, now: int)
    ensures Cell(render, o, UserTime(at, text), now)
         == if at.None? then text
            else Durations.Humanize(if at.value < now then now - at.value else 0)
    ensures Cell(render, o, Other(text), now) == text
  {
    hide Durations.Humanize;
  }

  /** The age of an object reads back as the time since its creation, short of the last unit
      that is shown. */
  lemma AgeReadsBack(render: Render, o: Object, header: string, now: int)
    requires o.created.Some? && 0 <= now - o.created.value <= Durations.I64_MAX
    ensures var age := now - o.created.value;
            var read := Durations.Parsed(CuratedCell(render, o, Column(header, Age), now));
            read.Some? && 0 <= age - read.value
            < if age < 86_400 then 60 else if age < 7 * 86_400 then 3600 else 86_400
  {
    hide Durations.Parsed, Durations.Humanize;
    Durations.HumanizeRoundTrip(now - o.created.value);
  }

  // ----- CPU amounts -----------------------------------------------------------------------------

  function FmtCpu(milli: int): string {
    if milli <= 0 then "-"
    else if milli < 1000 then Digits(milli) + "m"
    else
      var whole, hundredths := milli / 1000, (milli % 1000 + 5) / 10;
      var (w, h) := if hundredths == 100 then (whole + 1, 0) else (whole, hundredths);
      if h == 0 then Digits(w)
      else if h % 10 == 0 then Digits(w) + "." + Digits(h / 10)
      else Digits(w) + "." + Padded(h)
  }

  /** At least two digits. */
  function Padded(h: nat): string { if h < 10 then "0" + Digits(h) else Digits(h) }

  function Dot(s: string): (i: nat)
    ensures i <= |s|
  {
    if s == "" || s[0] == '.' then 0 else 1 + Dot(s[1..])
  }

  /** Cores in hundredths from a decimal with at most two places. */
  function ReadCores(s: string): Option<nat> {
    var w, f := Decimal(s[..Dot(s)]), if Dot(s) < |s| then s[Dot(s) + 1..] else "";
    var h := Decimal(f);
    if w.None? || h.None? || |f| > 2 then None
    else Some(100 * w.value + if |f| == 1 then 10 * h.value else h.value)
  }

  lemma {:induction false} DotAfterDigits(d: string, more: string)
    requires AllDigits(d) && (more == "" || more[0] == '.')
    ensures Dot(d + more) == |d|
  {
    if d == "" {
      assert d + more == more;
    } else {
      assert d[0] in d && (d + more)[1..] == d[1..] + more;
      DotAfterDigits(d[1..], more);
    }
  }

  lemma ReadWhole(w: nat)
    ensures ReadCores(Digits(w)) == Some(100 * w)
  {
    hide Digits, Dot, AllDigits;
    DecimalOfDigits(w);
    DotAfterDigits(Digits(w), "");
    assert Digits(w) + "" == Digits(w);
    assert Digits(w)[..|Digits(w)|] == Digits(w);
  }

  lemma ReadFraction(w: nat, f: string, h: nat)
    requires 1 <= |f| <= 2 && Decimal(f) == Some(h)
    ensures ReadCores(Digits(w) + "." + f) == Some(100 * w + if |f| == 1 then 10 * h else h)
  {
    hide Digits, Dot, AllDigits, Decimal;
    DecimalOfDigits(w);
    var s := Digits(w) + "." + f;
    assert s == Digits(w) + ("." + f);
    DotAfterDigits(Digits(w), "." + f);
    assert s[..|Digits(w)|] == Digits(w) && s[|Digits(w)| + 1..] == f;
  }

  lemma ShortDigits(h: nat)
    requires h < 100
    ensures |Digits(h)| == if h < 10 then 1 else 2
    ensures |Padded(h)| == 2 && Decimal(Padded(h)) == Some(h)
  {
    DecimalOfDigits(h);
    assert h >= 10 ==> |Digits(h / 10)| == 1;
    if h < 10 {
      var s := "0" + Digits(h);
      assert s[..1] == "0" && s[1] == Digits(h)[0];
      assert "0"[..0] == "";
      assert Decimal("0") == Some(0);
    }
  }

  /** Thousandths of a core: a whole number of them with an `m`, or cores. */
  function ReadMilli(s: string): Option<nat> {
    if s != "" && s[|s| - 1] == 'm' then Decimal(s[..|s| - 1])
    else
      var cores := ReadCores(s);
      if cores.Some? then Some(10 * cores.value) else None
  }

  /** Every positive amount reads back: below one core as it is, from one core up rounded half
      up to hundredths of a core, carry included. Anything else shows as a dash. */
  lemma CpuReadsBackRounded(milli: int)
    ensures milli <= 0 ==> FmtCpu(milli) == "-"
    ensures 0 < milli < 1000 ==> ReadMilli(FmtCpu(milli)) == Some(milli)
    ensures milli >= 1000 ==>
              ReadCores(FmtCpu(milli)) == Some((milli + 5) / 10)
              && ReadMilli(FmtCpu(milli)) == Some((milli + 5) / 10 * 10)
  {
    hide ReadCores, Digits, Decimal, FmtCpu;
    if milli >= 1000 {
      CoresReadBack(milli);
      var text := FmtCpu(milli);
      if text != "" && text[|text| - 1] == 'm' { UnitIsNoCores(text); }
    } else if milli > 0 {
      MilliText(milli);
      DecimalOfDigits(milli);
      assert (Digits(milli) + "m")[..|Digits(milli)|] == Digits(milli);
    } else {
      DashText(milli);
    }
  }

  lemma MilliText(milli: int)
    requires 0 < milli < 1000
    ensures FmtCpu(milli) == Digits(milli) + "m"
  {
  }

  lemma DashText(milli: int)
    requires milli <= 0
    ensures FmtCpu(milli) == "-"
  {
  }

  lemma {:induction false} DotIsDot(s: string)
    ensures Dot(s) < |s| ==> s[Dot(s)] == '.'
  {
    if s != "" && s[0] != '.' { DotIsDot(s[1..]); }
  }

  /** What ends in `m` does not read as cores. */
  lemma UnitIsNoCores(s: string)
    requires s != "" && s[|s| - 1] == 'm'
    ensures ReadCores(s) == None
  {
    DotIsDot(s);
    var n := Dot(s);
    var part := if n < |s| then s[n + 1..] else s[..n];
    assert part[|part| - 1] == 'm' && part[|part| - 1] in part;
    assert !AllDigits(part);
  }

  lemma CoresReadBack(milli: nat)
    requires milli >= 1000
    ensures ReadCores(FmtCpu(milli)) == Some((milli + 5) / 10)
  {
    hide ReadCores, Digits, Padded, Decimal;
    var hundredths := (milli + 5) / 10;
    var w, h := hundredths / 100, hundredths % 100;
    CarryIsDivision(milli);
    if h == 0 {
      ReadWhole(w);
    } else if h % 10 == 0 {
      ShortDigits(h / 10);
      DecimalOfDigits(h / 10);
      ReadFraction(w, Digits(h / 10), h / 10);
    } else {
      ShortDigits(h);
      ReadFraction(w, Padded(h), h);
    }
  }

  lemma CarryIsDivision(milli: nat)
    ensures var whole, hundredths := milli / 1000, (milli % 1000 + 5) / 10;
            var (w, h) := if hundredths == 100 then (whole + 1, 0) else (whole, hundredths);
            w == (milli + 5) / 10 / 100 && h == (milli + 5) / 10 % 100
  {
  }
}
