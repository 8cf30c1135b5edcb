/** The status bubble of a status page: per (monitor, probe) pair the latest
    status the probe reported, and the classification of the whole grid into
    all online, some offline, all offline or some degraded. */
module StatusPageStatus {
  import opened Wrappers

  /** One status record; "" stands for a record without a status. */
  datatype StatusRecord = StatusRecord(status: string)

  /** The statuses of one monitor as one probe saw them; `probeId` is None
      for entries not tied to a probe (an `_id` of null). */
  datatype ProbeStatusEntry = ProbeStatusEntry(probeId: Option<string>, statuses: seq<StatusRecord>)

  datatype Probe = Probe(id: string)

  /** The four values getServiceStatus returns. */
  datatype Bubble = AllOnline | SomeOffline | AllOffline | SomeDegraded

  const Online: string := "online"
  const Offline: string := "offline"
  const Degraded: string := "degraded"

  /** How getServiceStatus counts a pair's status: "offline", "degraded", or
      anything else (which leaves the pair online). */
  datatype Health = Down | Impaired | Up

  function HealthOf(status: string): (h: Health)
    ensures h == Down <==> status == Offline
    ensures h == Impaired <==> status == Degraded
  {
    if status == Offline then Down else if status == Degraded then Impaired else Up
  }

  /** The filter of filterProbeData: with a probe, entries without a probe id
      or with that probe's id; without one, every entry. */
  predicate Keeps(e: ProbeStatusEntry, probe: Option<Probe>)
  {
    probe.None? || e.probeId.None? || e.probeId == Some(probe.value.id)
  }

  /** The surviving entries, in order. */
  function KeptEntries(monitor: seq<ProbeStatusEntry>, probe: Option<Probe>): seq<ProbeStatusEntry>
  {
    if |monitor| == 0 then []
    else
      var rest := KeptEntries(monitor[1..], probe);
      if Keeps(monitor[0], probe) then [monitor[0]] + rest else rest
  }

  /** Only entries the filter keeps survive; none survives exactly when the
      filter keeps none; and the first survivor is the first entry kept. */
  lemma {:induction false} KeptEntriesMeaning(monitor: seq<ProbeStatusEntry>, probe: Option<Probe>)
    ensures forall e :: e in KeptEntries(monitor, probe) ==> e in monitor && Keeps(e, probe)
    ensures |KeptEntries(monitor, probe)| == 0 <==> forall i :: 0 <= i < |monitor| ==> !Keeps(monitor[i], probe)
    ensures |KeptEntries(monitor, probe)| > 0 ==>
      exists i :: 0 <= i < |monitor| && KeptEntries(monitor, probe)[0] == monitor[i]
        && forall j :: 0 <= j < i ==> !Keeps(monitor[j], probe)
  {
    if |monitor| > 0 {
      var rest := KeptEntries(monitor[1..], probe);
      KeptEntriesMeaning(monitor[1..], probe);
      assert forall i :: 1 <= i < |monitor| ==> monitor[i] == monitor[1..][i - 1];
      if !Keeps(monitor[0], probe) && |rest| > 0 {
        var i :| 0 <= i < |monitor[1..]| && rest[0] == monitor[1..][i]
          && forall j :: 0 <= j < i ==> !Keeps(monitor[1..][j], probe);
        assert rest[0] == monitor[i + 1];
      }
    }
  }

  /** filterProbeData: the statuses of the first surviving entry, or none. */
  function FilterProbeData(monitor: seq<ProbeStatusEntry>, probe: Option<Probe>): seq<StatusRecord>
  {
    var kept := KeptEntries(monitor, probe);
    if |kept| > 0 then kept[0].statuses else []
  }

  /** filterProbeData yields no status when the filter keeps no entry, and
      otherwise the statuses of the first entry it keeps. */
  lemma FilterProbeDataMeaning(monitor: seq<ProbeStatusEntry>, probe: Option<Probe>)
    ensures (forall i :: 0 <= i < |monitor| ==> !Keeps(monitor[i], probe)) ==> FilterProbeData(monitor, probe) == []
    ensures (exists i :: 0 <= i < |monitor| && Keeps(monitor[i], probe)) ==>
      exists i :: 0 <= i < |monitor| && Keeps(monitor[i], probe) && FilterProbeData(monitor, probe) == monitor[i].statuses
        && forall j :: 0 <= j < i ==> !Keeps(monitor[j], probe)
  {
    var kept := KeptEntries(monitor, probe);
    KeptEntriesMeaning(monitor, probe);
    if |kept| > 0 {
      assert kept[0] in kept;
    }
  }

  /** The status a pair counts as: the first status, or online when there is
      none or it is empty. */
  function PairStatus(statuses: seq<StatusRecord>): string
  {
    if |statuses| > 0 && statuses[0].status != "" then statuses[0].status else Online
  }

  /** A pair counts as offline exactly when its first status is "offline",
      and a pair with no status or an empty first status counts as online. */
  lemma PairStatusMeaning(statuses: seq<StatusRecord>)
    ensures PairStatus(statuses) == Offline <==> |statuses| > 0 && statuses[0].status == Offline
    ensures PairStatus(statuses) == Degraded <==> |statuses| > 0 && statuses[0].status == Degraded
    ensures |statuses| == 0 || statuses[0].status == "" ==> PairStatus(statuses) == Online
  {
  }

  /** The status of monitor `m` as probe `p` reports it. */
  function Status(m: seq<ProbeStatusEntry>, p: Probe): string
  {
    PairStatus(FilterProbeData(m, Some(p)))
  }

  /** The statuses of monitor `m` as each probe reports it, in probe order. */
  function RowStatuses(m: seq<ProbeStatusEntry>, probes: seq<Probe>): (row: seq<Health>)
    ensures |row| == |probes|
    ensures forall j :: 0 <= j < |probes| ==> row[j] == HealthOf(Status(m, probes[j]))
  {
    seq(|probes|, j requires 0 <= j < |probes| => HealthOf(Status(m, probes[j])))
  }

  /** How many entries of `row` are `s`. */
  function Count(row: seq<Health>, s: Health): (n: nat)
    ensures n <= |row|
  {
    if |row| == 0 then 0
    else Count(row[..|row| - 1], s) + (if row[|row| - 1] == s then 1 else 0)
  }

  /** The status of every (monitor, probe) pair, one row per monitor. */
  function Grid(monitors: seq<seq<ProbeStatusEntry>>, probes: seq<Probe>): (grid: seq<seq<Health>>)
    ensures |grid| == |monitors|
    ensures forall i :: 0 <= i < |monitors| ==> grid[i] == RowStatuses(monitors[i], probes)
  {
    seq(|monitors|, i requires 0 <= i < |monitors| => RowStatuses(monitors[i], probes))
  }

  /** How many cells of the grid are `s`. */
  function CountGrid(grid: seq<seq<Health>>, s: Health): nat
  {
    if |grid| == 0 then 0
    else CountGrid(grid[..|grid| - 1], s) + Count(grid[|grid| - 1], s)
  }

  /** No cell is `s`. */
  predicate NoCell(grid: seq<seq<Health>>, s: Health)
  {
    forall i, j :: 0 <= i < |grid| && 0 <= j < |grid[i]| ==> grid[i][j] != s
  }

  /** Every cell is `s`. */
  predicate EveryCell(grid: seq<seq<Health>>, s: Health)
  {
    forall i, j :: 0 <= i < |grid| && 0 <= j < |grid[i]| ==> grid[i][j] == s
  }

  /** Every row has `width` cells. */
  predicate Rectangular(grid: seq<seq<Health>>, width: nat)
  {
    forall i :: 0 <= i < |grid| ==> |grid[i]| == width
  }

  /** Counting one more entry of a row. */
  lemma CountStep(row: seq<Health>, j: nat, s: Health)
    requires j < |row|
    ensures Count(row[..j + 1], s) == Count(row[..j], s) + (if row[j] == s then 1 else 0)
  {
    assert row[..j + 1][..j] == row[..j];
  }

  /** Counting one more row of a grid. */
  lemma CountGridStep(grid: seq<seq<Health>>, i: nat, s: Health)
    requires i < |grid|
    ensures CountGrid(grid[..i + 1], s) == CountGrid(grid[..i], s) + Count(grid[i], s)
  {
    assert grid[..i + 1][..i] == grid[..i];
    assert grid[..i + 1][i] == grid[i];
  }

  lemma {:induction false} CountZero(row: seq<Health>, s: Health)
    ensures Count(row, s) == 0 <==> forall j :: 0 <= j < |row| ==> row[j] != s
  {
    if |row| > 0 {
      var init := row[..|row| - 1];
      CountZero(init, s);
      assert forall j :: 0 <= j < |init| ==> init[j] == row[j];
    }
  }

  lemma {:induction false} CountFull(row: seq<Health>, s: Health)
    ensures Count(row, s) == |row| <==> forall j :: 0 <= j < |row| ==> row[j] == s
  {
    if |row| > 0 {
      var init := row[..|row| - 1];
      CountFull(init, s);
      assert forall j :: 0 <= j < |init| ==> init[j] == row[j];
    }
  }

  /** One more row of `width` cells. */
  lemma CellsStep(rows: nat, width: nat)
    ensures (rows + 1) * width == rows * width + width
  {
  }

  lemma {:induction false} CountGridBound(grid: seq<seq<Health>>, width: nat, s: Health)
    requires Rectangular(grid, width)
    ensures CountGrid(grid, s) <= |grid| * width
  {
    if |grid| > 0 {
      var init := grid[..|grid| - 1];
      assert Rectangular(init, width);
      CountGridBound(init, width, s);
      CellsStep(|init|, width);
    }
  }

  /** The grid count is zero exactly when no cell has the status. */
  lemma {:induction false} CountGridZero(grid: seq<seq<Health>>, s: Health)
    ensures CountGrid(grid, s) == 0 <==> NoCell(grid, s)
  {
    if |grid| > 0 {
      var init := grid[..|grid| - 1];
      CountGridZero(init, s);
      CountZero(grid[|grid| - 1], s);
      assert forall i :: 0 <= i < |init| ==> init[i] == grid[i];
    }
  }

  /** The grid count is the number of cells exactly when every cell has the status. */
  lemma {:induction false} CountGridFull(grid: seq<seq<Health>>, width: nat, s: Health)
    requires Rectangular(grid, width)
    ensures CountGrid(grid, s) == |grid| * width <==> EveryCell(grid, s)
  {
    if |grid| > 0 {
      var init := grid[..|grid| - 1];
      var last := grid[|grid| - 1];
      assert Rectangular(init, width);
      CountGridFull(init, width, s);
      CountGridBound(init, width, s);
      CountFull(last, s);
      CellsStep(|init|, width);
      assert CountGrid(grid, s) == CountGrid(init, s) + Count(last, s);
      assert CountGrid(grid, s) == |grid| * width <==> CountGrid(init, s) == |init| * width && Count(last, s) == width;
      assert EveryCell(grid, s) <==> EveryCell(init, s) && forall j :: 0 <= j < |last| ==> last[j] == s by {
        assert forall i :: 0 <= i < |init| ==> init[i] == grid[i];
      }
    }
  }

  /** The decision at the end of getServiceStatus, from the number of pairs,
      the offline pairs and the degraded pairs. */
  function Classify(total: int, offline: int, degraded: int): Bubble
  {
    if offline == 0 then (if degraded != 0 then SomeDegraded else AllOnline)
    else if offline == total then AllOffline
    else SomeOffline
  }

  /** The inner loop of getServiceStatus over one monitor: each probe's
      offline report takes one from the online count and each degraded
      report adds one to the degraded count. */
  method VisitMonitor(monitor: seq<ProbeStatusEntry>, probes: seq<Probe>, onlineBefore: int, degradedBefore: int)
    returns (onlineServices: int, degraded: int)
    ensures onlineBefore - onlineServices == Count(RowStatuses(monitor, probes), Down)
    ensures degraded - degradedBefore == Count(RowStatuses(monitor, probes), Impaired)
  {
    ghost var row := RowStatuses(monitor, probes);
    onlineServices, degraded := onlineBefore, degradedBefore;
    var j := 0;
    while j < |probes|
      invariant 0 <= j <= |probes|
      invariant onlineBefore - onlineServices == Count(row[..j], Down)
      invariant degraded - degradedBefore == Count(row[..j], Impaired)
    {
      CountStep(row, j, Down);
      CountStep(row, j, Impaired);
      var monitorStatus := Status(monitor, probes[j]);
      if monitorStatus == Offline {
        onlineServices := onlineServices - 1;
      }
      if monitorStatus == Degraded {
        degraded := degraded + 1;
      }
      j := j + 1;
    }
    assert row[..j] == row;
  }

  /** getServiceStatus: every pair is visited once, the offline pairs
      counted down from the number of pairs and the degraded pairs counted
      up; the bubble is the classification of those counts. */
  method GetServiceStatus(monitorsData: seq<seq<ProbeStatusEntry>>, probes: seq<Probe>)
    returns (bubble: Bubble)
    ensures var grid := Grid(monitorsData, probes);
      bubble == Classify(|monitorsData| * |probes|, CountGrid(grid, Down), CountGrid(grid, Impaired))
  {
    ghost var grid := Grid(monitorsData, probes);
    var totalServices := |monitorsData| * |probes|;
    var onlineServices := totalServices;
    var degraded := 0;
    var i := 0;
    while i < |monitorsData|
      invariant 0 <= i <= |monitorsData|
      invariant totalServices - onlineServices == CountGrid(grid[..i], Down)
      invariant degraded == CountGrid(grid[..i], Impaired)
    {
      onlineServices, degraded := VisitMonitor(monitorsData[i], probes, onlineServices, degraded);
      CountGridStep(grid, i, Down);
      CountGridStep(grid, i, Impaired);
      i := i + 1;
    }
    assert grid[..i] == grid;
    GridBound(monitorsData, probes);
    if onlineServices == totalServices {
      if degraded != 0 {
        bubble := SomeDegraded;
      } else {
        bubble := AllOnline;
      }
    } else if onlineServices == 0 {
      bubble := AllOffline;
    } else {
      assert onlineServices < totalServices;
      bubble := SomeOffline;
    }
  }

  lemma GridBound(monitorsData: seq<seq<ProbeStatusEntry>>, probes: seq<Probe>)
    ensures CountGrid(Grid(monitorsData, probes), Down) <= |monitorsData| * |probes|
  {
    var grid := Grid(monitorsData, probes);
    assert Rectangular(grid, |probes|);
    CountGridBound(grid, |probes|, Down);
  }

  /** What each bubble means for a grid of `width` columns. */
  lemma ClassifyGrid(grid: seq<seq<Health>>, width: nat)
    requires Rectangular(grid, width)
    ensures var bubble := Classify(|grid| * width, CountGrid(grid, Down), CountGrid(grid, Impaired));
      && (bubble == AllOnline <==> NoCell(grid, Down) && NoCell(grid, Impaired))
      && (bubble == SomeDegraded <==> NoCell(grid, Down) && !NoCell(grid, Impaired))
      && (bubble == AllOffline <==> |grid| * width > 0 && EveryCell(grid, Down))
      && (bubble == SomeOffline <==> !NoCell(grid, Down) && !EveryCell(grid, Down))
  {
    CountGridBound(grid, width, Down);
    CountGridZero(grid, Down);
    CountGridZero(grid, Impaired);
    CountGridFull(grid, width, Down);
  }

  /** What getServiceStatus's bubble means: "all" when no pair is offline or
      degraded, "some-degraded" when none is offline and some is degraded,
      "none" when there are pairs and all are offline, and "some" when some but
      not all are offline; with no monitor the bubble is "all". */
  lemma ServiceStatusMeaning(monitorsData: seq<seq<ProbeStatusEntry>>, probes: seq<Probe>)
    ensures var grid := Grid(monitorsData, probes);
      var bubble := Classify(|monitorsData| * |probes|, CountGrid(grid, Down), CountGrid(grid, Impaired));
      && (bubble == AllOnline <==> NoCell(grid, Down) && NoCell(grid, Impaired))
      && (bubble == SomeDegraded <==> NoCell(grid, Down) && !NoCell(grid, Impaired))
      && (bubble == AllOffline <==> |monitorsData| * |probes| > 0 && EveryCell(grid, Down))
      && (bubble == SomeOffline <==> !NoCell(grid, Down) && !EveryCell(grid, Down))
      && (|monitorsData| == 0 ==> bubble == AllOnline)
  {
    var grid := Grid(monitorsData, probes);
    assert Rectangular(grid, |probes|);
    ClassifyGrid(grid, |probes|);
  }

  /** The grid holds, for each monitor and probe, the status that probe
      reports for that monitor. */
  lemma GridCell(monitors: seq<seq<ProbeStatusEntry>>, probes: seq<Probe>, i: nat, j: nat)
    requires i < |monitors| && j < |probes|
    ensures Grid(monitors, probes)[i][j] == HealthOf(Status(monitors[i], probes[j]))
  {
  }

  /** The message getStatusBubble shows for each bubble. */
  function StatusMessage(bubble: Bubble): string
  {
    match bubble
    case AllOnline => "All services are online"
    case SomeOffline => "Some services are offline"
    case AllOffline => "All services are offline"
    case SomeDegraded => "Some services are degraded"
  }

  /** Each bubble has its own message. */
  lemma StatusMessageDistinct(a: Bubble, b: Bubble)
    ensures StatusMessage(a) == StatusMessage(b) ==> a == b
  {
    if StatusMessage(a) == StatusMessage(b) {
      assert StatusMessage(a)[0] == StatusMessage(b)[0];
      assert StatusMessage(a)[4] == StatusMessage(b)[4];
      assert StatusMessage(a)[|StatusMessage(a)| - 3] == StatusMessage(b)[|StatusMessage(b)| - 3];
    }
  }

  /** getStatusBubble once the statuses of the first page's monitors are in
      hand: the bubble and its message. */
  method GetStatusBubble(statuses: seq<seq<ProbeStatusEntry>>, probes: seq<Probe>)
    returns (bubble: Bubble, statusMessage: string)
    ensures bubble == Classify(|statuses| * |probes|, CountGrid(Grid(statuses, probes), Down),
                               CountGrid(Grid(statuses, probes), Impaired))
    ensures statusMessage == StatusMessage(bubble)
  {
    bubble := GetServiceStatus(statuses, probes);
    statusMessage := StatusMessage(bubble);
  }
}
