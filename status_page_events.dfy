/** The scheduled events a status page lists: the events of the monitors of
    the first page that has monitors, merged so that each event appears once,
    and, for future events, sorted by start date and cut to the requested
    page. The event query per monitor is a parameter; the concurrent fan-out
    over monitors is taken in monitor order. */
module StatusPageEvents {
  import opened Wrappers
  import opened JsBuiltins
  import opened StatusPageModel

  // ---------------------------------------------------------------------------
  // limitEvents

  /** limitEvents: the slice from skip * limit to limit, or to 2 * limit once
      the start is not zero; always a run of consecutive events of the
      list. */
  function LimitEvents(events: seq<Event>, limit: int, skip: int): (r: seq<Event>)
    ensures exists from, to :: 0 <= from <= to <= |events| && r == events[from..to]
  {
    var start := skip * limit;
    var end := if start != 0 then limit + limit else limit;
    var from, to := RelativeIndex(start, |events|), RelativeIndex(end, |events|);
    assert Slice(events, start, end) == if to <= from then events[from..from] else events[from..to];
    Slice(events, start, end)
  }

  function Min(a: int, b: int): int { if a <= b then a else b }

  /** The first page is the prefix of `limit` events. */
  lemma LimitEventsFirstPage(events: seq<Event>, limit: int)
    requires limit >= 0
    ensures LimitEvents(events, limit, 0) == events[..Min(limit, |events|)]
  {
  }

  /** The second page is the next `limit` events. */
  lemma LimitEventsSecondPage(events: seq<Event>, limit: int)
    requires limit > 0
    ensures LimitEvents(events, limit, 1) == events[Min(limit, |events|)..Min(2 * limit, |events|)]
  {
  }

  /** Every later page is empty. */
  lemma LimitEventsLaterPages(events: seq<Event>, limit: int, skip: int)
    requires limit > 0 && skip >= 2
    ensures LimitEvents(events, limit, skip) == []
  {
    assert skip * limit >= 2 * limit;
  }

  /** A page never holds more than `limit` events. */
  lemma LimitEventsBound(events: seq<Event>, limit: int, skip: int)
    requires limit >= 0 && skip >= 0
    ensures |LimitEvents(events, limit, skip)| <= limit
  {
    if skip >= 1 && limit > 0 {
      assert skip * limit >= limit;
    }
  }

  // ---------------------------------------------------------------------------
  // Merging the events of several monitors

  /** flattenArray: the lists one after the other. */
  function Flatten(lists: seq<seq<Event>>): seq<Event>
  {
    if |lists| == 0 then [] else Flatten(lists[..|lists| - 1]) + lists[|lists| - 1]
  }

  /** Some event of `s` has the id. */
  ghost predicate HasId(s: seq<Event>, id: string)
  {
    exists k :: 0 <= k < |s| && s[k].id == id
  }

  /** The event ids in the order they are first seen in `s`: what the pushes
      into eventIds leave behind. */
  function SeenIds(s: seq<Event>): seq<string>
  {
    if |s| == 0 then []
    else
      var before := SeenIds(s[..|s| - 1]);
      if s[|s| - 1].id in before then before else before + [s[|s| - 1].id]
  }

  /** Array.prototype.find on the id: the first event with that id. */
  function FindById(s: seq<Event>, id: string): (r: Option<Event>)
    ensures r.None? ==> forall k :: 0 <= k < |s| ==> s[k].id != id
    ensures r.Some? ==> exists k :: FirstAt(s, id, k) && s[k] == r.value
  {
    if |s| == 0 then None
    else if s[0].id == id then Some(s[0])
    else
      var r := FindById(s[1..], id);
      assert forall k :: 1 <= k < |s| ==> s[k] == s[1..][k - 1];
      r
  }

  /** The index of the first event with the id. */
  ghost predicate FirstAt(s: seq<Event>, id: string, k: int)
  {
    0 <= k < |s| && s[k].id == id && forall k' :: 0 <= k' < k ==> s[k'].id != id
  }

  /** No id is seen twice, and an id is seen exactly when some event has it. */
  lemma {:induction false} SeenIdsDistinctAndComplete(s: seq<Event>)
    ensures forall a, b :: 0 <= a < b < |SeenIds(s)| ==> SeenIds(s)[a] != SeenIds(s)[b]
    ensures forall id :: id in SeenIds(s) <==> HasId(s, id)
  {
    if |s| > 0 {
      var init := s[..|s| - 1];
      SeenIdsDistinctAndComplete(init);
      assert forall k :: 0 <= k < |init| ==> init[k] == s[k];
      forall id | HasId(s, id)
        ensures id in SeenIds(s)
      {
        var k :| 0 <= k < |s| && s[k].id == id;
        if k < |init| {
          assert HasId(init, id);
        }
      }
    }
  }

  /** The seen ids come in the order of their first occurrence. */
  lemma {:induction false} SeenIdsOrder(s: seq<Event>, a: int, b: int, ka: int, kb: int)
    requires 0 <= a < b < |SeenIds(s)|
    requires FirstAt(s, SeenIds(s)[a], ka) && FirstAt(s, SeenIds(s)[b], kb)
    ensures ka < kb
  {
    var init := s[..|s| - 1];
    var ids := SeenIds(s);
    SeenIdsDistinctAndComplete(init);
    if b < |SeenIds(init)| {
      assert SeenIds(init)[a] == ids[a] && SeenIds(init)[b] == ids[b];
      assert HasId(init, ids[a]) && HasId(init, ids[b]);
      var ja :| 0 <= ja < |init| && init[ja].id == ids[a];
      var jb :| 0 <= jb < |init| && init[jb].id == ids[b];
      assert FirstAt(init, ids[a], ka) by {
        assert ka <= ja;
      }
      assert FirstAt(init, ids[b], kb) by {
        assert kb <= jb;
      }
      SeenIdsOrder(init, a, b, ka, kb);
    } else {
      // ids[b] is the id of the last event, first seen there
      assert ids[b] == s[|s| - 1].id && ids[b] !in SeenIds(init);
      assert !HasId(init, ids[b]);
      assert kb == |s| - 1;
      assert SeenIds(init)[a] == ids[a];
      assert HasId(init, ids[a]);
      var ja :| 0 <= ja < |init| && init[ja].id == ids[a];
      assert ka <= ja;
    }
  }

  /** The inner loop of the merge: the ids of one monitor's events are
      pushed in order, each unless already collected. */
  method CollectIds(ghost before: seq<Event>, collected: seq<string>, scheduledEvents: seq<Event>)
    returns (eventIds: seq<string>)
    requires collected == SeenIds(before)
    ensures eventIds == SeenIds(before + scheduledEvents)
  {
    eventIds := collected;
    var k := 0;
    assert before + scheduledEvents[..0] == before;
    while k < |scheduledEvents|
      invariant 0 <= k <= |scheduledEvents|
      invariant eventIds == SeenIds(before + scheduledEvents[..k])
    {
      var id := scheduledEvents[k].id;
      ghost var seen := before + scheduledEvents[..k];
      assert (seen + [scheduledEvents[k]])[..|seen|] == seen;
      assert before + scheduledEvents[..k + 1] == seen + [scheduledEvents[k]];
      if id !in eventIds {
        eventIds := eventIds + [id];
      }
      k := k + 1;
    }
    assert scheduledEvents[..k] == scheduledEvents;
  }

  /** The merge in getEvents and getFutureEvents: event ids are collected as
      each monitor's events arrive, skipping ids already collected; the lists
      are flattened; and each collected id is replaced by the first event of
      the flattened list with that id. Each id of the monitors' events appears
      exactly once, as its first event, in the order ids are first seen. */
  method MergeEvents(perMonitor: seq<seq<Event>>) returns (events: seq<Event>)
    ensures events == MergedEvents(perMonitor)
    ensures |events| == |SeenIds(Flatten(perMonitor))|
    ensures forall t :: 0 <= t < |events| ==> events[t].id == SeenIds(Flatten(perMonitor))[t]
    ensures forall t :: 0 <= t < |events| ==> FirstAt(Flatten(perMonitor), events[t].id, IndexOfEvent(Flatten(perMonitor), events[t]))
  {
    var eventIds: seq<string> := [];
    var m := 0;
    while m < |perMonitor|
      invariant 0 <= m <= |perMonitor|
      invariant eventIds == SeenIds(Flatten(perMonitor[..m]))
    {
      eventIds := CollectIds(Flatten(perMonitor[..m]), eventIds, perMonitor[m]);
      assert perMonitor[..m + 1][..m] == perMonitor[..m];
      m := m + 1;
    }
    assert perMonitor[..m] == perMonitor;
    SeenIdsFound(Flatten(perMonitor));
    events := FirstEventsOf(Flatten(perMonitor), eventIds);
  }

  /** The map with `find` over the collected ids: each id is replaced by the
      first event with that id, which is also that event's first
      occurrence. */
  method FirstEventsOf(flat: seq<Event>, eventIds: seq<string>) returns (events: seq<Event>)
    requires forall t :: 0 <= t < |eventIds| ==> FindById(flat, eventIds[t]).Some?
    ensures events == FirstEvents(flat, eventIds)
    ensures forall u :: 0 <= u < |events| ==> events[u].id == eventIds[u]
    ensures forall u :: 0 <= u < |events| ==> FirstAt(flat, events[u].id, IndexOfEvent(flat, events[u]))
  {
    events := [];
    var t := 0;
    while t < |eventIds|
      invariant 0 <= t <= |eventIds|
      invariant |events| == t
      invariant forall u :: 0 <= u < t ==> events[u] == FindById(flat, eventIds[u]).value
      invariant forall u :: 0 <= u < t ==> events[u].id == eventIds[u]
      invariant forall u :: 0 <= u < t ==> FirstAt(flat, events[u].id, IndexOfEvent(flat, events[u]))
    {
      var e := FindById(flat, eventIds[t]).value;
      ghost var k :| FirstAt(flat, eventIds[t], k) && flat[k] == e;
      FirstIndexOfEvent(flat, e, k);
      events := events + [e];
      t := t + 1;
    }
  }

  /** Each id replaced by the first event with that id, as the map with
      `find` does. */
  function FirstEvents(s: seq<Event>, ids: seq<string>): seq<Event>
    requires forall t :: 0 <= t < |ids| ==> FindById(s, ids[t]).Some?
  {
    seq(|ids|, t requires 0 <= t < |ids| => FindById(s, ids[t]).value)
  }

  /** The events the merge yields for the monitors' lists: the first event
      of each id, in the order the ids are first seen. */
  function MergedEvents(perMonitor: seq<seq<Event>>): (r: seq<Event>)
    ensures |r| == |SeenIds(Flatten(perMonitor))|
    ensures forall t :: 0 <= t < |r| ==>
      r[t].id == SeenIds(Flatten(perMonitor))[t] && r[t] in Flatten(perMonitor)
  {
    var flat := Flatten(perMonitor);
    SeenIdsFound(flat);
    FirstEvents(flat, SeenIds(flat))
  }

  /** Every seen id is found. */
  lemma SeenIdsFound(s: seq<Event>)
    ensures forall t :: 0 <= t < |SeenIds(s)| ==> FindById(s, SeenIds(s)[t]).Some?
    ensures forall t :: 0 <= t < |SeenIds(s)| ==>
      FindById(s, SeenIds(s)[t]).value.id == SeenIds(s)[t] && FindById(s, SeenIds(s)[t]).value in s
  {
    SeenIdsDistinctAndComplete(s);
    forall t | 0 <= t < |SeenIds(s)|
      ensures FindById(s, SeenIds(s)[t]).Some?
    {
      assert SeenIds(s)[t] in SeenIds(s);
    }
  }

  /** The position of the first occurrence of an event of `s`. */
  function IndexOfEvent(s: seq<Event>, e: Event): int
  {
    if |s| == 0 then -1
    else if s[0] == e then 0
    else
      var r := IndexOfEvent(s[1..], e);
      if r == -1 then -1 else r + 1
  }

  /** The first event with an id is also that event's first occurrence. */
  lemma {:induction false} FirstIndexOfEvent(s: seq<Event>, e: Event, k: int)
    requires 0 <= k < |s| && s[k] == e && forall k' :: 0 <= k' < k ==> s[k'].id != e.id
    ensures IndexOfEvent(s, e) == k
  {
    if k > 0 {
      assert s[0].id != e.id;
      FirstIndexOfEvent(s[1..], e, k - 1);
    }
  }

  /** The merged events hold no id twice, lose no id, and keep the order in
      which ids are first seen. */
  lemma MergedEventsProperties(perMonitor: seq<seq<Event>>, events: seq<Event>)
    requires |events| == |SeenIds(Flatten(perMonitor))|
    requires forall t :: 0 <= t < |events| ==> events[t].id == SeenIds(Flatten(perMonitor))[t]
    ensures forall a, b :: 0 <= a < b < |events| ==> events[a].id != events[b].id
    ensures forall id :: HasId(Flatten(perMonitor), id) <==> HasId(events, id)
    ensures forall a, b, ka, kb ::
      (0 <= a < b < |events|
       && FirstAt(Flatten(perMonitor), events[a].id, ka)
       && FirstAt(Flatten(perMonitor), events[b].id, kb)) ==> ka < kb
  {
    var flat := Flatten(perMonitor);
    var ids := SeenIds(flat);
    SeenIdsDistinctAndComplete(flat);
    forall id | HasId(flat, id)
      ensures HasId(events, id)
    {
      var t :| 0 <= t < |ids| && ids[t] == id;
      assert events[t].id == id;
    }
    forall id | HasId(events, id)
      ensures HasId(flat, id)
    {
      var t :| 0 <= t < |events| && events[t].id == id;
      assert ids[t] in ids;
    }
    forall a, b, ka, kb | 0 <= a < b < |events| && FirstAt(flat, events[a].id, ka) && FirstAt(flat, events[b].id, kb)
      ensures ka < kb
    {
      SeenIdsOrder(flat, a, b, ka, kb);
    }
  }

  // ---------------------------------------------------------------------------
  // Sorting by start date

  predicate SortedByStart(s: seq<Event>)
  {
    forall a, b :: 0 <= a < b < |s| ==> s[a].startDate <= s[b].startDate
  }

  /** Where `e` goes in the sorted `s`: after every event that starts no
      later, before every event that starts later. */
  function InsertPosition(s: seq<Event>, e: Event): (p: nat)
    requires SortedByStart(s)
    ensures p <= |s|
    ensures forall k :: 0 <= k < p ==> s[k].startDate <= e.startDate
    ensures forall k :: p <= k < |s| ==> s[k].startDate > e.startDate
  {
    if |s| == 0 || s[|s| - 1].startDate <= e.startDate then |s|
    else InsertPosition(s[..|s| - 1], e)
  }

  /** `e` inserted into the sorted `s`. */
  function Insert(s: seq<Event>, e: Event): (r: seq<Event>)
    requires SortedByStart(s)
    ensures SortedByStart(r)
    ensures multiset(r) == multiset(s) + multiset{e}
  {
    var p := InsertPosition(s, e);
    InsertAtPosition(s, e, p);
    s[..p] + [e] + s[p..]
  }

  /** Putting `e` between the events that start no later and those that
      start later keeps the list sorted and adds exactly `e`. */
  lemma InsertAtPosition(s: seq<Event>, e: Event, p: nat)
    requires SortedByStart(s) && p <= |s|
    requires forall k :: 0 <= k < p ==> s[k].startDate <= e.startDate
    requires forall k :: p <= k < |s| ==> s[k].startDate > e.startDate
    ensures SortedByStart(s[..p] + [e] + s[p..])
    ensures multiset(s[..p] + [e] + s[p..]) == multiset(s) + multiset{e}
  {
    var r := s[..p] + [e] + s[p..];
    assert |r| == |s| + 1;
    forall a, b | 0 <= a < b < |r|
      ensures r[a].startDate <= r[b].startDate
    {
      var x := if a < p then s[a] else if a == p then e else s[a - 1];
      var y := if b < p then s[b] else if b == p then e else s[b - 1];
      assert r[a] == x && r[b] == y;
    }
    calc {
      multiset(r);
      multiset(s[..p] + [e]) + multiset(s[p..]);
      multiset(s[..p]) + multiset{e} + multiset(s[p..]);
      { assert s == s[..p] + s[p..]; }
      multiset(s) + multiset{e};
    }
  }

  /** events.sort((a, b) => a.startDate - b.startDate): ascending start date,
      the same events. */
  function SortByStart(s: seq<Event>): (r: seq<Event>)
    ensures SortedByStart(r)
    ensures multiset(r) == multiset(s)
  {
    if |s| == 0 then []
    else
      assert s == s[..|s| - 1] + [s[|s| - 1]];
      Insert(SortByStart(s[..|s| - 1]), s[|s| - 1])
  }

  // ---------------------------------------------------------------------------
  // getEvents and getFutureEvents

  const DefaultLimit: int := 5

  /** Page `p` is the first page that has monitors. */
  ghost predicate FirstWithMonitors(statusPages: seq<StatusPage>, p: int)
    reads statusPages
  {
    && 0 <= p < |statusPages|
    && statusPages[p].monitors != []
    && forall q :: 0 <= q < p ==> statusPages[q].monitors == []
  }

  /** The monitor ids of a page, in its order. */
  function PageMonitorIds(page: StatusPage): seq<string>
    reads page
  {
    seq(|page.monitors|, k requires 0 <= k < |page.monitors| reads page => page.monitors[k].monitor)
  }

  /** The monitors of the first page that has monitors, or none. */
  method MonitorIdsOfFirstPage(statusPages: seq<StatusPage>) returns (monitorIds: seq<string>)
    ensures monitorIds == [] <==> forall p :: 0 <= p < |statusPages| ==> statusPages[p].monitors == []
    ensures monitorIds != [] ==> exists p :: FirstWithMonitors(statusPages, p) && monitorIds == PageMonitorIds(statusPages[p])
  {
    var p := 0;
    while p < |statusPages| && statusPages[p].monitors == []
      invariant 0 <= p <= |statusPages|
      invariant forall q :: 0 <= q < p ==> statusPages[q].monitors == []
    {
      p := p + 1;
    }
    if p == |statusPages| {
      return [];
    }
    var monitors := statusPages[p].monitors;
    monitorIds := seq(|monitors|, k requires 0 <= k < |monitors| => monitors[k].monitor);
    assert monitorIds == PageMonitorIds(statusPages[p]);
  }

  /** The events of each monitor, in monitor order. */
  function EventsPerMonitor(monitorIds: seq<string>, eventsFor: string -> seq<Event>): (r: seq<seq<Event>>)
    ensures |r| == |monitorIds| && forall k :: 0 <= k < |r| ==> r[k] == eventsFor(monitorIds[k])
  {
    seq(|monitorIds|, k requires 0 <= k < |monitorIds| => eventsFor(monitorIds[k]))
  }

  /** getEvents once the status pages are found: fails with "no monitor to
      check" when no page has monitors, and otherwise returns the merged
      events of the first such page's monitors with their number. The skip
      and limit arguments do not cut this list. */
  method GetEvents(statusPages: seq<StatusPage>, eventsFor: string -> seq<Event>)
    returns (r: Result<(seq<Event>, int), ServiceError>)
    ensures r.Err? <==> forall p :: 0 <= p < |statusPages| ==> statusPages[p].monitors == []
    ensures r.Err? ==> r.error == NoMonitorToCheck
    ensures r.Ok? ==> exists p ::
      (FirstWithMonitors(statusPages, p)
       && r.value.0 == MergedEvents(EventsPerMonitor(PageMonitorIds(statusPages[p]), eventsFor)))
    ensures r.Ok? ==> r.value.1 == |r.value.0|
    ensures r.Ok? ==> forall a, b :: 0 <= a < b < |r.value.0| ==> r.value.0[a].id != r.value.0[b].id
  {
    var monitorIds := MonitorIdsOfFirstPage(statusPages);
    if |monitorIds| == 0 {
      return Err(NoMonitorToCheck);
    }
    var perMonitor := EventsPerMonitor(monitorIds, eventsFor);
    var events := MergeEvents(perMonitor);
    MergedEventsProperties(perMonitor, events);
    return Ok((events, |events|));
  }

  /** The skip and limit getFutureEvents works with: a missing or zero skip
      is 0, a missing or zero limit is 5. */
  function SkipOrDefault(skip: Option<int>): int
  {
    if skip.None? || skip.value == 0 then 0 else skip.value
  }

  function LimitOrDefault(limit: Option<int>): (l: int)
    ensures limit.None? || limit.value == 0 ==> l == DefaultLimit
    ensures limit.Some? && limit.value != 0 ==> l == limit.value
  {
    if limit.None? || limit.value == 0 then DefaultLimit else limit.value
  }

  /** `page` is the cut of `sorted`, the merged `events` sorted by start
      date, with the total. */
  ghost predicate SortedPage(events: seq<Event>, sorted: seq<Event>, page: (seq<Event>, int), limit: int, skip: int)
  {
    && SortedByStart(sorted)
    && multiset(sorted) == multiset(events)
    && (forall a, b :: 0 <= a < b < |sorted| ==> sorted[a].id != sorted[b].id)
    && page.1 == |sorted|
    && page.0 == LimitEvents(sorted, limit, skip)
  }

  /** getFutureEvents once the status pages are found: as getEvents, then
      sorted by ascending start date and cut by limitEvents; the count is the
      number of merged events before the cut. */
  method GetFutureEvents(statusPages: seq<StatusPage>, eventsFor: string -> seq<Event>,
                         skip: Option<int>, limit: Option<int>)
    returns (r: Result<(seq<Event>, int), ServiceError>)
    ensures r.Err? <==> forall p :: 0 <= p < |statusPages| ==> statusPages[p].monitors == []
    ensures r.Err? ==> r.error == NoMonitorToCheck
    ensures r.Ok? ==> exists p, sorted: seq<Event> ::
      (FirstWithMonitors(statusPages, p)
       && SortedPage(MergedEvents(EventsPerMonitor(PageMonitorIds(statusPages[p]), eventsFor)),
                     sorted, r.value, LimitOrDefault(limit), SkipOrDefault(skip)))
  {
    var s := SkipOrDefault(skip);
    var l := LimitOrDefault(limit);
    var monitorIds := MonitorIdsOfFirstPage(statusPages);
    if |monitorIds| == 0 {
      return Err(NoMonitorToCheck);
    }
    ghost var p :| FirstWithMonitors(statusPages, p) && monitorIds == PageMonitorIds(statusPages[p]);
    var perMonitor := EventsPerMonitor(monitorIds, eventsFor);
    var events := MergeEvents(perMonitor);
    MergedEventsProperties(perMonitor, events);
    var sorted := SortByStart(events);
    DistinctIdsPermutation(events, sorted);
    var page := (LimitEvents(sorted, l, s), |sorted|);
    assert SortedPage(events, sorted, page, l, s);
    assert events == MergedEvents(EventsPerMonitor(PageMonitorIds(statusPages[p]), eventsFor));
    r := Ok(page);
    assert FirstWithMonitors(statusPages, p)
      && SortedPage(MergedEvents(EventsPerMonitor(PageMonitorIds(statusPages[p]), eventsFor)),
                    sorted, r.value, LimitOrDefault(limit), SkipOrDefault(skip));
  }

  /** Reordering events keeps their ids distinct. */
  lemma DistinctIdsPermutation(s: seq<Event>, r: seq<Event>)
    requires multiset(r) == multiset(s)
    requires forall a, b :: 0 <= a < b < |s| ==> s[a].id != s[b].id
    ensures |r| == |s|
    ensures forall a, b :: 0 <= a < b < |r| ==> r[a].id != r[b].id
  {
    assert |r| == |multiset(r)| == |multiset(s)| == |s|;
    forall a, b | 0 <= a < b < |r|
      ensures r[a].id != r[b].id
    {
      if r[a].id == r[b].id {
        assert r[a] in multiset(s) && r[b] in multiset(s);
        var x :| 0 <= x < |s| && s[x] == r[a];
        var y :| 0 <= y < |s| && s[y] == r[b];
        if x == y {
          // the same event twice in r but once in s
          assert r[a] == r[b];
          assert multiset(r)[r[a]] >= 2 by {
            assert r == r[..a] + [r[a]] + r[a + 1..b] + [r[b]] + r[b + 1..];
          }
          DistinctIdsOnce(s, x);
        }
      }
    }
  }

  /** In a list of distinct ids every event occurs once. */
  lemma DistinctIdsOnce(s: seq<Event>, x: int)
    requires 0 <= x < |s|
    requires forall a, b :: 0 <= a < b < |s| ==> s[a].id != s[b].id
    ensures multiset(s)[s[x]] == 1
  {
    assert s == s[..x] + [s[x]] + s[x + 1..];
    assert forall a :: 0 <= a < |s[..x]| ==> s[..x][a].id != s[x].id;
    var tail := s[x + 1..];
    assert forall b :: 0 <= b < |tail| ==> tail[b].id != s[x].id;
    assert multiset(s[..x])[s[x]] == 0;
    assert multiset(s[x + 1..])[s[x]] == 0;
  }
}
