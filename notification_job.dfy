/** The job that, every minute, tells status-page subscribers about new
    public notes on scheduled maintenance events. It selects the notes that
    still need notifying, skips a note whose event is gone, marks the note
    as notified, groups the status-page resources of the event's monitors
    by status page, and sends each eligible subscriber of each status page
    an SMS and/or an email.

    The note table is a field of the job that the marking updates in place;
    every mark and every send is appended to `log` in the order the job
    issues them. The database queries, the eligibility rule, the URL
    helpers, Markdown rendering and date formatting are collaborators the
    job is given. */
module NotificationJob {
  import opened Wrappers
  import opened JsBuiltins

  // ---------------------------------------------------------------------------
  // Records. An empty string stands for a missing id or a falsy text.

  /** A public note of a scheduled maintenance event. */
  datatype Note = Note(
    id: string,
    note: string,
    eventId: string,
    notified: bool,
    shouldNotify: bool,
    createdAt: int)

  /** A scheduled maintenance event with the ids of its monitors and status
      pages. */
  datatype MaintenanceEvent = MaintenanceEvent(
    id: string,
    title: string,
    description: string,
    startsAt: int,
    monitorIds: seq<string>,
    statusPageIds: seq<string>)

  /** A status-page resource (a monitor shown on a status page). */
  datatype Resource = Resource(id: string, displayName: string, statusPageId: string)

  datatype StatusPage = StatusPage(
    id: string,
    pageTitle: string,
    name: string,
    logoFileId: string,
    isPublicStatusPage: bool)

  datatype Subscriber = Subscriber(id: string, phone: string, email: string)

  /** What the SMS text is made of. */
  datatype SmsText = SmsText(statusPageName: string, eventTitle: string, statusPageUrl: string, unsubscribeUrl: string)

  /** The template variables of the email. */
  datatype EmailVars = EmailVars(
    note: string,
    statusPageName: string,
    statusPageUrl: string,
    logoUrl: string,
    isPublicStatusPage: string,
    resourcesAffected: string,
    scheduledAt: string,
    eventTitle: string,
    eventDescription: string,
    unsubscribeUrl: string)

  /** One write of the job: a note marked notified, or a message sent. */
  datatype Effect =
    | Marked(noteId: string)
    | Sms(to: string, message: SmsText)
    | Email(toEmail: string, subject: string, vars: EmailVars)

  /** The collaborators of the job. */
  datatype Services = Services(
    findEvent: string -> Option<MaintenanceEvent>,
    resourcesFor: seq<string> -> seq<Resource>,
    pagesToNotify: seq<string> -> seq<StatusPage>,
    subscribersOf: string -> seq<Subscriber>,
    statusPageUrl: string -> string,
    shouldSendNotification: (Subscriber, seq<Resource>, StatusPage) -> bool,
    unsubscribeLink: (string, string) -> string,
    markdownToHtml: string -> string,
    formatDate: int -> string,
    protocol: string,
    host: string,
    fileRoute: string)

  // ---------------------------------------------------------------------------
  // Selecting notes

  /** The query of the job: not yet notified, to be notified, created before
      now. */
  predicate Selectable(n: Note, now: int)
  {
    !n.notified && n.shouldNotify && n.createdAt < now
  }

  /** The positions of the selected notes, in table order. */
  function SelectedIndices(notes: seq<Note>, now: int): (r: seq<nat>)
    ensures forall t :: 0 <= t < |r| ==> r[t] < |notes| && Selectable(notes[r[t]], now)
    ensures forall i :: 0 <= i < |notes| && Selectable(notes[i], now) ==> i in r
    ensures forall a, b :: 0 <= a < b < |r| ==> r[a] < r[b]
  {
    if |notes| == 0 then []
    else
      var init := SelectedIndices(notes[..|notes| - 1], now);
      if Selectable(notes[|notes| - 1], now) then init + [|notes| - 1] else init
  }

  // ---------------------------------------------------------------------------
  // Grouping resources by status page

  /** The resources of one status page, in input order. */
  function Bucket(resources: seq<Resource>, pageId: string): (r: seq<Resource>)
    ensures forall x :: x in r <==> x in resources && x.statusPageId == pageId
  {
    if |resources| == 0 then []
    else
      var init := Bucket(resources[..|resources| - 1], pageId);
      var last := resources[|resources| - 1];
      assert resources == resources[..|resources| - 1] + [last];
      if last.statusPageId == pageId then init + [last] else init
  }

  /** Bucketing keeps the input order: the bucket of a concatenation is the
      buckets of its parts, one after the other. */
  lemma {:induction false} BucketAppend(a: seq<Resource>, b: seq<Resource>, pageId: string)
    ensures Bucket(a + b, pageId) == Bucket(a, pageId) + Bucket(b, pageId)
    decreases |b|
  {
    if |b| == 0 {
      assert a + b == a;
    } else {
      assert (a + b)[..|a + b| - 1] == a + b[..|b| - 1];
      BucketAppend(a, b[..|b| - 1], pageId);
    }
  }

  /** The status pages some resource names. */
  function PageIdsOf(resources: seq<Resource>): set<string>
  {
    set x | x in resources && x.statusPageId != "" :: x.statusPageId
  }

  /** statusPageToResources as a value: one bucket per named status page. */
  function Buckets(resources: seq<Resource>): map<string, seq<Resource>>
  {
    map pageId | pageId in PageIdsOf(resources) :: Bucket(resources, pageId)
  }

  /** Pushing one more resource onto the grouping. */
  lemma BucketsStep(resources: seq<Resource>, x: Resource)
    ensures Buckets(resources + [x]) ==
      if x.statusPageId == "" then Buckets(resources)
      else Buckets(resources)[x.statusPageId :=
        (if x.statusPageId in Buckets(resources) then Buckets(resources)[x.statusPageId] else []) + [x]]
  {
    PageIdsStep(resources, x);
    if x.statusPageId == "" {
      BucketsStepUnnamed(resources, x);
    } else {
      BucketsStepNamed(resources, x);
    }
  }

  lemma BucketsStepUnnamed(resources: seq<Resource>, x: Resource)
    requires x.statusPageId == ""
    requires PageIdsOf(resources + [x]) == PageIdsOf(resources)
    ensures Buckets(resources + [x]) == Buckets(resources)
  {
    forall pageId | pageId in PageIdsOf(resources)
      ensures Bucket(resources + [x], pageId) == Bucket(resources, pageId)
    {
      BucketStep(resources, x, pageId);
    }
  }

  lemma BucketsStepNamed(resources: seq<Resource>, x: Resource)
    requires x.statusPageId != ""
    requires PageIdsOf(resources + [x]) == PageIdsOf(resources) + {x.statusPageId}
    ensures Buckets(resources + [x]) == Buckets(resources)[x.statusPageId :=
        (if x.statusPageId in Buckets(resources) then Buckets(resources)[x.statusPageId] else []) + [x]]
  {
    var before := Buckets(resources);
    var after := Buckets(resources + [x]);
    var id := x.statusPageId;
    var expected := before[id := (if id in before then before[id] else []) + [x]];
    forall pageId | pageId in after
      ensures pageId in expected && after[pageId] == expected[pageId]
    {
      BucketStep(resources, x, pageId);
      if pageId == id && pageId !in PageIdsOf(resources) {
        BucketEmpty(resources, pageId);
      }
    }
    assert after.Keys == expected.Keys;
  }

  lemma PageIdsStep(resources: seq<Resource>, x: Resource)
    ensures PageIdsOf(resources + [x]) ==
      if x.statusPageId == "" then PageIdsOf(resources) else PageIdsOf(resources) + {x.statusPageId}
  {
  }

  lemma BucketStep(resources: seq<Resource>, x: Resource, pageId: string)
    ensures Bucket(resources + [x], pageId) ==
      if x.statusPageId == pageId then Bucket(resources, pageId) + [x] else Bucket(resources, pageId)
  {
    assert (resources + [x])[..|resources|] == resources;
  }

  /** A page no resource names has an empty bucket. */
  lemma BucketEmpty(resources: seq<Resource>, pageId: string)
    requires pageId != "" && pageId !in PageIdsOf(resources)
    ensures Bucket(resources, pageId) == []
  {
    var b := Bucket(resources, pageId);
    assert forall y :: y in resources && y.statusPageId != "" ==> y.statusPageId in PageIdsOf(resources);
  }

  /** The in-place grouping loop: resources without a status page are
      dropped, every other one is pushed onto its page's bucket. */
  method GroupByStatusPage(resources: seq<Resource>) returns (statusPageToResources: map<string, seq<Resource>>)
    ensures statusPageToResources == Buckets(resources)
  {
    statusPageToResources := map[];
    var k := 0;
    while k < |resources|
      invariant 0 <= k <= |resources|
      invariant statusPageToResources == Buckets(resources[..k])
    {
      var resource := resources[k];
      BucketsStep(resources[..k], resource);
      assert resources[..k + 1] == resources[..k] + [resource];
      if resource.statusPageId != "" {
        // a missing bucket starts empty; the resource is pushed onto it
        var bucket := if resource.statusPageId in statusPageToResources
                      then statusPageToResources[resource.statusPageId] else [];
        statusPageToResources := statusPageToResources[resource.statusPageId := bucket + [resource]];
      }
      k := k + 1;
    }
    assert resources[..k] == resources;
  }

  /** Every resource naming a status page lands in exactly that page's
      bucket; there is a bucket exactly for the pages some resource names. */
  lemma BucketsMeaning(resources: seq<Resource>)
    ensures forall pageId :: pageId in Buckets(resources) <==>
      pageId != "" && exists k :: 0 <= k < |resources| && resources[k].statusPageId == pageId
    ensures forall pageId, x :: pageId in Buckets(resources) ==>
      (x in Buckets(resources)[pageId] <==> x in resources && x.statusPageId == pageId)
  {
    forall pageId | pageId != "" && exists k :: 0 <= k < |resources| && resources[k].statusPageId == pageId
      ensures pageId in PageIdsOf(resources)
    {
      var k :| 0 <= k < |resources| && resources[k].statusPageId == pageId;
      assert resources[k] in resources;
    }
  }

  /** An event without monitors gives no resources, hence no buckets. */
  lemma NoResourcesNoBuckets(services: Services, event: MaintenanceEvent)
    requires |event.monitorIds| == 0
    ensures ResourcesOf(services, event) == []
    ensures Buckets(ResourcesOf(services, event)) == map[]
  {
    assert PageIdsOf([]) == {};
  }

  // ---------------------------------------------------------------------------
  // What is sent

  /** pageTitle, else name, else "Status Page". */
  function PageName(page: StatusPage): string
  {
    if page.pageTitle != "" then page.pageTitle
    else if page.name != "" then page.name
    else "Status Page"
  }

  const SubjectPrefix: string := "[Scheduled Maintenance Update] "

  function Subject(statusPageName: string): string
  {
    SubjectPrefix + statusPageName
  }

  /** The logo address, "" without a logo. */
  function LogoUrl(services: Services, page: StatusPage): string
  {
    if page.logoFileId != "" then services.protocol + services.host + services.fileRoute + "/image/" + page.logoFileId
    else ""
  }

  function DisplayNames(resources: seq<Resource>): (r: seq<string>)
    ensures |r| == |resources| && forall k :: 0 <= k < |r| ==> r[k] == resources[k].displayName
  {
    seq(|resources|, k requires 0 <= k < |resources| => resources[k].displayName)
  }

  /** The display names of the page's bucket joined by ", ", or "". */
  function ResourcesAffected(buckets: map<string, seq<Resource>>, pageId: string): string
  {
    if pageId in buckets then Join(DisplayNames(buckets[pageId]), ", ") else ""
  }

  /** What a note on an event is sent within: the page, its name and address,
      its bucket of resources. */
  datatype PageContext = PageContext(
    note: Note,
    event: MaintenanceEvent,
    page: StatusPage,
    buckets: map<string, seq<Resource>>,
    statusPageUrl: string)

  function BucketOf(ctx: PageContext): seq<Resource>
  {
    if ctx.page.id in ctx.buckets then ctx.buckets[ctx.page.id] else []
  }

  function MailVars(services: Services, ctx: PageContext, unsubscribeUrl: string): EmailVars
  {
    EmailVars(
      services.markdownToHtml(ctx.note.note),
      PageName(ctx.page),
      ctx.statusPageUrl,
      LogoUrl(services, ctx.page),
      if ctx.page.isPublicStatusPage then "true" else "false",
      ResourcesAffected(ctx.buckets, ctx.page.id),
      services.formatDate(ctx.event.startsAt),
      ctx.event.title,
      ctx.event.description,
      unsubscribeUrl)
  }

  /** The sends to one subscriber: none without an id or when the
      eligibility rule says no; otherwise an SMS when a phone is set and an
      email when an address is set. */
  function SubscriberEffects(services: Services, ctx: PageContext, subscriber: Subscriber): (r: seq<Effect>)
    ensures |r| <= 2
    ensures forall k :: 0 <= k < |r| ==> !r[k].Marked?
  {
    if subscriber.id == "" || !services.shouldSendNotification(subscriber, BucketOf(ctx), ctx.page) then []
    else
      var unsubscribeUrl := services.unsubscribeLink(ctx.statusPageUrl, subscriber.id);
      (if subscriber.phone != ""
       then [Sms(subscriber.phone, SmsText(PageName(ctx.page), ctx.event.title, ctx.statusPageUrl, unsubscribeUrl))]
       else [])
      + (if subscriber.email != ""
         then [Email(subscriber.email, Subject(PageName(ctx.page)), MailVars(services, ctx, unsubscribeUrl))]
         else [])
  }

  function SubscribersEffects(services: Services, ctx: PageContext, subscribers: seq<Subscriber>): seq<Effect>
  {
    if |subscribers| == 0 then []
    else
      var earlier := SubscribersEffects(services, ctx, subscribers[..|subscribers| - 1]);
      earlier + SubscriberEffects(services, ctx, subscribers[|subscribers| - 1])
  }

  function ContextFor(services: Services, note: Note, event: MaintenanceEvent,
                      buckets: map<string, seq<Resource>>, page: StatusPage): PageContext
  {
    PageContext(note, event, page, buckets, services.statusPageUrl(page.id))
  }

  /** The sends for one status page: none for a page without an id. */
  function PageEffects(services: Services, note: Note, event: MaintenanceEvent,
                       buckets: map<string, seq<Resource>>, page: StatusPage): seq<Effect>
  {
    if page.id == "" then []
    else SubscribersEffects(services, ContextFor(services, note, event, buckets, page), services.subscribersOf(page.id))
  }

  function PagesEffects(services: Services, note: Note, event: MaintenanceEvent,
                        buckets: map<string, seq<Resource>>, pages: seq<StatusPage>): seq<Effect>
  {
    if |pages| == 0 then []
    else
      var earlier := PagesEffects(services, note, event, buckets, pages[..|pages| - 1]);
      earlier + PageEffects(services, note, event, buckets, pages[|pages| - 1])
  }

  /** The resources of the event's monitors; none are looked up when the
      event has no monitors. Monitors without an id are left out of the
      query. */
  function ResourcesOf(services: Services, event: MaintenanceEvent): seq<Resource>
  {
    if |event.monitorIds| > 0 then services.resourcesFor(NonEmptyIds(event.monitorIds)) else []
  }

  function NonEmptyIds(ids: seq<string>): (r: seq<string>)
    ensures forall x :: x in r <==> x in ids && x != ""
  {
    if |ids| == 0 then []
    else
      assert ids == ids[..|ids| - 1] + [ids[|ids| - 1]];
      NonEmptyIds(ids[..|ids| - 1]) + if ids[|ids| - 1] != "" then [ids[|ids| - 1]] else []
  }

  /** Everything the job writes for one selected note: nothing when its
      event is gone; otherwise the mark, then the sends for every status
      page of the event. */
  function NoteEffects(services: Services, note: Note): seq<Effect>
  {
    match services.findEvent(note.eventId)
    case None => []
    case Some(event) =>
      [Marked(note.id)]
        + PagesEffects(services, note, event, Buckets(ResourcesOf(services, event)),
                       services.pagesToNotify(event.statusPageIds))
  }

  function NotesEffects(services: Services, notes: seq<Note>, selected: seq<nat>): seq<Effect>
    requires forall t :: 0 <= t < |selected| ==> selected[t] < |notes|
  {
    if |selected| == 0 then []
    else NotesEffects(services, notes, selected[..|selected| - 1]) + NoteEffects(services, notes[selected[|selected| - 1]])
  }

  /** The note table after a run: the selected notes whose event exists are
      marked notified; nothing else changes. */
  function MarkedNotes(services: Services, notes: seq<Note>, now: int): seq<Note>
  {
    seq(|notes|, i requires 0 <= i < |notes| =>
      if Selectable(notes[i], now) && services.findEvent(notes[i].eventId).Some?
      then notes[i].(notified := true)
      else notes[i])
  }

  // ---------------------------------------------------------------------------
  // The job

  class NotificationJob {
    /** The note table. */
    var notes: seq<Note>
    /** Marks and sends, in the order the job issues them. */
    var log: seq<Effect>

    constructor(table: seq<Note>)
      ensures notes == table && log == []
    {
      notes := table;
      log := [];
    }

    /** The subscriber loop of one status page. */
    method NotifyPage(services: Services, note: Note, event: MaintenanceEvent,
                      buckets: map<string, seq<Resource>>, statuspage: StatusPage)
      modifies this
      ensures notes == old(notes)
      ensures log == old(log) + PageEffects(services, note, event, buckets, statuspage)
    {
      if statuspage.id == "" {
        return;
      }
      var subscribers := services.subscribersOf(statuspage.id);
      var ctx := ContextFor(services, note, event, buckets, statuspage);
      var k := 0;
      while k < |subscribers|
        invariant 0 <= k <= |subscribers|
        invariant notes == old(notes)
        invariant log == old(log) + SubscribersEffects(services, ctx, subscribers[..k])
      {
        SubscribersEffectsStep(services, ctx, subscribers, k);
        var subscriber := subscribers[k];
        var sends := SubscriberEffects(services, ctx, subscriber);
        AppendAssoc(old(log), SubscribersEffects(services, ctx, subscribers[..k]), sends);
        log := log + sends;
        k := k + 1;
      }
      assert subscribers[..k] == subscribers;
    }

    /** The work for a note whose event exists, after the mark: the
        resources of the event's monitors grouped by status page, then the
        subscriber loop of every status page of the event. */
    method AnnounceNote(services: Services, publicNote: Note, event: MaintenanceEvent)
      modifies this
      ensures notes == old(notes)
      ensures log == old(log) + PagesEffects(services, publicNote, event, Buckets(ResourcesOf(services, event)),
                                             services.pagesToNotify(event.statusPageIds))
    {
      var statusPageResources := ResourcesOf(services, event);
      var statusPageToResources := GroupByStatusPage(statusPageResources);
      var statusPages := services.pagesToNotify(event.statusPageIds);
      var p := 0;
      while p < |statusPages|
        invariant 0 <= p <= |statusPages|
        invariant notes == old(notes)
        invariant log == old(log) + PagesEffects(services, publicNote, event, statusPageToResources, statusPages[..p])
      {
        PagesEffectsStep(services, publicNote, event, statusPageToResources, statusPages, p);
        ghost var done := PagesEffects(services, publicNote, event, statusPageToResources, statusPages[..p]);
        ghost var next := PageEffects(services, publicNote, event, statusPageToResources, statusPages[p]);
        AppendAssoc(old(log), done, next);
        NotifyPage(services, publicNote, event, statusPageToResources, statusPages[p]);
        p := p + 1;
      }
      assert statusPages[..p] == statusPages;
    }

    /** One selected note, found at position `i` of the table: skipped when
        its event is gone, otherwise marked notified and then announced. */
    method ProcessNote(services: Services, i: nat, publicNote: Note)
      requires i < |notes|
      modifies this
      ensures services.findEvent(publicNote.eventId).None? ==> notes == old(notes)
      ensures services.findEvent(publicNote.eventId).Some? ==>
        notes == old(notes)[i := old(notes)[i].(notified := true)]
      ensures log == old(log) + NoteEffects(services, publicNote)
    {
      var found := services.findEvent(publicNote.eventId);
      if found.None? {
        return;
      }
      var event := found.value;
      notes := notes[i := notes[i].(notified := true)];
      log := log + [Marked(publicNote.id)];
      AnnounceNote(services, publicNote, event);
      AppendAssoc(old(log), [Marked(publicNote.id)],
                  PagesEffects(services, publicNote, event, Buckets(ResourcesOf(services, event)),
                               services.pagesToNotify(event.statusPageIds)));
    }

    /** The body of the run's loop for the `t`-th selected note. */
    method ProcessSelected(services: Services, ghost table: seq<Note>, selected: seq<nat>, t: nat)
      requires t < |selected| && forall u :: 0 <= u < |selected| ==> selected[u] < |table|
      requires forall a, b :: 0 <= a < b < |selected| ==> selected[a] < selected[b]
      requires notes == MarkedAmong(services, table, selected[..t])
      modifies this
      ensures notes == MarkedAmong(services, table, selected[..t + 1])
      ensures log == old(log) + NoteEffects(services, table[selected[t]])
    {
      var i := selected[t];
      assert i !in selected[..t];
      assert selected[..t + 1] == selected[..t] + [i];
      MarkedAmongStep(services, table, selected[..t], i);
      var publicNote := notes[i];
      ProcessNote(services, i, publicNote);
    }

    /** One run of the job at time `now`. */
    method Run(services: Services, now: int)
      modifies this
      ensures notes == MarkedNotes(services, old(notes), now)
      ensures log == old(log) + NotesEffects(services, old(notes), SelectedIndices(old(notes), now))
    {
      var selected := SelectedIndices(notes, now);
      ghost var table := notes;
      var t := 0;
      while t < |selected|
        invariant 0 <= t <= |selected|
        invariant notes == MarkedAmong(services, table, selected[..t])
        invariant log == old(log) + NotesEffects(services, table, selected[..t])
      {
        NotesEffectsStep(services, table, selected, t);
        ghost var done := NotesEffects(services, table, selected[..t]);
        ghost var next := NoteEffects(services, table[selected[t]]);
        AppendAssoc(old(log), done, next);
        ProcessSelected(services, table, selected, t);
        t := t + 1;
      }
      assert selected[..t] == selected;
      MarkedAmongSelected(services, table, now);
    }
  }

  lemma PagesEffectsStep(services: Services, note: Note, event: MaintenanceEvent,
                         buckets: map<string, seq<Resource>>, pages: seq<StatusPage>, p: nat)
    requires p < |pages|
    ensures PagesEffects(services, note, event, buckets, pages[..p + 1])
      == PagesEffects(services, note, event, buckets, pages[..p]) + PageEffects(services, note, event, buckets, pages[p])
  {
    assert pages[..p + 1][..p] == pages[..p];
  }

  lemma SubscribersEffectsStep(services: Services, ctx: PageContext, subscribers: seq<Subscriber>, k: nat)
    requires k < |subscribers|
    ensures SubscribersEffects(services, ctx, subscribers[..k + 1])
      == SubscribersEffects(services, ctx, subscribers[..k]) + SubscriberEffects(services, ctx, subscribers[k])
  {
    assert subscribers[..k + 1][..k] == subscribers[..k];
  }

  lemma NotesEffectsStep(services: Services, table: seq<Note>, selected: seq<nat>, t: nat)
    requires t < |selected| && forall u :: 0 <= u < |selected| ==> selected[u] < |table|
    ensures NotesEffects(services, table, selected[..t + 1])
      == NotesEffects(services, table, selected[..t]) + NoteEffects(services, table[selected[t]])
  {
    assert selected[..t + 1][..t] == selected[..t];
  }

  /** Concatenation is associative (stated once, so that the loops above
      need not rediscover it). */
  lemma AppendAssoc<T>(a: seq<T>, b: seq<T>, c: seq<T>)
    ensures (a + b) + c == a + (b + c)
  {
  }

  /** The table with the notes at the given positions marked, where their
      event exists. */
  function MarkedAmong(services: Services, table: seq<Note>, done: seq<nat>): seq<Note>
  {
    seq(|table|, i requires 0 <= i < |table| =>
      if i in done && services.findEvent(table[i].eventId).Some? then table[i].(notified := true) else table[i])
  }

  lemma MarkedAmongStep(services: Services, table: seq<Note>, done: seq<nat>, i: nat)
    requires i < |table| && i !in done
    ensures MarkedAmong(services, table, done)[i] == table[i]
    ensures MarkedAmong(services, table, done + [i]) ==
      if services.findEvent(table[i].eventId).Some?
      then MarkedAmong(services, table, done)[i := table[i].(notified := true)]
      else MarkedAmong(services, table, done)
  {
  }

  lemma MarkedAmongSelected(services: Services, table: seq<Note>, now: int)
    ensures MarkedAmong(services, table, SelectedIndices(table, now)) == MarkedNotes(services, table, now)
  {
    var sel := SelectedIndices(table, now);
    forall i | 0 <= i < |table|
      ensures i in sel <==> Selectable(table[i], now)
    {
      if i in sel {
        var t :| 0 <= t < |sel| && sel[t] == i;
      }
    }
  }

  // ---------------------------------------------------------------------------
  // Properties

  /** A note whose event is gone causes no write at all, so it stays
      unmarked and the next run selects it again. */
  lemma SkippedNoteStaysSelected(services: Services, notes: seq<Note>, now: int, later: int, i: int)
    requires 0 <= i < |notes| && Selectable(notes[i], now) && now <= later
    requires services.findEvent(notes[i].eventId).None?
    ensures NoteEffects(services, notes[i]) == []
    ensures MarkedNotes(services, notes, now)[i] == notes[i]
    ensures i in SelectedIndices(MarkedNotes(services, notes, now), later)
  {
  }

  /** A note whose event exists is marked first: its writes start with its
      mark, and every later write is a send. */
  lemma MarkBeforeSend(services: Services, note: Note)
    requires services.findEvent(note.eventId).Some?
    ensures |NoteEffects(services, note)| >= 1 && NoteEffects(services, note)[0] == Marked(note.id)
    ensures forall k :: 1 <= k < |NoteEffects(services, note)| ==> !NoteEffects(services, note)[k].Marked?
  {
    var event := services.findEvent(note.eventId).value;
    PagesEffectsAreSends(services, note, event, Buckets(ResourcesOf(services, event)),
                         services.pagesToNotify(event.statusPageIds));
  }

  lemma {:induction false} PagesEffectsAreSends(services: Services, note: Note, event: MaintenanceEvent,
                                                buckets: map<string, seq<Resource>>, pages: seq<StatusPage>)
    ensures forall k :: 0 <= k < |PagesEffects(services, note, event, buckets, pages)| ==>
      !PagesEffects(services, note, event, buckets, pages)[k].Marked?
  {
    if |pages| > 0 {
      PagesEffectsAreSends(services, note, event, buckets, pages[..|pages| - 1]);
      var page := pages[|pages| - 1];
      if page.id != "" {
        SubscribersEffectsAreSends(services, ContextFor(services, note, event, buckets, page), services.subscribersOf(page.id));
      }
    }
  }

  lemma {:induction false} SubscribersEffectsAreSends(services: Services, ctx: PageContext, subscribers: seq<Subscriber>)
    ensures forall k :: 0 <= k < |SubscribersEffects(services, ctx, subscribers)| ==>
      !SubscribersEffects(services, ctx, subscribers)[k].Marked?
  {
    if |subscribers| > 0 {
      var earlier := SubscribersEffects(services, ctx, subscribers[..|subscribers| - 1]);
      var last := SubscriberEffects(services, ctx, subscribers[|subscribers| - 1]);
      SubscribersEffectsAreSends(services, ctx, subscribers[..|subscribers| - 1]);
      SubscriberEffectsAreSends(services, ctx, subscribers[|subscribers| - 1]);
      var all := earlier + last;
      forall k | 0 <= k < |all|
        ensures !all[k].Marked?
      {
        if k >= |earlier| {
          assert all[k] == last[k - |earlier|];
        }
      }
    }
  }

  lemma SubscriberEffectsAreSends(services: Services, ctx: PageContext, subscriber: Subscriber)
    ensures forall k :: 0 <= k < |SubscriberEffects(services, ctx, subscriber)| ==>
      !SubscriberEffects(services, ctx, subscriber)[k].Marked?
  {
  }

  /** The job only ever sets the notified flag: a run never clears it,
      never touches any other field, and sets it only on selected notes
      whose event exists. */
  lemma MarkingOnlySets(services: Services, notes: seq<Note>, now: int)
    ensures |MarkedNotes(services, notes, now)| == |notes|
    ensures forall i :: 0 <= i < |notes| ==>
      var after := MarkedNotes(services, notes, now)[i];
      && after.(notified := notes[i].notified) == notes[i]
      && (notes[i].notified ==> after.notified)
      && (after.notified <==> notes[i].notified || (services.findEvent(notes[i].eventId).Some? && Selectable(notes[i], now)))
  {
  }

  /** Per subscriber: nothing without an id or when not eligible; otherwise
      an SMS exactly when a phone is set and an email exactly when an
      address is set, independently, the SMS first. */
  lemma SubscriberChannels(services: Services, ctx: PageContext, subscriber: Subscriber)
    ensures var sends := SubscriberEffects(services, ctx, subscriber);
      && (subscriber.id == "" || !services.shouldSendNotification(subscriber, BucketOf(ctx), ctx.page) ==> sends == [])
      && (subscriber.id != "" && services.shouldSendNotification(subscriber, BucketOf(ctx), ctx.page) ==>
            && |sends| == (if subscriber.phone != "" then 1 else 0) + (if subscriber.email != "" then 1 else 0)
            && (forall k :: 0 <= k < |sends| && sends[k].Sms? ==> sends[k].to == subscriber.phone && k == 0)
            && (forall k :: 0 <= k < |sends| && sends[k].Email? ==> sends[k].toEmail == subscriber.email)
            && ((exists k :: 0 <= k < |sends| && sends[k].Sms?) <==> subscriber.phone != "")
            && ((exists k :: 0 <= k < |sends| && sends[k].Email?) <==> subscriber.email != ""))
  {
    var sends := SubscriberEffects(services, ctx, subscriber);
    if subscriber.id != "" && services.shouldSendNotification(subscriber, BucketOf(ctx), ctx.page) {
      if subscriber.phone != "" {
        assert sends[0].Sms?;
      }
      if subscriber.email != "" {
        assert sends[|sends| - 1].Email?;
      }
    }
  }

  /** The name and subject of the messages. */
  lemma NameAndSubject(page: StatusPage)
    ensures page.pageTitle != "" ==> PageName(page) == page.pageTitle
    ensures page.pageTitle == "" && page.name != "" ==> PageName(page) == page.name
    ensures page.pageTitle == "" && page.name == "" ==> PageName(page) == "Status Page"
    ensures Subject(PageName(page)) == "[Scheduled Maintenance Update] " + PageName(page)
  {
  }

  /** The email variables: no logo gives an empty logo address (and a logo a
      non-empty one), the visibility flag is the text "true" or "false", and
      the affected resources are the display names of the page's bucket
      joined by ", ", or "" when the page has no bucket. */
  lemma EmailVarsMeaning(services: Services, ctx: PageContext, unsubscribeUrl: string)
    ensures var vars := MailVars(services, ctx, unsubscribeUrl);
      && (vars.logoUrl == "" <==> ctx.page.logoFileId == "")
      && (vars.isPublicStatusPage == "true" <==> ctx.page.isPublicStatusPage)
      && (vars.isPublicStatusPage == "false" <==> !ctx.page.isPublicStatusPage)
      && (ctx.page.id !in ctx.buckets ==> vars.resourcesAffected == "")
      && (ctx.page.id in ctx.buckets ==> vars.resourcesAffected == Join(DisplayNames(BucketOf(ctx)), ", "))
      && vars.statusPageName == PageName(ctx.page)
      && vars.note == services.markdownToHtml(ctx.note.note)
      && vars.unsubscribeUrl == unsubscribeUrl
  {
    var vars := MailVars(services, ctx, unsubscribeUrl);
    if ctx.page.logoFileId != "" {
      assert |vars.logoUrl| >= |"/image/"|;
    }
  }
}
