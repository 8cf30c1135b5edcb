/** The custom-domain and monitor list edits of the legacy status-page
    service. Each operation takes the status page documents the database
    query returned (`null` when none was found) and reassigns their `domains`
    or `monitors` arrays, as the service does before saving. The results of
    the domain-verification and certificate-store lookups are parameters;
    certificate requests and removals, which run in the background, are
    reported as flags. */
module StatusPageDomains {
  import opened Wrappers
  import opened JsBuiltins
  import opened StatusPageModel

  // ---------------------------------------------------------------------------
  // createDomain

  /** Some entry of the list is for the host name. */
  predicate HasDomainName(domains: seq<Domain>, subDomain: string)
  {
    exists k :: 0 <= k < |domains| && domains[k].domain == subDomain
  }

  /** The verification token the new entry points to: the one just created
      when no token existed for the host name, else the existing one. */
  function TokenFor(existingToken: Option<string>, createdToken: string): string
  {
    if existingToken.None? then createdToken else existingToken.value
  }

  /** The domain list createDomain saves: rejected when the host name is
      already on the page, else the new entry appended at the end. */
  function DomainsAfterCreate(domains: seq<Domain>, entry: Domain): (r: Result<seq<Domain>, ServiceError>)
    ensures r.Err? <==> HasDomainName(domains, entry.domain)
    ensures r.Err? ==> r.error == DomainAlreadyExists
    ensures r.Ok? ==> |r.value| == |domains| + 1
    ensures r.Ok? ==> r.value[..|domains|] == domains && r.value[|domains|] == entry
    ensures r.Ok? ==> forall k :: 0 <= k < |domains| ==> r.value[k].domain != entry.domain
  {
    if exists k :: 0 <= k < |domains| && domains[k].domain == entry.domain then Err(DomainAlreadyExists)
    else Ok(domains + [entry])
  }

  /** What createDomain did besides its result. */
  datatype CreateEffects = CreateEffects(tokenCreated: bool, certificateRequested: bool)

  /** createDomain: the verification token is created first (when none exists
      for the host name), whatever happens next; then the page is looked up,
      the host name checked against the page's entries, a certificate
      requested when HTTPS is auto-provisioned and the store holds none, and
      one entry appended. */
  method CreateDomain(statusPage: StatusPage?, subDomain: string, cert: string, privateKey: string,
                      enableHttps: bool, autoProvisioning: bool,
                      existingToken: Option<string>, createdToken: string,
                      certificateExists: bool, entryId: string)
    returns (r: Result<(), ServiceError>, effects: CreateEffects)
    modifies statusPage
    ensures effects.tokenCreated <==> existingToken.None?
    ensures statusPage == null ==> r == Err(PageNotFound) && !effects.certificateRequested
    ensures statusPage != null ==>
      var entry := Domain(entryId, subDomain, cert, privateKey, enableHttps, autoProvisioning,
                          Some(TokenFor(existingToken, createdToken)));
      var after := DomainsAfterCreate(old(statusPage.domains), entry);
      && (after.Err? ==> r == Err(after.error) && statusPage.domains == old(statusPage.domains))
      && (after.Ok? ==> r == Ok(()) && statusPage.domains == after.value)
      && (effects.certificateRequested <==> after.Ok? && enableHttps && autoProvisioning && !certificateExists)
    ensures statusPage != null ==> statusPage.monitors == old(statusPage.monitors)
  {
    effects := CreateEffects(existingToken.None?, false);
    var token := TokenFor(existingToken, createdToken);
    if statusPage == null {
      return Err(PageNotFound), effects;
    }
    var k := 0;
    while k < |statusPage.domains| && statusPage.domains[k].domain != subDomain
      invariant 0 <= k <= |statusPage.domains|
      invariant forall j :: 0 <= j < k ==> statusPage.domains[j].domain != subDomain
    {
      k := k + 1;
    }
    if k < |statusPage.domains| {
      return Err(DomainAlreadyExists), effects;
    }
    if enableHttps && autoProvisioning && !certificateExists {
      effects := effects.(certificateRequested := true);
    }
    statusPage.domains := statusPage.domains
      + [Domain(entryId, subDomain, cert, privateKey, enableHttps, autoProvisioning, Some(token))];
    r := Ok(());
  }

  // ---------------------------------------------------------------------------
  // deleteDomain

  /** The entries whose id differs, in their order (the filter's result). */
  function WithoutId(domains: seq<Domain>, domainId: string): (r: seq<Domain>)
    ensures |r| <= |domains|
    ensures forall d :: d in r <==> d in domains && d.id != domainId
  {
    if |domains| == 0 then []
    else
      var rest := WithoutId(domains[..|domains| - 1], domainId);
      var last := domains[|domains| - 1];
      assert domains == domains[..|domains| - 1] + [last];
      if last.id == domainId then rest else rest + [last]
  }

  /** The filter keeps the order: filtering a concatenation filters each
      part. */
  lemma {:induction false} WithoutIdAppend(a: seq<Domain>, b: seq<Domain>, domainId: string)
    ensures WithoutId(a + b, domainId) == WithoutId(a, domainId) + WithoutId(b, domainId)
    decreases |b|
  {
    if |b| > 0 {
      var b' := b[..|b| - 1];
      assert (a + b)[..|a + b| - 1] == a + b';
      WithoutIdAppend(a, b', domainId);
    } else {
      assert a + b == a;
    }
  }

  /** Nothing is dropped exactly when no entry has the id. */
  lemma WithoutIdUnchanged(domains: seq<Domain>, domainId: string)
    ensures WithoutId(domains, domainId) == domains <==> forall k :: 0 <= k < |domains| ==> domains[k].id != domainId
  {
    if forall k :: 0 <= k < |domains| ==> domains[k].id != domainId {
      WithoutAbsentId(domains, domainId);
    } else {
      var k :| 0 <= k < |domains| && domains[k].id == domainId;
      assert domains[k] in domains;
    }
  }

  lemma {:induction false} WithoutAbsentId(domains: seq<Domain>, domainId: string)
    requires forall k :: 0 <= k < |domains| ==> domains[k].id != domainId
    ensures WithoutId(domains, domainId) == domains
  {
    if |domains| > 0 {
      var init := domains[..|domains| - 1];
      assert forall k :: 0 <= k < |init| ==> init[k] == domains[k];
      WithoutAbsentId(init, domainId);
      assert domains == init + [domains[|domains| - 1]];
    }
  }

  /** Entry `k` is the last one with the id. */
  ghost predicate IsLastWithId(domains: seq<Domain>, domainId: string, k: int)
  {
    && 0 <= k < |domains|
    && domains[k].id == domainId
    && forall k' :: k < k' < |domains| ==> domains[k'].id != domainId
  }

  /** The entry the filter's callback records: the last one with the id. */
  function LastWithId(domains: seq<Domain>, domainId: string): (r: Option<Domain>)
    ensures r.None? <==> forall k :: 0 <= k < |domains| ==> domains[k].id != domainId
    ensures r.Some? ==> r.value.id == domainId
    ensures r.Some? ==> exists k :: IsLastWithId(domains, domainId, k) && domains[k] == r.value
  {
    if |domains| == 0 then None
    else if domains[|domains| - 1].id == domainId then Some(domains[|domains| - 1])
    else
      var init := domains[..|domains| - 1];
      var r := LastWithId(init, domainId);
      assert forall k :: 0 <= k < |init| ==> init[k] == domains[k];
      assert r.Some? ==> exists k :: IsLastWithId(domains, domainId, k) && domains[k] == r.value by {
        if r.Some? {
          var k :| IsLastWithId(init, domainId, k) && init[k] == r.value;
          assert IsLastWithId(domains, domainId, k);
        }
      }
      r
  }

  /** The filter in deleteDomain: the entries kept, and the last entry with
      the id, which the callback records. */
  method FilterDomains(domains: seq<Domain>, domainId: string)
    returns (remainingDomains: seq<Domain>, deletedDomain: Option<Domain>)
    ensures remainingDomains == WithoutId(domains, domainId)
    ensures deletedDomain == LastWithId(domains, domainId)
  {
    deletedDomain := None;
    remainingDomains := [];
    var k := 0;
    while k < |domains|
      invariant 0 <= k <= |domains|
      invariant remainingDomains == WithoutId(domains[..k], domainId)
      invariant deletedDomain == LastWithId(domains[..k], domainId)
    {
      assert domains[..k + 1][..k] == domains[..k];
      if domains[k].id == domainId {
        deletedDomain := Some(domains[k]);
      }
      if domains[k].id != domainId {
        remainingDomains := remainingDomains + [domains[k]];
      }
      k := k + 1;
    }
    assert domains[..k] == domains;
  }

  /** deleteDomain: drops every entry with the id and reports whether the
      certificate of the (last) removed entry is to be removed. When no entry
      has the id, reading `enableHttps` of the null deletedDomain throws and
      the page is not changed. */
  method DeleteDomain(statusPage: StatusPage?, domainId: string)
    returns (r: Result<(), ServiceError>, removeCertificate: bool)
    modifies statusPage
    ensures statusPage == null ==> r == Err(PageNotFound) && !removeCertificate
    ensures statusPage != null ==>
      var deleted := LastWithId(old(statusPage.domains), domainId);
      && (deleted.None? ==> r == Err(NullDereference("enableHttps")) && !removeCertificate
                            && statusPage.domains == old(statusPage.domains))
      && (deleted.Some? ==> r == Ok(()) && statusPage.domains == WithoutId(old(statusPage.domains), domainId)
                            && (removeCertificate <==> deleted.value.enableHttps && deleted.value.autoProvisioning))
    ensures statusPage != null ==> statusPage.monitors == old(statusPage.monitors)
  {
    removeCertificate := false;
    if statusPage == null {
      return Err(PageNotFound), false;
    }
    var remainingDomains, deletedDomain := FilterDomains(statusPage.domains, domainId);
    if deletedDomain.None? {
      return Err(NullDereference("enableHttps")), false;
    }
    removeCertificate := deletedDomain.value.enableHttps && deletedDomain.value.autoProvisioning;
    statusPage.domains := remainingDomains;
    r := Ok(());
  }

  // ---------------------------------------------------------------------------
  // updateCustomDomain

  /** An entry whose verification token is `domainId` gets the first
      occurrence of `oldDomain` in its host name replaced by `newDomain`;
      the others are kept. */
  function RenamedDomains(domains: seq<Domain>, domainId: string, oldDomain: string, newDomain: string): seq<Domain>
  {
    seq(|domains|, k requires 0 <= k < |domains| =>
      if domains[k].verificationToken == Some(domainId)
      then domains[k].(domain := ReplaceFirst(domains[k].domain, oldDomain, newDomain))
      else domains[k])
  }

  /** Renaming touches only the host names of the entries with the token, and
      only where the old name occurs. */
  lemma RenamedDomainsMeaning(domains: seq<Domain>, domainId: string, oldDomain: string, newDomain: string)
    ensures |RenamedDomains(domains, domainId, oldDomain, newDomain)| == |domains|
    ensures forall k :: 0 <= k < |domains| ==>
      var d := RenamedDomains(domains, domainId, oldDomain, newDomain)[k];
      && d.(domain := domains[k].domain) == domains[k]
      && (domains[k].verificationToken != Some(domainId) || !Includes(domains[k].domain, oldDomain) ==> d == domains[k])
      && (domains[k].verificationToken == Some(domainId) && Includes(domains[k].domain, oldDomain) ==>
            exists i: nat :: OccursAt(domains[k].domain, oldDomain, i)
              && (forall j: nat :: j < i ==> !OccursAt(domains[k].domain, oldDomain, j))
              && d.domain == domains[k].domain[..i] + newDomain + domains[k].domain[i + |oldDomain|..])
  {
  }

  /** Pages are different documents. */
  predicate Distinct(statusPages: seq<StatusPage>)
  {
    forall a, b :: 0 <= a < b < |statusPages| ==> statusPages[a] != statusPages[b]
  }

  /** Some entry's verification token was populated to `null`. */
  predicate HasMissingToken(domains: seq<Domain>)
  {
    exists k :: 0 <= k < |domains| && domains[k].verificationToken.None?
  }

  /** None of the first `n` pages has an entry with a missing token. */
  ghost predicate TokensPresent(statusPages: seq<StatusPage>, n: int)
    reads statusPages
  {
    forall q :: 0 <= q < n && q < |statusPages| ==> !HasMissingToken(statusPages[q].domains)
  }

  /** One page of updateCustomDomain: the domain list is rebuilt entry by
      entry; reading `_id` of a missing token throws before anything of the
      page is saved. */
  method RenameOnPage(statusPage: StatusPage, domainId: string, newDomain: string, oldDomain: string)
    returns (ok: bool)
    modifies statusPage
    ensures ok <==> !HasMissingToken(old(statusPage.domains))
    ensures statusPage.domains ==
      if ok then RenamedDomains(old(statusPage.domains), domainId, oldDomain, newDomain)
      else old(statusPage.domains)
    ensures statusPage.monitors == old(statusPage.monitors)
  {
    var domains: seq<Domain> := [];
    var k := 0;
    while k < |statusPage.domains|
      invariant 0 <= k <= |statusPage.domains|
      invariant !HasMissingToken(statusPage.domains[..k])
      invariant domains == RenamedDomains(statusPage.domains[..k], domainId, oldDomain, newDomain)
    {
      var eachDomain := statusPage.domains[k];
      if eachDomain.verificationToken.None? {
        return false;
      }
      if eachDomain.verificationToken.value == domainId {
        eachDomain := eachDomain.(domain := ReplaceFirst(eachDomain.domain, oldDomain, newDomain));
      }
      domains := domains + [eachDomain];
      assert statusPage.domains[..k + 1] == statusPage.domains[..k] + [statusPage.domains[k]];
      k := k + 1;
    }
    assert statusPage.domains[..k] == statusPage.domains;
    if |domains| > 0 {
      statusPage.domains := domains;
    }
    ok := true;
  }

  /** updateCustomDomain: the pages the query found are visited in order and
      each gets its domain list rebuilt, renaming the entries that carry the
      token. At the first page holding an entry whose token is missing, the
      service throws: the pages before it are saved, it and the pages after
      it are not. */
  method UpdateCustomDomain(statusPages: seq<StatusPage>, domainId: string, newDomain: string, oldDomain: string)
    returns (r: Result<(), ServiceError>)
    requires Distinct(statusPages)
    modifies set p | p in statusPages
    ensures r.Ok? <==> old(TokensPresent(statusPages, |statusPages|))
    ensures r.Err? ==> r.error == NullDereference("_id")
    ensures forall p :: 0 <= p < |statusPages| ==>
      statusPages[p].domains ==
        if old(TokensPresent(statusPages, p + 1))
        then RenamedDomains(old(statusPages[p].domains), domainId, oldDomain, newDomain)
        else old(statusPages[p].domains)
    ensures forall p :: 0 <= p < |statusPages| ==> statusPages[p].monitors == old(statusPages[p].monitors)
  {
    var p := 0;
    while p < |statusPages|
      invariant 0 <= p <= |statusPages|
      invariant old(TokensPresent(statusPages, p))
      invariant forall q :: 0 <= q < p ==>
        statusPages[q].domains == RenamedDomains(old(statusPages[q].domains), domainId, oldDomain, newDomain)
      invariant forall q :: p <= q < |statusPages| ==> statusPages[q].domains == old(statusPages[q].domains)
      invariant forall q :: 0 <= q < |statusPages| ==> statusPages[q].monitors == old(statusPages[q].monitors)
    {
      label Visit:
      var ok := RenameOnPage(statusPages[p], domainId, newDomain, oldDomain);
      assert forall q :: 0 <= q < |statusPages| && q != p ==>
        statusPages[q].domains == old@Visit(statusPages[q].domains)
        && statusPages[q].monitors == old@Visit(statusPages[q].monitors);
      if !ok {
        assert old(HasMissingToken(statusPages[p].domains));
        return Err(NullDereference("_id"));
      }
      p := p + 1;
    }
    r := Ok(());
  }

  // ---------------------------------------------------------------------------
  // updateDomain

  /** The values updateDomain writes into the entry it edits. */
  datatype DomainUpdate = DomainUpdate(
    newDomain: string,
    cert: string,
    privateKey: string,
    enableHttps: bool,
    autoProvisioning: bool,
    token: string)

  /** The entry with its fields overwritten. */
  function Apply(d: Domain, u: DomainUpdate): Domain
  {
    d.(domain := u.newDomain, cert := u.cert, privateKey := u.privateKey,
       enableHttps := u.enableHttps, autoProvisioning := u.autoProvisioning,
       verificationToken := Some(u.token))
  }

  /** An entry with the id whose host name would change. */
  predicate Renames(domains: seq<Domain>, domainId: string, newDomain: string)
  {
    exists k :: 0 <= k < |domains| && domains[k].id == domainId && domains[k].domain != newDomain
  }

  /** The domain list updateDomain saves: rejected when an entry with the id
      would change its host name to one already in use; otherwise every entry
      with the id overwritten. */
  function DomainsAfterUpdate(domains: seq<Domain>, domainId: string, u: DomainUpdate, newDomainTaken: bool)
    : (r: Result<seq<Domain>, ServiceError>)
    ensures r.Err? <==> newDomainTaken && Renames(domains, domainId, u.newDomain)
    ensures r.Err? ==> r.error == CustomDomainTaken(u.newDomain)
    ensures r.Ok? ==> |r.value| == |domains|
    ensures r.Ok? ==> forall k :: 0 <= k < |domains| ==>
      r.value[k] == if domains[k].id == domainId then Apply(domains[k], u) else domains[k]
  {
    if newDomainTaken && exists k :: 0 <= k < |domains| && domains[k].id == domainId && domains[k].domain != u.newDomain
    then Err(CustomDomainTaken(u.newDomain))
    else Ok(seq(|domains|, k requires 0 <= k < |domains| =>
                  if domains[k].id == domainId then Apply(domains[k], u) else domains[k]))
  }

  /** Keeping the host name of an entry never meets the in-use check. */
  lemma UpdateKeepingName(domains: seq<Domain>, domainId: string, u: DomainUpdate, newDomainTaken: bool)
    requires forall k :: 0 <= k < |domains| && domains[k].id == domainId ==> domains[k].domain == u.newDomain
    ensures DomainsAfterUpdate(domains, domainId, u, newDomainTaken).Ok?
  {
  }

  /** updateDomain: creates the verification token for the new host name when
      none exists, looks the page up, and overwrites the entry with the id;
      when the new host name is another one already in use
      (`newDomainTaken`, the doesDomainExist lookup) it stops and throws
      without saving. A certificate is requested for an overwritten entry
      when HTTPS is auto-provisioned and the store holds none. */
  method UpdateDomain(statusPage: StatusPage?, domainId: string, newDomain: string, cert: string,
                      privateKey: string, enableHttps: bool, autoProvisioning: bool,
                      existingToken: Option<string>, createdToken: string,
                      newDomainTaken: bool, certificateExists: bool)
    returns (r: Result<(), ServiceError>, certificateRequested: bool)
    modifies statusPage
    ensures statusPage == null ==> r == Err(PageNotFound) && !certificateRequested
    ensures statusPage != null ==>
      var u := DomainUpdate(newDomain, cert, privateKey, enableHttps, autoProvisioning,
                            TokenFor(existingToken, createdToken));
      var after := DomainsAfterUpdate(old(statusPage.domains), domainId, u, newDomainTaken);
      && (after.Err? ==> r == Err(after.error) && statusPage.domains == old(statusPage.domains))
      && (after.Ok? ==> r == Ok(()) && statusPage.domains == after.value
                        && (certificateRequested <==>
                              (autoProvisioning && enableHttps && !certificateExists
                               && exists k :: 0 <= k < |after.value| && old(statusPage.domains)[k].id == domainId)))
    ensures statusPage != null ==> statusPage.monitors == old(statusPage.monitors)
  {
    certificateRequested := false;
    var u := DomainUpdate(newDomain, cert, privateKey, enableHttps, autoProvisioning,
                          TokenFor(existingToken, createdToken));
    if statusPage == null {
      return Err(PageNotFound), false;
    }
    var doesDomainExist := false;
    var domainList := statusPage.domains;
    var updatedDomainList: seq<Domain> := [];
    var k := 0;
    while k < |domainList|
      invariant 0 <= k <= |domainList|
      invariant !doesDomainExist
      invariant !(newDomainTaken && Renames(domainList[..k], domainId, newDomain))
      invariant |updatedDomainList| == k
      invariant forall j :: 0 <= j < k ==>
        updatedDomainList[j] == if domainList[j].id == domainId then Apply(domainList[j], u) else domainList[j]
      invariant certificateRequested <==>
        (autoProvisioning && enableHttps && !certificateExists && exists j :: 0 <= j < k && domainList[j].id == domainId)
    {
      var eachDomain := domainList[k];
      if eachDomain.id == domainId {
        if eachDomain.domain != newDomain {
          doesDomainExist := newDomainTaken;
        }
        if doesDomainExist {
          break;
        }
        eachDomain := Apply(eachDomain, u);
        if autoProvisioning && enableHttps && !certificateExists {
          certificateRequested := true;
        }
      }
      updatedDomainList := updatedDomainList + [eachDomain];
      assert domainList[..k + 1] == domainList[..k] + [domainList[k]];
      k := k + 1;
    }
    if doesDomainExist {
      assert Renames(domainList, domainId, newDomain);
      return Err(CustomDomainTaken(newDomain)), false;
    }
    assert domainList[..k] == domainList;
    statusPage.domains := updatedDomainList;
    r := Ok(());
  }

  // ---------------------------------------------------------------------------
  // removeMonitor

  /** The monitor entries for other monitors, in their order: removeMonitor's
      filter as evidently intended, comparing monitor ids (the filter as
      written is WithoutMonitorAsWritten below). */
  function WithoutMonitor(monitors: seq<MonitorRef>, monitorId: string): (r: seq<MonitorRef>)
    ensures |r| <= |monitors|
    ensures forall m :: m in r <==> m in monitors && m.monitor != monitorId
  {
    if |monitors| == 0 then []
    else
      var rest := WithoutMonitor(monitors[..|monitors| - 1], monitorId);
      var last := monitors[|monitors| - 1];
      assert monitors == monitors[..|monitors| - 1] + [last];
      if last.monitor == monitorId then rest else rest + [last]
  }

  /** Some entry of the list is for the monitor. */
  predicate ListsMonitor(monitors: seq<MonitorRef>, monitorId: string)
  {
    exists k :: 0 <= k < |monitors| && monitors[k].monitor == monitorId
  }

  /** The filter is shorter exactly when the monitor was on the page, and
      equal to the list otherwise. */
  lemma WithoutMonitorLength(monitors: seq<MonitorRef>, monitorId: string)
    ensures |WithoutMonitor(monitors, monitorId)| == |monitors| <==> !ListsMonitor(monitors, monitorId)
    ensures |WithoutMonitor(monitors, monitorId)| == |monitors| ==> WithoutMonitor(monitors, monitorId) == monitors
  {
    if !ListsMonitor(monitors, monitorId) {
      WithoutAbsentMonitor(monitors, monitorId);
    } else {
      WithoutListedMonitor(monitors, monitorId);
    }
  }

  lemma {:induction false} WithoutAbsentMonitor(monitors: seq<MonitorRef>, monitorId: string)
    requires !ListsMonitor(monitors, monitorId)
    ensures WithoutMonitor(monitors, monitorId) == monitors
  {
    if |monitors| > 0 {
      var init := monitors[..|monitors| - 1];
      assert !ListsMonitor(init, monitorId) by {
        forall k | 0 <= k < |init|
          ensures init[k].monitor != monitorId
        {
          assert init[k] == monitors[k];
        }
      }
      WithoutAbsentMonitor(init, monitorId);
      assert monitors == init + [monitors[|monitors| - 1]];
    }
  }

  lemma {:induction false} WithoutListedMonitor(monitors: seq<MonitorRef>, monitorId: string)
    requires ListsMonitor(monitors, monitorId)
    ensures |WithoutMonitor(monitors, monitorId)| < |monitors|
  {
    var init := monitors[..|monitors| - 1];
    if monitors[|monitors| - 1].monitor != monitorId {
      var k :| 0 <= k < |monitors| && monitors[k].monitor == monitorId;
      assert init[k] == monitors[k];
      WithoutListedMonitor(init, monitorId);
    }
  }

  /** One page of removeMonitor: the filtered list is stored only when it is
      shorter, which is exactly when the monitor was on the page. */
  method RemoveMonitorFromPage(statusPage: StatusPage, monitorId: string) returns (changed: bool)
    modifies statusPage
    ensures statusPage.monitors == WithoutMonitor(old(statusPage.monitors), monitorId)
    ensures statusPage.domains == old(statusPage.domains)
    ensures changed <==> ListsMonitor(old(statusPage.monitors), monitorId)
  {
    var monitors := WithoutMonitor(statusPage.monitors, monitorId);
    WithoutMonitorLength(statusPage.monitors, monitorId);
    changed := |monitors| != |statusPage.monitors|;
    if changed {
      statusPage.monitors := monitors;
    }
  }

  /** removeMonitor: every page the query found loses its entries for the
      monitor; a page is written back only when its list got shorter. The
      indices of the written pages are returned. */
  method RemoveMonitor(statusPages: seq<StatusPage>, monitorId: string) returns (written: seq<int>)
    requires Distinct(statusPages)
    modifies set p | p in statusPages
    ensures forall p :: 0 <= p < |statusPages| ==>
      statusPages[p].monitors == WithoutMonitor(old(statusPages[p].monitors), monitorId)
    ensures forall p :: 0 <= p < |statusPages| ==> statusPages[p].domains == old(statusPages[p].domains)
    ensures forall p :: p in written <==>
      0 <= p < |statusPages| && ListsMonitor(old(statusPages[p].monitors), monitorId)
  {
    written := [];
    var p := 0;
    while p < |statusPages|
      invariant 0 <= p <= |statusPages|
      invariant forall q :: 0 <= q < p ==>
        statusPages[q].monitors == WithoutMonitor(old(statusPages[q].monitors), monitorId)
      invariant forall q :: p <= q < |statusPages| ==> statusPages[q].monitors == old(statusPages[q].monitors)
      invariant forall q :: 0 <= q < |statusPages| ==> statusPages[q].domains == old(statusPages[q].domains)
      invariant forall q :: q in written <==> 0 <= q < p && ListsMonitor(old(statusPages[q].monitors), monitorId)
    {
      label Visit:
      var changed := RemoveMonitorFromPage(statusPages[p], monitorId);
      assert forall q :: 0 <= q < |statusPages| && q != p ==>
        statusPages[q].monitors == old@Visit(statusPages[q].monitors)
        && statusPages[q].domains == old@Visit(statusPages[q].domains);
      if changed {
        written := written + [p];
      }
      p := p + 1;
    }
  }

  // ---------------------------------------------------------------------------
  // removeMonitor as written

  /** An entry of `statusPage.monitors` as the page query returns it: the
      query populates `monitors.monitor`, so the entry holds the monitor
      document (shown by its id) or `null` when that document is gone. */
  datatype PopulatedMonitorRef = PopulatedMonitorRef(monitor: Option<string>, description: string)

  /** `String(…)` of the populated field: a plain object prints as
      "[object Object]" and `null` as "null". */
  function MonitorText(monitor: Option<string>): string
  {
    if monitor.None? then "null" else "[object Object]"
  }

  /** The text of an ObjectId: 24 lower-case hexadecimal digits. */
  predicate IsObjectIdText(s: string)
  {
    |s| == 24 && forall i :: 0 <= i < |s| ==> IsHexDigit(s[i])
  }

  predicate IsHexDigit(c: char)
  {
    '0' <= c <= '9' || 'a' <= c <= 'f'
  }

  /** removeMonitor's filter as written: it keeps the entries whose
      populated field does not print as the monitor id. */
  function WithoutMonitorAsWritten(monitors: seq<PopulatedMonitorRef>, monitorId: string): (r: seq<PopulatedMonitorRef>)
    ensures |r| <= |monitors|
    ensures forall m :: m in r <==> m in monitors && MonitorText(m.monitor) != monitorId
  {
    if |monitors| == 0 then []
    else
      var rest := WithoutMonitorAsWritten(monitors[..|monitors| - 1], monitorId);
      var last := monitors[|monitors| - 1];
      assert monitors == monitors[..|monitors| - 1] + [last];
      if MonitorText(last.monitor) == monitorId then rest else rest + [last]
  }

  /** As written the filter keeps every entry for any ObjectId, so the
      length test never sees a shorter list and no page is saved. */
  lemma {:induction false} AsWrittenRemovesNothing(monitors: seq<PopulatedMonitorRef>, monitorId: string)
    requires IsObjectIdText(monitorId)
    ensures WithoutMonitorAsWritten(monitors, monitorId) == monitors
  {
    if |monitors| > 0 {
      var last := monitors[|monitors| - 1];
      assert MonitorText(last.monitor) != monitorId by {
        var text := MonitorText(last.monitor);
        assert text[0] == '[' || text[0] == 'n';
        assert IsHexDigit(monitorId[0]);
      }
      AsWrittenRemovesNothing(monitors[..|monitors| - 1], monitorId);
      assert monitors == monitors[..|monitors| - 1] + [last];
    }
  }

  /** A page listing the monitor once: as written the entry stays, while
      comparing the monitor ids drops it. */
  lemma AsWrittenKeepsListedMonitor()
    ensures var id := "5f1a2b3c4d5e6f7a8b9c0d1e";
      && IsObjectIdText(id)
      && WithoutMonitorAsWritten([PopulatedMonitorRef(Some(id), "")], id) == [PopulatedMonitorRef(Some(id), "")]
      && ListsMonitor([MonitorRef(id, "")], id)
      && WithoutMonitor([MonitorRef(id, "")], id) == []
  {
    var id := "5f1a2b3c4d5e6f7a8b9c0d1e";
    assert IsObjectIdText(id);
    AsWrittenRemovesNothing([PopulatedMonitorRef(Some(id), "")], id);
    assert [MonitorRef(id, "")][0].monitor == id;
  }
}
