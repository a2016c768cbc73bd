/** Browser tab ownership: browser/bridge/src/policy.ts and extension/browser/src/index.ts.

    Each operation is one step, and the controller and its ownership registry read the same clock.
 */
module TabController {
  import opened Wrappers

  datatype Ownership = Human | Tetherplane | SharedObserve | SharedAuthorized

  datatype Operation =
    | Status | Pages | Snapshot | Navigate | Close | Act | Wait | Upload | Downloads | Diagnostics | Checkpoint

  const OBSERVE_OPERATIONS: set<Operation> := {Status, Pages, Snapshot, Wait, Downloads, Diagnostics, Checkpoint}

  /** A stored expiry may be any number, or missing; `Invalid` is not a number or minus infinity. */
  datatype Expiry = Missing | At(ms: int) | PlusInfinity | Invalid

  datatype Grant = Grant(operations: set<Operation>, expiresAt: Expiry)

  datatype OwnershipRecord = OwnershipRecord(ownership: Ownership, active: bool, grant: Option<Grant>)

  datatype ErrorCode = InvalidArguments | PermissionDenied | UnknownPage | MissingTab | AdapterFailure

  /** The registry lets a missing expiry and an infinite one pass. */
  predicate Unexpired(expiry: Expiry, now: int) {
    expiry.Missing? || expiry.PlusInfinity? || (expiry.At? && expiry.ms > now)
  }

  predicate Authorizes(r: OwnershipRecord, operation: Operation, now: int) {
    || r.ownership == Tetherplane
    || operation in OBSERVE_OPERATIONS
    || (&& r.ownership == SharedAuthorized
        && r.grant.Some? && operation in r.grant.value.operations
        && Unexpired(r.grant.value.expiresAt, now))
  }

  class OwnershipRegistry {
    var pages: map<PageId, OwnershipRecord>

    constructor ()
      ensures pages == map[]
    {
      pages := map[];
    }

    method Register(page: PageId, record: OwnershipRecord)
      modifies this
      ensures pages == old(pages)[page := record]
    {
      pages := pages[page := record];
    }

    /** Owned pages allow everything, any known page allows observing, and a shared page allows
        what an unexpired grant names. */
    method Authorize(page: PageId, operation: Operation, now: int) returns (r: Result<OwnershipRecord, ErrorCode>)
      ensures r.Ok? <==> page in pages && Authorizes(pages[page], operation, now)
      ensures r.Ok? ==> r.value == pages[page]
      ensures r == Err(InvalidArguments) <==> page !in pages
    {
      if page !in pages {
        return Err(InvalidArguments);
      }
      var record := pages[page];
      if record.ownership == Tetherplane {
        return Ok(record);
      }
      if operation in OBSERVE_OPERATIONS {
        return Ok(record);
      }
      if record.ownership == SharedAuthorized && record.grant.Some? && operation in record.grant.value.operations {
        var expiry := record.grant.value.expiresAt;
        if expiry == Missing || expiry == PlusInfinity || (expiry.At? && expiry.ms > now) {
          return Ok(record);
        }
      }
      return Err(PermissionDenied);
    }
  }

  // ---------- Page records ----------

  /** The page id `tab:<n>` of a tab number. */
  datatype PageId = PageOf(tab: int)

  datatype Tab = Tab(id: int, window: int, url: string, active: bool)

  datatype PageRecord = PageRecord(
    window: int, url: string, active: bool, ownership: Ownership, grant: Option<Grant>)

  function Projected(r: PageRecord): OwnershipRecord {
    OwnershipRecord(r.ownership, r.active, r.grant)
  }

  predicate Expired(r: PageRecord, now: int) {
    r.ownership == SharedAuthorized
    && (r.grant.None? || !r.grant.value.expiresAt.At? || r.grant.value.expiresAt.ms <= now)
  }

  /** A page shared without a grant that is still running. */
  predicate Lapsed(r: PageRecord, now: int) {
    && r.ownership == SharedAuthorized
    && !(r.grant.Some? && r.grant.value.expiresAt.At? && now < r.grant.value.expiresAt.ms)
  }

  /** Demotion gives a lapsed page back to the human and leaves every other as it is. */
  lemma DemotedMeans(r: PageRecord, now: int)
    ensures var d := Demoted(r, now);
            && d.window == r.window && d.url == r.url && d.active == r.active
            && (if Lapsed(r, now) then d.ownership == Human && d.grant.None?
                else d.ownership == r.ownership && d.grant == r.grant)
  {}

  /** The page's owner or its running grant allows this change. */
  predicate MayMutate(r: PageRecord, operation: Operation, now: int) {
    || r.ownership == Tetherplane
    || (&& r.ownership == SharedAuthorized && r.grant.Some? && operation in r.grant.value.operations
        && r.grant.value.expiresAt.At? && now < r.grant.value.expiresAt.ms)
  }

  function Demoted(r: PageRecord, now: int): PageRecord {
    if Expired(r, now) then r.(ownership := Human, grant := None) else r
  }

  /** The record of a page whose tab now shows something else. */
  function Moved(r: PageRecord, tab: Tab): PageRecord {
    r.(url := tab.url, active := tab.active, window := tab.window)
  }

  function AllDemoted(pages: map<PageId, PageRecord>, now: int): map<PageId, PageRecord> {
    map p | p in pages :: Demoted(pages[p], now)
  }

  /** What an open tab is tracked as when the controller starts from a saved state. */
  function RestoredRecord(tab: Tab, saved: map<PageId, PageRecord>, now: int): PageRecord {
    if PageOf(tab.id) in saved && !Expired(saved[PageOf(tab.id)], now)
    then PageRecord(tab.window, tab.url, tab.active, saved[PageOf(tab.id)].ownership, saved[PageOf(tab.id)].grant)
    else PageRecord(tab.window, tab.url, tab.active, Human, None)
  }

  function RestoredPages(tabs: seq<Tab>, saved: map<PageId, PageRecord>, now: int): map<PageId, PageRecord> {
    if tabs == [] then map[]
    else
      var last := tabs[|tabs| - 1];
      RestoredPages(tabs[..|tabs| - 1], saved, now)[PageOf(last.id) := RestoredRecord(last, saved, now)]
  }

  /** A mutating call on the browser, with the ownership of the page when it was made. */
  datatype TabCall = TabCall(operation: Operation, page: PageId, at: int, owner: PageRecord)

  predicate Permitted(c: TabCall) {
    MayMutate(c.owner, c.operation, c.at)
  }

  // ---------- The controller ----------

  class ExtensionTabController {
    const ownership: OwnershipRegistry
    var pages: map<PageId, PageRecord>
    /** The persistent store, and every update or removal asked of the browser. */
    var saved: map<PageId, PageRecord>
    var calls: seq<TabCall>

    /** Every tracked page is known to the ownership registry with the same owner and grant, and
        the browser was only ever asked for what was permitted. */
    ghost predicate Valid()
      reads this, ownership
    {
      && (forall p | p in pages :: p in ownership.pages && ownership.pages[p] == Projected(pages[p]))
      && (forall c | c in calls :: Permitted(c))
    }

    constructor ()
      ensures Valid() && pages == map[] && saved == map[] && calls == []
    {
      ownership := new OwnershipRegistry();
      pages, saved, calls := map[], map[], [];
    }

    /** No page was lost or changed, but for expired grants taken away. */
    ghost predicate KeptOrDemoted(before: map<PageId, PageRecord>, now: int)
      reads this`pages
    {
      forall p | p in before :: p in pages && (pages[p] == before[p] || pages[p] == Demoted(before[p], now))
    }

    method Record(page: PageId, record: PageRecord)
      requires Valid()
      modifies this`pages, ownership
      ensures Valid() && pages == old(pages)[page := record]
    {
      pages := pages[page := record];
      ownership.Register(page, OwnershipRecord(record.ownership, record.active, record.grant));
    }

    /** Looking a page up first takes away an expired grant, in both maps. */
    method RequirePage(page: PageId, now: int) returns (r: Option<PageRecord>)
      requires Valid()
      modifies this`pages, ownership
      ensures Valid()
      ensures r.None? <==> page !in old(pages)
      ensures r.None? ==> pages == old(pages)
      ensures r.Some? ==> r.value == Demoted(old(pages)[page], now) && pages == old(pages)[page := r.value]
    {
      if page !in pages {
        return None;
      }
      var record := pages[page];
      if Expired(record, now) {
        record := record.(ownership := Human, grant := None);
        Record(page, record);
      }
      assert pages == old(pages)[page := record];
      return Some(record);
    }

    method Persist(now: int)
      requires Valid()
      modifies this`pages, this`saved, ownership
      ensures Valid() && pages == AllDemoted(old(pages), now) && saved == pages
    {
      var left: set<PageId> := pages.Keys;
      while left != {}
        invariant Valid() && left <= pages.Keys == old(pages).Keys
        invariant forall p | p in pages ::
          pages[p] == if p in left then old(pages)[p] else Demoted(old(pages)[p], now)
        decreases left
      {
        var p :| p in left;
        left := left - {p};
        var _ := RequirePage(p, now);
      }
      assert left == {};
      assert pages == AllDemoted(old(pages), now);
      saved := pages;
    }

    /** Tracks exactly the open tabs, each with its saved ownership if that has not expired. */
    method Initialize(tabs: seq<Tab>, now: int)
      requires Valid()
      modifies this`pages, this`saved, ownership
      ensures Valid() && pages == RestoredPages(tabs, old(saved), now) && saved == pages
    {
      var persisted := saved;
      pages := map[];
      for i := 0 to |tabs|
        invariant Valid() && saved == persisted
        invariant pages == RestoredPages(tabs[..i], persisted, now)
      {
        assert tabs[..i + 1][..i] == tabs[..i];
        Record(PageOf(tabs[i].id), RestoredRecord(tabs[i], persisted, now));
      }
      assert tabs[..|tabs|] == tabs;
      RestoredAreUnexpired(tabs, persisted, now);
      Persist(now);
    }

    method CreateOwnedTab(tab: Option<Tab>, now: int) returns (r: Result<PageRecord, ErrorCode>)
      requires Valid()
      modifies this`pages, this`saved, ownership
      ensures Valid() && (r.Ok? <==> tab.Some?) && (r.Err? ==> r.error == AdapterFailure)
      ensures r.Ok? ==>
        && r.value == PageRecord(tab.value.window, tab.value.url, false, Tetherplane, None)
        && pages == AllDemoted(old(pages)[PageOf(tab.value.id) := r.value], now) && saved == pages
      ensures r.Err? ==> pages == old(pages) && saved == old(saved)
    {
      if tab.None? {
        return Err(AdapterFailure);
      }
      var record := PageRecord(tab.value.window, tab.value.url, false, Tetherplane, None);
      Record(PageOf(tab.value.id), record);
      Persist(now);
      return Ok(record);
    }

    /** `updated` is what the browser answers, if it does. */
    method NavigateTo(page: PageId, updated: Option<Tab>, now: int) returns (r: Result<PageRecord, ErrorCode>)
      requires Valid()
      modifies this, ownership
      ensures Valid()
      ensures old(calls) <= calls && |calls| <= |old(calls)| + 1
      ensures |calls| > |old(calls)|
         <==> page in old(pages) && MayMutate(old(pages)[page], Navigate, now)
      ensures |calls| > |old(calls)| ==>
        calls[|old(calls)|] == TabCall(Navigate, page, now, Demoted(old(pages)[page], now))
      ensures r.Ok? <==> |calls| > |old(calls)| && updated.Some?
      ensures r == Err(UnknownPage) <==> page !in old(pages)
      ensures r == Err(PermissionDenied) <==> page in old(pages) && |calls| == |old(calls)|
      ensures r == Err(AdapterFailure) <==> |calls| > |old(calls)| && updated.None?
      ensures saved == if r.Ok? then pages else old(saved)
      ensures r.Ok? ==>
        && r.value.url == updated.value.url && r.value.window == updated.value.window
        && r.value.active == updated.value.active
        && r.value.ownership == old(pages)[page].ownership && r.value.grant == old(pages)[page].grant
        && pages == AllDemoted(old(pages)[page := r.value], now)
      ensures r.Err? ==> KeptOrDemoted(old(pages), now)
    {
      var found := RequirePage(page, now);
      if found.None? {
        return Err(UnknownPage);
      }
      var allowed := ownership.Authorize(page, Navigate, now);
      if allowed.Err? {
        return Err(PermissionDenied);
      }
      calls := calls + [TabCall(Navigate, page, now, found.value)];
      if updated.None? {
        return Err(AdapterFailure);
      }
      var record := Moved(found.value, updated.value);
      Record(page, record);
      assert pages == old(pages)[page := record];
      Persist(now);
      return Ok(record);
    }

    method CloseTab(page: PageId, removed: bool, now: int) returns (r: Result<(), ErrorCode>)
      requires Valid()
      modifies this, ownership
      ensures Valid()
      ensures old(calls) <= calls && |calls| <= |old(calls)| + 1
      ensures |calls| > |old(calls)|
         <==> page in old(pages) && MayMutate(old(pages)[page], Close, now)
      ensures |calls| > |old(calls)| ==>
        calls[|old(calls)|] == TabCall(Close, page, now, Demoted(old(pages)[page], now))
      ensures r.Ok? <==> |calls| > |old(calls)| && removed
      ensures r == Err(UnknownPage) <==> page !in old(pages)
      ensures r == Err(PermissionDenied) <==> page in old(pages) && |calls| == |old(calls)|
      ensures r == Err(AdapterFailure) <==> |calls| > |old(calls)| && !removed
      ensures saved == if r.Ok? then pages else old(saved)
      ensures r.Ok? ==> pages == AllDemoted(old(pages) - {page}, now)
      ensures r.Err? ==> KeptOrDemoted(old(pages), now)
    {
      var found := RequirePage(page, now);
      if found.None? {
        return Err(UnknownPage);
      }
      var allowed := ownership.Authorize(page, Close, now);
      if allowed.Err? {
        return Err(PermissionDenied);
      }
      calls := calls + [TabCall(Close, page, now, found.value)];
      if !removed {
        return Err(AdapterFailure);
      }
      pages := pages - {page};
      assert pages == old(pages) - {page};
      Persist(now);
      return Ok(());
    }

    method AttachHumanTab(tab: Option<Tab>, operations: set<Operation>, ttl: int, now: int)
        returns (r: Result<PageRecord, ErrorCode>)
      requires Valid()
      modifies this`pages, this`saved, ownership
      ensures Valid()
      ensures r.Ok? <==> 0 < ttl <= 3_600_000 && tab.Some?
      ensures r == Err(InvalidArguments) <==> !(0 < ttl <= 3_600_000)
      ensures r == Err(MissingTab) <==> 0 < ttl <= 3_600_000 && tab.None?
      ensures r.Ok? ==>
        && r.value == PageRecord(tab.value.window, tab.value.url, tab.value.active, SharedAuthorized,
                                 Some(Grant(operations, At(now + ttl))))
        && (forall operation, later :: MayMutate(r.value, operation, later)
                                       <==> operation in operations && later < now + ttl)
        && PageOf(tab.value.id) in pages && pages[PageOf(tab.value.id)] == r.value
        && pages == AllDemoted(old(pages)[PageOf(tab.value.id) := r.value], now) && saved == pages
      ensures r.Err? ==> pages == old(pages) && saved == old(saved)
    {
      if ttl <= 0 || ttl > 3_600_000 {
        return Err(InvalidArguments);
      }
      if tab.None? {
        return Err(MissingTab);
      }
      var grant := Grant(operations, At(now + ttl));
      var record := PageRecord(tab.value.window, tab.value.url, tab.value.active, SharedAuthorized, Some(grant));
      Record(PageOf(tab.value.id), record);
      Persist(now);
      return Ok(record);
    }

    method DetachHumanTab(tab: Option<Tab>, now: int) returns (r: Result<PageRecord, ErrorCode>)
      requires Valid()
      modifies this`pages, this`saved, ownership
      ensures Valid() && (r.Ok? <==> tab.Some?) && (r.Err? ==> r.error == MissingTab)
      ensures r.Ok? ==>
        && r.value == PageRecord(tab.value.window, tab.value.url, tab.value.active, Human, None)
        && pages == AllDemoted(old(pages)[PageOf(tab.value.id) := r.value], now) && saved == pages
      ensures r.Err? ==> pages == old(pages) && saved == old(saved)
    {
      if tab.None? {
        return Err(MissingTab);
      }
      var record := PageRecord(tab.value.window, tab.value.url, tab.value.active, Human, None);
      Record(PageOf(tab.value.id), record);
      Persist(now);
      return Ok(record);
    }
  }

  // ---------- Restarts ----------

  lemma {:induction false} RestoredAreUnexpired(tabs: seq<Tab>, saved: map<PageId, PageRecord>, now: int)
    ensures forall p | p in RestoredPages(tabs, saved, now) :: !Expired(RestoredPages(tabs, saved, now)[p], now)
    ensures AllDemoted(RestoredPages(tabs, saved, now), now) == RestoredPages(tabs, saved, now)
  {
    if tabs != [] {
      RestoredAreUnexpired(tabs[..|tabs| - 1], saved, now);
    }
  }

  lemma {:induction false} RestoredFromTabs(tabs: seq<Tab>, saved: map<PageId, PageRecord>, now: int, id: PageId)
    ensures id in RestoredPages(tabs, saved, now) <==> exists i :: 0 <= i < |tabs| && PageOf(tabs[i].id) == id
    ensures id in RestoredPages(tabs, saved, now) ==>
      exists i :: 0 <= i < |tabs| && PageOf(tabs[i].id) == id
                  && RestoredPages(tabs, saved, now)[id] == RestoredRecord(tabs[i], saved, now)
  {
    if tabs != [] {
      RestoredFromTabs(tabs[..|tabs| - 1], saved, now, id);
      assert forall i | 0 <= i < |tabs| - 1 :: tabs[..|tabs| - 1][i] == tabs[i];
    }
  }

  predicate ShowsTab(r: PageRecord, tab: Tab) {
    r.window == tab.window && r.url == tab.url && r.active == tab.active
  }

  /** Saving and starting again later keeps exactly the unexpired non-human ownership of the
      tabs that are still open: same owner, same grant; every other open tab is a human's. */
  lemma RestartRestoresOwnership(pages: map<PageId, PageRecord>, savedAt: int, tabs: seq<Tab>, now: int, id: PageId)
    requires savedAt <= now
    ensures var after := RestoredPages(tabs, AllDemoted(pages, savedAt), now);
            && (id in after <==> exists i :: 0 <= i < |tabs| && PageOf(tabs[i].id) == id)
            && (id in after ==>
                  (after[id].ownership != Human
                   <==> id in pages && pages[id].ownership != Human && !Lapsed(pages[id], now)))
            && (id in after && (id in pages ==> Lapsed(pages[id], now)) ==>
                  after[id].ownership == Human && after[id].grant.None?)
            && (id in after ==> exists i :: 0 <= i < |tabs| && PageOf(tabs[i].id) == id && ShowsTab(after[id], tabs[i]))
            && (id in after && after[id].ownership != Human ==>
                  after[id].ownership == pages[id].ownership && after[id].grant == pages[id].grant)
  {
    var saved := AllDemoted(pages, savedAt);
    RestoredFromTabs(tabs, saved, now, id);
    if id in RestoredPages(tabs, saved, now) {
      var i :| 0 <= i < |tabs| && PageOf(tabs[i].id) == id
               && RestoredPages(tabs, saved, now)[id] == RestoredRecord(tabs[i], saved, now);
      assert id in pages && Expired(pages[id], savedAt) ==> Expired(pages[id], now);
      assert ShowsTab(RestoredPages(tabs, saved, now)[id], tabs[i]);
    }
  }

  /** After a demotion the registry, which lets a missing or infinite expiry pass, allows a change
      exactly if the page's owner or its running grant did before. */
  lemma DemotedAuthorizesOnlyPermitted(r: PageRecord, operation: Operation, now: int)
    requires operation in {Navigate, Close, Act, Upload}
    ensures Authorizes(Projected(Demoted(r, now)), operation, now) <==> MayMutate(r, operation, now)
  {}
}
