/** Foreground leases on the pointer: agent/providers/desktop/src/foreground_lease.rs and the
    operations of agent/providers/desktop/src/lib.rs that use them.

    Each provider operation is one step; the clock never runs backwards.  Whether a physical
    call succeeds is up to the environment.
 */
module ForegroundLease {
  import opened Wrappers

  const MAX_FOREGROUND_LEASE_TTL_MS: nat := 120_000
  const CURSOR_TARGET := "pointer"
  const CURSOR_MOVE := "desktop.physical_pointer_move"

  datatype ErrorCode = InvalidArguments | PermissionDenied | ForegroundLeaseRequired | HumanActive | ProviderFailure

  datatype Point = Point(x: int, y: int)

  datatype RestorationStatus = NotRequired | Armed | Pending | Restored

  datatype ForegroundLease = ForegroundLease(
    principal: string,
    target: string,
    capabilities: set<string>,
    issuedAt: nat,
    expiresAt: nat,
    restorationRequired: bool,
    baseline: Option<Point>,
    releasedAt: Option<nat>,
    status: RestorationStatus,
    restoredAt: Option<nat>)

  /** What the driver was told to do to the physical pointer under one lease, and whether it did. */
  datatype Physical = Moved(at: nat, to: Point, ok: bool) | RestoreTried(at: nat, cursor: Point, ok: bool)

  datatype Track = Track(lease: ForegroundLease, log: seq<Physical>)

  // ---------- One operation on one lease ----------

  function ExpireIfNeeded(l: ForegroundLease, now: nat): ForegroundLease {
    if l.releasedAt.None? && now >= l.expiresAt
    then l.(releasedAt := Some(now), status := if l.restorationRequired then Pending else l.status)
    else l
  }

  function Freed(l: ForegroundLease, now: nat): ForegroundLease {
    if l.releasedAt.None?
    then l.(releasedAt := Some(now), status := if l.restorationRequired then Pending else l.status)
    else l
  }

  function MarkedRestored(l: ForegroundLease, now: nat): ForegroundLease {
    if l.restorationRequired then l.(status := Restored, restoredAt := Some(now)) else l
  }

  /** Puts the pointer back where it was, if that is still owed. */
  function RestoreIfPending(t: Track, now: nat, restoreOk: bool): Track {
    if t.lease.status != Pending then t
    else if t.lease.baseline.Some? then
      var log := t.log + [RestoreTried(now, t.lease.baseline.value, restoreOk)];
      if restoreOk then Track(MarkedRestored(t.lease, now), log) else t.(log := log)
    else Track(MarkedRestored(t.lease, now), t.log)
  }

  /** The restore was attempted and failed, so the operation stops there. */
  predicate RestoreFails(t: Track, restoreOk: bool) {
    t.lease.status == Pending && t.lease.baseline.Some? && !restoreOk
  }

  predicate Authorized(l: ForegroundLease, principal: Option<string>, target: string, capability: string) {
    l.releasedAt.None? && principal == Some(l.principal) && l.target == target && capability in l.capabilities
  }

  datatype Op =
    | Get(human: bool, principal: Option<string>)
    | Release(human: bool, principal: Option<string>)
    | Move(principal: Option<string>, target: string, humanIdle: bool, to: Option<Point>, moveOk: bool)

  datatype Event = Event(op: Op, now: nat, restoreOk: bool)

  function Step(t: Track, e: Event): Track {
    var seen := t.(lease := ExpireIfNeeded(t.lease, e.now));
    match e.op
    case Get(human, principal) =>
      if human || principal == Some(t.lease.principal) then RestoreIfPending(seen, e.now, e.restoreOk) else seen
    case Release(human, principal) =>
      if human || principal == Some(t.lease.principal)
      then RestoreIfPending(seen.(lease := Freed(seen.lease, e.now)), e.now, e.restoreOk)
      else seen
    case Move(principal, target, humanIdle, to, moveOk) =>
      var restored := RestoreIfPending(seen, e.now, e.restoreOk);
      var allowed := !RestoreFails(seen, e.restoreOk) && Authorized(restored.lease, principal, target, CURSOR_MOVE);
      if allowed && humanIdle && to.Some?
      then restored.(log := restored.log + [Moved(e.now, to.value, moveOk)])
      else restored
  }

  // ---------- The store and the provider ----------

  class DesktopProvider {
    var leases: map<string, ForegroundLease>
    /** Calls made to the physical executor, by the lease they were made under. */
    var physical: map<string, seq<Physical>>

    ghost predicate Valid()
      reads this
    {
      && leases.Keys == physical.Keys
      && forall id | id in leases ::
           && leases[id].restorationRequired && leases[id].baseline.Some?
           && (leases[id].releasedAt.None? ==> leases[id].status == Armed)
    }

    /** The lease is in force for this request. */
    ghost predicate InForceFor(id: string, principal: Option<string>, target: string, now: nat)
      reads this
    {
      && id in leases && leases[id].releasedAt.None? && now < leases[id].expiresAt
      && principal == Some(leases[id].principal) && target == leases[id].target
      && CURSOR_MOVE in leases[id].capabilities
    }

    /** The pointer is to be put back: the lease is over, or just runs out, and nobody has done it. */
    ghost predicate Owes(id: string, now: nat)
      reads this
    {
      && id in leases
      && (leases[id].status == Pending || (leases[id].releasedAt.None? && leases[id].expiresAt <= now))
    }

    ghost function TrackOf(id: string): Track
      requires id in leases && id in physical
      reads this
    {
      Track(leases[id], physical[id])
    }

    /** Nothing but the lease `id` and its physical calls differs from before. */
    ghost predicate OthersKept(id: string, leasesBefore: map<string, ForegroundLease>,
                               physicalBefore: map<string, seq<Physical>>)
      reads this
    {
      && leases - {id} == leasesBefore - {id}
      && physical - {id} == physicalBefore - {id}
    }

    constructor ()
      ensures Valid() && leases == map[]
    {
      leases, physical := map[], map[];
    }

    /** Only a human grants a lease; it is limited to the pointer and to a bounded lifetime.
        `activityOk` and `cursor` are what the activity monitor and the driver answer. */
    method LeaseAcquire(id: string, human: bool, principal: string, target: string, capabilities: set<string>,
                        reason: string, ttl: nat, activityOk: bool, cursor: Option<Point>, now: nat)
      returns (r: Result<ForegroundLease, ErrorCode>)
      requires Valid() && id !in leases
      modifies this
      ensures Valid()
      ensures r.Ok? <==>
        && human && target == CURSOR_TARGET && capabilities == {CURSOR_MOVE} && activityOk && cursor.Some?
        && !IsBlank(principal) && !IsBlank(reason) && 0 < ttl <= MAX_FOREGROUND_LEASE_TTL_MS
      ensures r == Err(PermissionDenied) <==> !human
      ensures r.Err? ==> r.error in {PermissionDenied, ProviderFailure, InvalidArguments}
      ensures r == Err(ProviderFailure) <==>
        human && target == CURSOR_TARGET && capabilities <= {CURSOR_MOVE} && (!activityOk || cursor.None?)
      ensures r.Ok? ==>
        leases == old(leases)[id := r.value] && TrackOf(id) == Granted(principal, now, ttl, cursor.value)
      ensures r.Err? ==> leases == old(leases) && physical == old(physical)
    {
      if !human {
        return Err(PermissionDenied);
      }
      if target != CURSOR_TARGET || exists c :: c in capabilities && c != CURSOR_MOVE {
        return Err(InvalidArguments);
      }
      if !activityOk || cursor.None? {
        return Err(ProviderFailure);
      }
      assert 'p' == target[0] && 'p' in target;
      if IsBlank(principal) || IsBlank(target) || capabilities == {} || IsBlank(reason) {
        return Err(InvalidArguments);
      }
      if ttl == 0 || ttl > MAX_FOREGROUND_LEASE_TTL_MS {
        return Err(InvalidArguments);
      }
      assert capabilities == {CURSOR_MOVE};
      var lease := ForegroundLease(principal, target, capabilities, now, now + ttl, true, cursor, None, Armed, None);
      leases, physical := leases[id := lease], physical[id := []];
      return Ok(lease);
    }

    method Expire(id: string, now: nat)
      requires Valid() && id in leases
      modifies this`leases
      ensures Valid() && leases == old(leases)[id := ExpireIfNeeded(old(leases)[id], now)]
    {
      var lease := leases[id];
      if lease.releasedAt.None? && now >= lease.expiresAt {
        lease := lease.(releasedAt := Some(now));
        if lease.restorationRequired {
          lease := lease.(status := Pending);
        }
      }
      leases := leases[id := lease];
    }

    method RestorePending(id: string, now: nat, restoreOk: bool) returns (ok: bool)
      requires Valid() && id in leases
      modifies this
      ensures Valid() && leases.Keys == old(leases).Keys
      ensures TrackOf(id) == RestoreIfPending(old(TrackOf(id)), now, restoreOk)
      ensures ok <==> !RestoreFails(old(TrackOf(id)), restoreOk)
      ensures OthersKept(id, old(leases), old(physical))
    {
      var lease := leases[id];
      if lease.status != Pending {
        return true;
      }
      if lease.baseline.Some? {
        physical := physical[id := physical[id] + [RestoreTried(now, lease.baseline.value, restoreOk)]];
        if !restoreOk {
          return false;
        }
      }
      if lease.restorationRequired {
        leases := leases[id := lease.(status := Restored, restoredAt := Some(now))];
      }
      return true;
    }

    method LeaseGet(id: string, human: bool, principal: Option<string>, now: nat, restoreOk: bool)
        returns (r: Result<ForegroundLease, ErrorCode>)
      requires Valid()
      modifies this
      ensures Valid() && leases.Keys == old(leases).Keys
      ensures id !in old(leases) ==>
        r == Err(ForegroundLeaseRequired) && leases == old(leases) && physical == old(physical)
      ensures id in old(leases) ==> TrackOf(id) == Step(old(TrackOf(id)), Event(Get(human, principal), now, restoreOk))
      ensures r.Ok? ==> r.value == leases[id] && r.value.status != Pending
      ensures r.Err? && id in old(leases) ==> r.error in {PermissionDenied, ProviderFailure}
      ensures r == Err(PermissionDenied) <==>
        id in old(leases) && !human && principal != Some(old(leases)[id].principal)
      ensures r.Ok? <==>
        && id in old(leases) && (human || principal == Some(old(leases)[id].principal))
        && (old(Owes(id, now)) ==> restoreOk)
      ensures OthersKept(id, old(leases), old(physical))
    {
      if id !in leases {
        return Err(ForegroundLeaseRequired);
      }
      Expire(id, now);
      if !human && principal != Some(leases[id].principal) {
        return Err(PermissionDenied);
      }
      var restored := RestorePending(id, now, restoreOk);
      if !restored {
        return Err(ProviderFailure);
      }
      return Ok(leases[id]);
    }

    /** The store's own release; an expiry noticed on the way stays even if release is refused. */
    method StoreRelease(id: string, human: bool, principal: Option<string>, now: nat) returns (permitted: bool)
      requires Valid() && id in leases
      modifies this`leases
      ensures Valid()
      ensures permitted <==> human || principal == Some(old(leases)[id].principal)
      ensures var seen := ExpireIfNeeded(old(leases)[id], now);
              leases == old(leases)[id := if permitted then Freed(seen, now) else seen]
    {
      Expire(id, now);
      var lease := leases[id];
      if !human && principal != Some(lease.principal) {
        return false;
      }
      if lease.releasedAt.None? {
        lease := lease.(releasedAt := Some(now));
        if lease.restorationRequired {
          lease := lease.(status := Pending);
        }
        leases := leases[id := lease];
      }
      return true;
    }

    method LeaseRelease(id: string, human: bool, principal: Option<string>, now: nat, restoreOk: bool)
        returns (r: Result<ForegroundLease, ErrorCode>)
      requires Valid()
      modifies this
      ensures Valid() && leases.Keys == old(leases).Keys
      ensures id !in old(leases) ==>
        r == Err(ForegroundLeaseRequired) && leases == old(leases) && physical == old(physical)
      ensures id in old(leases) ==>
        TrackOf(id) == Step(old(TrackOf(id)), Event(Release(human, principal), now, restoreOk))
      ensures r.Ok? ==> r.value == leases[id] && r.value.releasedAt.Some?
      ensures r.Err? && id in old(leases) ==> r.error in {PermissionDenied, ProviderFailure}
      ensures r == Err(PermissionDenied) <==>
        id in old(leases) && !human && principal != Some(old(leases)[id].principal)
      ensures r.Ok? <==>
        && id in old(leases) && (human || principal == Some(old(leases)[id].principal))
        && (old(leases)[id].releasedAt.None? || old(leases)[id].status == Pending ==> restoreOk)
      ensures OthersKept(id, old(leases), old(physical))
    {
      if id !in leases {
        return Err(ForegroundLeaseRequired);
      }
      var permitted := StoreRelease(id, human, principal, now);
      if !permitted {
        return Err(PermissionDenied);
      }
      var restored := RestorePending(id, now, restoreOk);
      if !restored {
        return Err(ProviderFailure);
      }
      return Ok(leases[id]);
    }

    /** The lease as the store has it now, with an owed restore attempted. */
    method Refresh(id: string, now: nat, restoreOk: bool) returns (ok: bool)
      requires Valid() && id in leases
      modifies this
      ensures Valid() && leases.Keys == old(leases).Keys
      ensures var was := old(TrackOf(id));
              var seen := was.(lease := ExpireIfNeeded(was.lease, now));
              TrackOf(id) == RestoreIfPending(seen, now, restoreOk) && (ok <==> !RestoreFails(seen, restoreOk))
      ensures OthersKept(id, old(leases), old(physical))
    {
      Expire(id, now);
      ok := RestorePending(id, now, restoreOk);
    }

    /** `to` is absent if the coordinates are not two 32-bit integers. */
    method PhysicalPointerMove(id: string, principal: Option<string>, target: string, humanIdle: bool,
                               to: Option<Point>, moveOk: bool, now: nat, restoreOk: bool)
        returns (r: Result<(), ErrorCode>)
      requires Valid()
      modifies this
      ensures Valid() && leases.Keys == old(leases).Keys
      ensures id !in old(leases) ==>
        r == Err(ForegroundLeaseRequired) && leases == old(leases) && physical == old(physical)
      ensures id in old(leases) ==>
        TrackOf(id) == Step(old(TrackOf(id)), Event(Move(principal, target, humanIdle, to, moveOk), now, restoreOk))
      ensures var mine := old(InForceFor(id, principal, target, now));
              && (r == Err(HumanActive) <==> mine && !humanIdle)
              && (r == Err(InvalidArguments) <==> mine && humanIdle && to.None?)
              && (r == Err(ForegroundLeaseRequired) <==> !mine && (old(Owes(id, now)) ==> restoreOk))
              && (r.Ok? <==> mine && humanIdle && to.Some? && moveOk)
              && r != Err(PermissionDenied)
              && (mine && humanIdle && to.Some? ==>
                    physical[id] == old(physical)[id] + [Moved(now, to.value, moveOk)])
      ensures OthersKept(id, old(leases), old(physical))
    {
      if id !in leases {
        return Err(ForegroundLeaseRequired);
      }
      var restored := Refresh(id, now, restoreOk);
      if !restored {
        return Err(ProviderFailure);
      }
      if !Authorized(leases[id], principal, target, CURSOR_MOVE) {
        return Err(ForegroundLeaseRequired);
      }
      if !humanIdle {
        return Err(HumanActive);
      }
      if to.None? {
        return Err(InvalidArguments);
      }
      physical := physical[id := physical[id] + [Moved(now, to.value, moveOk)]];
      return if moveOk then Ok(()) else Err(ProviderFailure);
    }
  }

  // ---------- Whole runs on one lease ----------

  function Granted(principal: string, now: nat, ttl: nat, cursor: Point): Track {
    var lease := ForegroundLease(principal, CURSOR_TARGET, {CURSOR_MOVE}, now, now + ttl, true, Some(cursor), None,
                                 Armed, None);
    Track(lease, [])
  }

  function Run(start: Track, events: seq<Event>): Track {
    if events == [] then start
    else Step(Run(start, events[..|events| - 1]), events[|events| - 1])
  }

  predicate Monotone(start: nat, events: seq<Event>) {
    && (events != [] ==> start <= events[0].now)
    && forall i | 0 < i < |events| :: events[i - 1].now <= events[i].now
  }

  ghost predicate WasRestored(log: seq<Physical>) {
    exists p :: p in log && p.RestoreTried? && p.ok
  }

  ghost predicate EntryOk(l: ForegroundLease, p: Physical) {
    match p
    case Moved(at, _, _) => l.issuedAt <= at < l.expiresAt && (l.releasedAt.Some? ==> at <= l.releasedAt.value)
    case RestoreTried(at, cursor, _) => l.baseline == Some(cursor) && l.releasedAt.Some? && l.releasedAt.value <= at
  }

  /** This attempt is the one that is recorded as having put the pointer back. */
  predicate RestoredBy(l: ForegroundLease, p: Physical) {
    p.RestoreTried? && p.ok && l.restoredAt == Some(p.at)
  }

  /** Moves come first, then failed restores, then at most one successful restore, last. */
  ghost predicate Ordered(log: seq<Physical>) {
    forall i, j | 0 <= i < j < |log| && log[i].RestoreTried? :: log[j].RestoreTried? && !log[i].ok
  }

  ghost predicate Inv(t: Track, clock: nat) {
    && t.lease.restorationRequired && t.lease.baseline.Some? && t.lease.issuedAt <= clock
    && (t.lease.releasedAt.Some? ==> t.lease.releasedAt.value <= clock)
    && (forall p | p in t.log :: p.at <= clock && EntryOk(t.lease, p))
    && Ordered(t.log)
    && t.lease.status == (if t.lease.releasedAt.None? then Armed else if WasRestored(t.log) then Restored else Pending)
    && (if t.lease.status == Restored then t.log != [] && RestoredBy(t.lease, t.log[|t.log| - 1])
        else t.lease.restoredAt.None?)
  }

  lemma RestoreKeepsInv(t: Track, now: nat, restoreOk: bool)
    requires Inv(t, now)
    ensures Inv(RestoreIfPending(t, now, restoreOk), now)
  {
    var u := RestoreIfPending(t, now, restoreOk);
    if t.lease.status == Pending {
      forall p | p in u.log ensures p.at <= now && EntryOk(u.lease, p) {
        assert p in t.log ==> EntryOk(t.lease, p);
      }
      forall i, j | 0 <= i < j < |u.log| && u.log[i].RestoreTried? ensures u.log[j].RestoreTried? && !u.log[i].ok {
        if j == |t.log| {
          assert t.log[i] in t.log && !WasRestored(t.log);
        }
      }
      var last := RestoreTried(now, t.lease.baseline.value, restoreOk);
      assert last in u.log && forall p | p in u.log :: p in t.log || p == last;
    }
  }

  lemma FreeingKeepsInv(t: Track, now: nat)
    requires Inv(t, now)
    ensures Inv(t.(lease := Freed(t.lease, now)), now)
    ensures Inv(t.(lease := ExpireIfNeeded(t.lease, now)), now)
  {
    if t.lease.releasedAt.None? {
      UnreleasedIsUntouched(t, now);
      var freed := Freed(t.lease, now);
      forall p | p in t.log ensures EntryOk(freed, p) {
        assert EntryOk(t.lease, p);
      }
    }
  }

  lemma UnreleasedIsUntouched(t: Track, clock: nat)
    requires Inv(t, clock) && t.lease.releasedAt.None?
    ensures forall p | p in t.log :: p.Moved?
    ensures !WasRestored(t.log)
  {}

  lemma MoveKeepsInv(t: Track, now: nat, to: Point, ok: bool)
    requires Inv(t, now) && t.lease.releasedAt.None? && now < t.lease.expiresAt
    ensures Inv(t.(log := t.log + [Moved(now, to, ok)]), now)
  {}

  lemma StepKeepsInv(t: Track, clock: nat, e: Event)
    requires Inv(t, clock) && clock <= e.now
    ensures Inv(Step(t, e), e.now)
  {
    assert Inv(t, e.now);
    FreeingKeepsInv(t, e.now);
    var seen := t.(lease := ExpireIfNeeded(t.lease, e.now));
    RestoreKeepsInv(seen, e.now, e.restoreOk);
    match e.op {
      case Get(_, _) =>
      case Release(_, _) =>
        FreeingKeepsInv(seen, e.now);
        RestoreKeepsInv(seen.(lease := Freed(seen.lease, e.now)), e.now, e.restoreOk);
      case Move(_, _, _, to, moveOk) =>
        var restored := RestoreIfPending(seen, e.now, e.restoreOk);
        if restored.lease.releasedAt.None? && to.Some? {
          assert seen.lease.releasedAt.None? && restored == seen;
          MoveKeepsInv(restored, e.now, to.value, moveOk);
        }
    }
  }

  lemma {:induction false} RunKeepsInv(start: Track, clock: nat, events: seq<Event>)
    requires Inv(start, clock) && Monotone(clock, events)
    ensures Inv(Run(start, events), if events == [] then clock else events[|events| - 1].now)
  {
    if events != [] {
      var front := events[..|events| - 1];
      RunKeepsInv(start, clock, front);
      StepKeepsInv(Run(start, front), if front == [] then clock else front[|front| - 1].now, events[|events| - 1]);
    }
  }

  /** Over any run of operations on a lease: every pointer move falls inside its lifetime and
      no later than its release (see also `NoMoveAfterRelease`); no move follows a restore
      attempt; the pointer is put back only
      where it was when the lease was granted, and successfully at most once. */
  lemma MovesAndRestores(principal: string, issued: nat, ttl: nat, cursor: Point, events: seq<Event>)
    requires Monotone(issued, events)
    ensures var t := Run(Granted(principal, issued, ttl, cursor), events);
            && (forall p | p in t.log && p.Moved? ::
                  issued <= p.at < issued + ttl && (t.lease.releasedAt.Some? ==> p.at <= t.lease.releasedAt.value))
            && (forall p | p in t.log && p.RestoreTried? :: p.cursor == cursor)
            && (forall i, j | 0 <= i < j < |t.log| && t.log[i].RestoreTried? :: t.log[j].RestoreTried? && !t.log[i].ok)
  {
    var start := Granted(principal, issued, ttl, cursor);
    RunKeepsInv(start, issued, events);
    TermsNeverChange(start, events);
    var t := Run(start, events);
    forall p | p in t.log ensures EntryOk(t.lease, p) {}
  }

  lemma {:induction false} TermsNeverChange(start: Track, events: seq<Event>)
    ensures var t := Run(start, events);
            && t.lease.principal == start.lease.principal && t.lease.baseline == start.lease.baseline
            && t.lease.issuedAt == start.lease.issuedAt && t.lease.expiresAt == start.lease.expiresAt
            && (start.lease.releasedAt.Some? ==> t.lease.releasedAt == start.lease.releasedAt)
  {
    if events != [] {
      TermsNeverChange(start, events[..|events| - 1]);
      StepKeepsTerms(Run(start, events[..|events| - 1]), events[|events| - 1]);
    }
  }

  lemma StepKeepsTerms(t: Track, e: Event)
    ensures var u := Step(t, e);
            && u.lease.principal == t.lease.principal && u.lease.baseline == t.lease.baseline
            && u.lease.issuedAt == t.lease.issuedAt && u.lease.expiresAt == t.lease.expiresAt
            && (t.lease.releasedAt.Some? ==> u.lease.releasedAt == t.lease.releasedAt)
  {}

  /** Only attempts to restore were added to the log. */
  ghost predicate OnlyRestores(before: seq<Physical>, after: seq<Physical>) {
    before <= after && forall i | |before| <= i < |after| :: after[i].RestoreTried?
  }

  lemma ReleasedMovesNoMore(t: Track, e: Event)
    requires t.lease.releasedAt.Some?
    ensures Step(t, e).lease.releasedAt == t.lease.releasedAt && OnlyRestores(t.log, Step(t, e).log)
  {}

  /** Once a lease is released, by request or by expiry, no continuation moves the pointer under
      it, not even in the same millisecond. */
  lemma {:induction false} NoMoveAfterRelease(start: Track, events: seq<Event>, more: seq<Event>)
    requires Run(start, events).lease.releasedAt.Some?
    ensures Run(start, events + more).lease.releasedAt == Run(start, events).lease.releasedAt
    ensures OnlyRestores(Run(start, events).log, Run(start, events + more).log)
  {
    if more == [] {
      assert events + more == events;
    } else {
      var shorter, last := more[..|more| - 1], more[|more| - 1];
      assert (events + more)[..|events + more| - 1] == events + shorter;
      NoMoveAfterRelease(start, events, shorter);
      ReleasedMovesNoMore(Run(start, events + shorter), last);
    }
  }

  /** A restore that is owed stays owed until an attempt succeeds, and is then settled. */
  lemma PendingSurvivesFailure(principal: string, issued: nat, ttl: nat, cursor: Point, events: seq<Event>)
    requires Monotone(issued, events)
    ensures var t := Run(Granted(principal, issued, ttl, cursor), events);
            && (t.lease.status == Pending <==> t.lease.releasedAt.Some? && !WasRestored(t.log))
            && (t.lease.status == Restored <==> WasRestored(t.log))
            && (t.lease.restoredAt.Some? <==> WasRestored(t.log))
            && (t.lease.restoredAt.Some? ==> RestoredBy(t.lease, t.log[|t.log| - 1]))
  {
    RunKeepsInv(Granted(principal, issued, ttl, cursor), issued, events);
    var t := Run(Granted(principal, issued, ttl, cursor), events);
    if t.lease.releasedAt.None? {
      UnreleasedIsUntouched(t, if events == [] then issued else events[|events| - 1].now);
    }
  }

  // ---------- Whose requests move and release ----------

  /** The event asked for this move, as the lease's principal and on its target, while the human was idle. */
  predicate AsksMove(l: ForegroundLease, p: Physical, e: Event) {
    && p.Moved? && e.op.Move? && e.now == p.at
    && e.op.principal == Some(l.principal) && e.op.target == l.target && CURSOR_MOVE in l.capabilities
    && e.op.humanIdle && e.op.to == Some(p.to) && e.op.moveOk == p.ok
  }

  ghost predicate WasAsked(l: ForegroundLease, p: Physical, events: seq<Event>) {
    exists e :: e in events && AsksMove(l, p, e)
  }

  /** The event may have released the lease: its time was up, or a human or its principal asked. */
  predicate MayRelease(l: ForegroundLease, e: Event) {
    && l.releasedAt == Some(e.now)
    && (e.now >= l.expiresAt || (e.op.Release? && (e.op.human || e.op.principal == Some(l.principal))))
  }

  ghost predicate WasEnded(l: ForegroundLease, events: seq<Event>) {
    exists e :: e in events && MayRelease(l, e)
  }

  lemma StepKeepsGrant(t: Track, e: Event)
    ensures var u := Step(t, e);
            u.lease.target == t.lease.target && u.lease.capabilities == t.lease.capabilities
  {}

  lemma StepAddsMove(t: Track, e: Event)
    ensures forall p | p in Step(t, e).log && p.Moved? :: p in t.log || AsksMove(Step(t, e).lease, p, e)
  {}

  lemma StepReleases(t: Track, e: Event)
    ensures Step(t, e).lease.releasedAt != t.lease.releasedAt ==> MayRelease(Step(t, e).lease, e)
  {}

  lemma StepKeepsAsked(t: Track, events: seq<Event>, e: Event)
    requires forall p | p in t.log && p.Moved? :: WasAsked(t.lease, p, events)
    ensures forall p | p in Step(t, e).log && p.Moved? :: WasAsked(Step(t, e).lease, p, events + [e])
  {
    StepKeepsGrant(t, e);
    StepKeepsTerms(t, e);
    StepAddsMove(t, e);
    forall p | p in Step(t, e).log && p.Moved? ensures WasAsked(Step(t, e).lease, p, events + [e]) {
      assert e in events + [e];
      if p in t.log {
        var x :| x in events && AsksMove(t.lease, p, x);
        assert x in events + [e] && AsksMove(Step(t, e).lease, p, x);
      }
    }
  }

  lemma StepKeepsEnded(t: Track, events: seq<Event>, e: Event)
    requires t.lease.releasedAt.Some? ==> WasEnded(t.lease, events)
    ensures Step(t, e).lease.releasedAt.Some? ==> WasEnded(Step(t, e).lease, events + [e])
  {
    StepKeepsTerms(t, e);
    StepReleases(t, e);
    assert e in events + [e];
    if t.lease.releasedAt.Some? {
      var x :| x in events && MayRelease(t.lease, x);
      assert x in events + [e] && MayRelease(Step(t, e).lease, x);
    }
  }

  /** Every move of the pointer was asked for by the lease's own principal, on the pointer, while the
      human was idle; and a lease is released only in time, or by a human or its principal. */
  lemma {:induction false} MovesWereAsked(principal: string, issued: nat, ttl: nat, cursor: Point, events: seq<Event>)
    ensures var t := Run(Granted(principal, issued, ttl, cursor), events);
            && (forall p | p in t.log && p.Moved? :: WasAsked(t.lease, p, events))
            && (t.lease.releasedAt.Some? ==> WasEnded(t.lease, events))
            && t.lease.principal == principal && t.lease.target == "pointer"
            && t.lease.capabilities == {"desktop.physical_pointer_move"}
  {
    if events != [] {
      var front, e := events[..|events| - 1], events[|events| - 1];
      assert events == front + [e];
      MovesWereAsked(principal, issued, ttl, cursor, front);
      var t := Run(Granted(principal, issued, ttl, cursor), front);
      StepKeepsGrant(t, e);
      StepKeepsTerms(t, e);
      StepKeepsAsked(t, front, e);
      StepKeepsEnded(t, front, e);
    }
  }

  /** The next request moves the pointer exactly if it comes from the principal for the pointer, with
      coordinates, while the human is idle, before the lease is released and before its time is up. */
  lemma MoveIsMadeExactly(principal: string, issued: nat, ttl: nat, cursor: Point, events: seq<Event>, e: Event)
    requires Monotone(issued, events) && e.op.Move?
    ensures var t := Run(Granted(principal, issued, ttl, cursor), events);
            (exists p: Physical :: p.Moved? && Step(t, e).log == t.log + [p])
            <==> && t.lease.releasedAt.None? && e.now < issued + ttl
                 && e.op.principal == Some(principal) && e.op.target == "pointer"
                 && e.op.humanIdle && e.op.to.Some?
  {
    var start := Granted(principal, issued, ttl, cursor);
    var t := Run(start, events);
    RunKeepsInv(start, issued, events);
    TermsNeverChange(start, events);
    MovesWereAsked(principal, issued, ttl, cursor, events);
    if Step(t, e).log != t.log {
      assert Step(t, e).log[|t.log|] == Step(t, e).log[|Step(t, e).log| - 1];
    }
  }

  /** A human or the principal releases a lease that is not released yet, at once. */
  lemma ReleaseReleases(t: Track, e: Event)
    requires e.op.Release? && t.lease.releasedAt.None?
    ensures Step(t, e).lease.releasedAt == Some(e.now)
       <==> e.op.human || e.op.principal == Some(t.lease.principal) || e.now >= t.lease.expiresAt
  {}
}
