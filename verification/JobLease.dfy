/** Execution leases on jobs: agent/tetherd/src/job.rs.

    Operations hold the provider's lock, so each is one step; the clock never runs backwards.
 */
module JobLease {
  import opened Wrappers

  const DEFAULT_LEASE_TTL_MS: int := 60_000
  const MAX_LEASE_TTL_MS: int := 3_600_000

  datatype ErrorCode = InvalidArguments | PermissionDenied | ResourceConflict

  datatype Checkpoint = Checkpoint(principal: string, state: string, createdAt: nat)

  datatype ExecutionLease = ExecutionLease(leaseId: string, principal: string, expiresAt: nat)

  datatype JobRecord = JobRecord(
    permitted: set<string>,
    status: string,
    latestCheckpoint: Option<Checkpoint>,
    activeLease: Option<ExecutionLease>,
    createdAt: nat,
    updatedAt: nat)

  // ---------- One operation on one record ----------

  predicate Expired(r: JobRecord, now: nat) {
    r.activeLease.Some? && r.activeLease.value.expiresAt <= now
  }

  function Prune(r: JobRecord, now: nat): JobRecord {
    if Expired(r, now) then r.(activeLease := None) else r
  }

  function Ttl(requested: Option<int>): Result<nat, ErrorCode> {
    match requested
    case None => Ok(DEFAULT_LEASE_TTL_MS)
    case Some(ttl) => if 0 < ttl <= MAX_LEASE_TTL_MS then Ok(ttl) else Err(InvalidArguments)
  }

  function Acquire(r: JobRecord, principal: string, ttl: Option<int>, leaseId: string, now: nat)
    : Result<JobRecord, ErrorCode>
  {
    if Ttl(ttl).Err? then Err(Ttl(ttl).error)
    else if principal !in r.permitted then Err(PermissionDenied)
    else if Prune(r, now).activeLease.Some? then Err(ResourceConflict)
    else Ok(r.(activeLease := Some(ExecutionLease(leaseId, principal, now + Ttl(ttl).value)), updatedAt := now))
  }

  function Release(r: JobRecord, principal: string, expected: Option<string>, now: nat): Result<JobRecord, ErrorCode> {
    var lease := Prune(r, now).activeLease;
    if principal !in r.permitted then Err(PermissionDenied)
    else if lease.None? then Err(ResourceConflict)
    else if lease.value.principal != principal then Err(PermissionDenied)
    else if expected.Some? && expected.value != lease.value.leaseId then Err(ResourceConflict)
    else Ok(r.(activeLease := None, updatedAt := now))
  }

  /** `private` says that the state names a private reasoning field somewhere. */
  function Save(r: JobRecord, principal: string, state: string, private: bool, status: Option<string>, now: nat)
    : Result<JobRecord, ErrorCode>
  {
    var lease := Prune(r, now).activeLease;
    if private then Err(InvalidArguments)
    else if principal !in r.permitted then Err(PermissionDenied)
    else if lease.None? then Err(ResourceConflict)
    else if lease.value.principal != principal then Err(PermissionDenied)
    else if status.Some? && IsBlank(status.value) then Err(InvalidArguments)
    else Ok(r.(latestCheckpoint := Some(Checkpoint(principal, state, now)),
               status := if status.Some? then status.value else r.status,
               updatedAt := now))
  }

  /** Looking at a record stores it back only if looking pruned it. */
  function Look(r: JobRecord, principal: string, now: nat, storedAt: nat): JobRecord {
    if principal in r.permitted && Expired(r, now) then r.(activeLease := None, updatedAt := storedAt) else r
  }

  // ---------- The provider ----------

  class JobProvider {
    var jobs: map<string, JobRecord>

    constructor ()
      ensures jobs == map[]
    {
      jobs := map[];
    }

    /** Carries out an operation: only an accepted one changes the stored record. */
    method Store(jobId: string, outcome: Result<JobRecord, ErrorCode>) returns (r: Result<JobRecord, ErrorCode>)
      modifies this
      ensures r == outcome
      ensures jobs == if r.Ok? then old(jobs)[jobId := r.value] else old(jobs)
    {
      if outcome.Ok? {
        jobs := jobs[jobId := outcome.value];
      }
      return outcome;
    }

    method CreateJob(jobId: string, principal: string, permitted: set<string>, now: nat) returns (r: JobRecord)
      requires jobId !in jobs
      modifies this
      ensures jobs == old(jobs)[jobId := r]
      ensures r == JobRecord(permitted + {principal}, "active", None, None, now, now)
    {
      r := JobRecord(permitted + {principal}, "active", None, None, now, now);
      jobs := jobs[jobId := r];
    }

    method AcquireLease(jobId: string, principal: Option<string>, ttl: Option<int>, leaseId: string, now: nat)
        returns (r: Result<JobRecord, ErrorCode>)
      modifies this
      ensures principal.None? ==> r == Err(PermissionDenied)
      ensures principal.Some? && jobId in old(jobs) ==>
        r == Acquire(old(jobs)[jobId], principal.value, ttl, leaseId, now)
      ensures principal.Some? && jobId !in old(jobs) ==> r == Err(InvalidArguments)
      ensures jobs == if r.Ok? then old(jobs)[jobId := r.value] else old(jobs)
    {
      if principal.None? {
        return Err(PermissionDenied);
      }
      if ttl.Some? && !(0 < ttl.value <= MAX_LEASE_TTL_MS) {
        return Err(InvalidArguments);
      }
      if jobId !in jobs {
        return Err(InvalidArguments);
      }
      var record := jobs[jobId];
      if principal.value !in record.permitted {
        return Err(PermissionDenied);
      }
      record := Prune(record, now);
      if record.activeLease.Some? {
        return Err(ResourceConflict);
      }
      var lifetime := if ttl.Some? then ttl.value else DEFAULT_LEASE_TTL_MS;
      var lease := ExecutionLease(leaseId, principal.value, now + lifetime);
      record := record.(activeLease := Some(lease), updatedAt := now);
      r := Store(jobId, Ok(record));
    }

    method ReleaseLease(jobId: string, principal: Option<string>, expected: Option<string>, now: nat)
        returns (r: Result<JobRecord, ErrorCode>)
      modifies this
      ensures principal.None? ==> r == Err(PermissionDenied)
      ensures principal.Some? && jobId in old(jobs) ==> r == Release(old(jobs)[jobId], principal.value, expected, now)
      ensures principal.Some? && jobId !in old(jobs) ==> r == Err(InvalidArguments)
      ensures jobs == if r.Ok? then old(jobs)[jobId := r.value] else old(jobs)
    {
      if principal.None? {
        return Err(PermissionDenied);
      }
      if jobId !in jobs {
        return Err(InvalidArguments);
      }
      var record := jobs[jobId];
      if principal.value !in record.permitted {
        return Err(PermissionDenied);
      }
      record := Prune(record, now);
      if record.activeLease.None? {
        return Err(ResourceConflict);
      }
      var lease := record.activeLease.value;
      if lease.principal != principal.value {
        return Err(PermissionDenied);
      }
      if expected.Some? && expected.value != lease.leaseId {
        return Err(ResourceConflict);
      }
      record := record.(activeLease := None, updatedAt := now);
      r := Store(jobId, Ok(record));
    }

    method SaveCheckpoint(jobId: string, principal: Option<string>, state: string, private: bool,
                          status: Option<string>, now: nat)
        returns (r: Result<JobRecord, ErrorCode>)
      modifies this
      ensures principal.None? ==> r == Err(PermissionDenied)
      ensures principal.Some? && jobId in old(jobs) ==>
        r == Save(old(jobs)[jobId], principal.value, state, private, status, now)
      ensures principal.Some? && jobId !in old(jobs) ==> r == Err(InvalidArguments)
      ensures jobs == if r.Ok? then old(jobs)[jobId := r.value] else old(jobs)
    {
      if principal.None? {
        return Err(PermissionDenied);
      }
      if private {
        return Err(InvalidArguments);
      }
      if jobId !in jobs {
        return Err(InvalidArguments);
      }
      var record := jobs[jobId];
      if principal.value !in record.permitted {
        return Err(PermissionDenied);
      }
      record := Prune(record, now);
      if record.activeLease.None? {
        return Err(ResourceConflict);
      }
      if record.activeLease.value.principal != principal.value {
        return Err(PermissionDenied);
      }
      record := record.(latestCheckpoint := Some(Checkpoint(principal.value, state, now)));
      if status.Some? {
        if IsBlank(status.value) {
          return Err(InvalidArguments);
        }
        record := record.(status := status.value);
      }
      record := record.(updatedAt := now);
      r := Store(jobId, Ok(record));
    }

    /** Reads one job; the clock is read a second time when the lease turned out to be expired. */
    method GetJob(jobId: string, principal: Option<string>, now: nat, later: nat)
        returns (r: Result<JobRecord, ErrorCode>)
      modifies this
      ensures r.Ok? <==> principal.Some? && jobId in old(jobs) && principal.value in old(jobs)[jobId].permitted
      ensures r == Err(InvalidArguments) <==> principal.Some? && jobId !in old(jobs)
      ensures r.Err? ==> r.error in {PermissionDenied, InvalidArguments}
      ensures r.Ok? ==>
        r.value == Look(old(jobs)[jobId], principal.value, now, later) && jobs == old(jobs)[jobId := r.value]
      ensures r.Err? ==> jobs == old(jobs)
    {
      if principal.None? || jobId !in jobs {
        return Err(if principal.None? then PermissionDenied else InvalidArguments);
      }
      var record := jobs[jobId];
      if principal.value !in record.permitted {
        return Err(PermissionDenied);
      }
      if Expired(record, now) {
        record := Prune(record, now).(updatedAt := later);
        jobs := jobs[jobId := record];
      }
      return Ok(record);
    }

    ghost predicate Listable(id: string, principal: string, status: Option<string>, unleased: bool)
      reads this
    {
      && id in jobs && principal in jobs[id].permitted
      && (status.Some? ==> jobs[id].status == status.value)
      && (unleased ==> jobs[id].activeLease.None?)
    }

    /** Visits every job, pruning those the principal may see; returns those that match. */
    method VisitJobs(principal: string, status: Option<string>, unleased: bool, now: nat) returns (found: set<string>)
      modifies this
      ensures jobs.Keys == old(jobs).Keys
      ensures forall id | id in jobs :: jobs[id] == Look(old(jobs)[id], principal, now, now)
      ensures forall id :: id in found <==> Listable(id, principal, status, unleased)
    {
      var left := jobs.Keys;
      found := {};
      while left != {}
        invariant left <= jobs.Keys == old(jobs).Keys
        invariant forall id | id in jobs ::
          jobs[id] == if id in left then old(jobs)[id] else Look(old(jobs)[id], principal, now, now)
        invariant forall id :: id in found <==> Listable(id, principal, status, unleased) && id !in left
        decreases left
      {
        var id :| id in left;
        left := left - {id};
        var record := jobs[id];
        if principal in record.permitted {
          if Expired(record, now) {
            record := Prune(record, now).(updatedAt := now);
            jobs := jobs[id := record];
          }
          if (status.Some? ==> record.status == status.value) && (unleased ==> record.activeLease.None?) {
            found := found + {id};
          }
        }
      }
    }

    /** Oldest first, and jobs of the same moment by their ids. */
    ghost predicate Before(a: string, b: string)
      requires a in jobs && b in jobs
      reads this
    {
      jobs[a].createdAt < jobs[b].createdAt || (jobs[a].createdAt == jobs[b].createdAt && Less(a, b))
    }

    ghost predicate Ordered(ids: seq<string>)
      reads this
    {
      && (forall i | 0 <= i < |ids| :: ids[i] in jobs)
      && (forall i, j | 0 <= i < j < |ids| :: Before(ids[i], ids[j]))
    }

    lemma InsertKeepsOrder(ids: seq<string>, id: string, k: nat)
      requires Ordered(ids) && id in jobs && k <= |ids|
      requires forall i | 0 <= i < k :: Before(ids[i], id)
      requires forall i | k <= i < |ids| :: Before(id, ids[i])
      ensures Ordered(ids[..k] + [id] + ids[k..])
    {}

    /** Where a job not yet listed belongs: after those before it, before all others. */
    method Position(ids: seq<string>, id: string) returns (k: nat)
      requires Ordered(ids) && id in jobs && id !in ids
      ensures k <= |ids|
      ensures forall i | 0 <= i < k :: Before(ids[i], id)
      ensures forall i | k <= i < |ids| :: Before(id, ids[i])
    {
      k := 0;
      while k < |ids| && (|| jobs[ids[k]].createdAt < jobs[id].createdAt
                          || (jobs[ids[k]].createdAt == jobs[id].createdAt && Less(ids[k], id)))
        invariant k <= |ids|
        invariant forall i | 0 <= i < k :: Before(ids[i], id)
      {
        k := k + 1;
      }
      forall i | k <= i < |ids| ensures Before(id, ids[i]) {
        LessIsTotal(ids[k], id);
        LessIsTransitive(id, ids[k], ids[i]);
      }
    }

    method Sort(found: set<string>) returns (ids: seq<string>)
      requires found <= jobs.Keys
      ensures Ordered(ids) && forall id :: id in ids <==> id in found
    {
      var left := found;
      ids := [];
      while left != {}
        invariant left <= found && Ordered(ids)
        invariant forall id :: id in ids <==> id in found - left
        decreases left
      {
        var id: string :| id in left;
        left := left - {id};
        var k := Position(ids, id);
        InsertKeepsOrder(ids, id, k);
        ghost var before := ids;
        ids := ids[..k] + [id] + ids[k..];
        InsertAddsOne(before, id, k);
      }
    }

    /** The oldest matching jobs, at most `limit` of them. */
    method ListJobs(principal: Option<string>, status: Option<string>, unleased: bool, limit: Option<int>, now: nat)
        returns (r: Result<seq<string>, ErrorCode>)
      modifies this
      ensures r == Err(PermissionDenied) <==> principal.None?
      ensures r.Err? ==> r.error in {PermissionDenied, InvalidArguments}
      ensures r.Ok? <==>
        && principal.Some? && (status.Some? ==> !IsBlank(status.value)) && (limit.Some? ==> 0 < limit.value <= 100)
      ensures r.Err? ==> jobs == old(jobs)
      ensures r.Ok? ==>
        var max := if limit.Some? then limit.value else 100;
        && jobs.Keys == old(jobs).Keys
        && (forall id | id in jobs :: jobs[id] == Look(old(jobs)[id], principal.value, now, now))
        && |r.value| <= max && Ordered(r.value)
        && (forall id | id in r.value :: Listable(id, principal.value, status, unleased))
        && (forall id | Listable(id, principal.value, status, unleased) && id !in r.value ::
              |r.value| == max && forall i | 0 <= i < max :: Before(r.value[i], id))
    {
      if principal.None? {
        return Err(PermissionDenied);
      }
      if status.Some? && IsBlank(status.value) {
        return Err(InvalidArguments);
      }
      if limit.Some? && !(0 < limit.value <= 100) {
        return Err(InvalidArguments);
      }
      var max := if limit.Some? then limit.value else 100;
      var found := VisitJobs(principal.value, status, unleased, now);
      var ids := Sort(found);
      if |ids| > max {
        r := Ok(ids[..max]);
      } else {
        r := Ok(ids);
      }
      forall id | id in found && id !in r.value
        ensures |r.value| == max && forall i | 0 <= i < max :: Before(r.value[i], id)
      {
        assert r.value == ids[..|r.value|];
        var j := PastPrefix(ids, |r.value|, id);
      }
    }
  }

  lemma InsertAddsOne(ids: seq<string>, id: string, k: nat)
    requires k <= |ids|
    ensures forall x :: x in ids[..k] + [id] + ids[k..] <==> x in ids || x == id
  {
    assert ids == ids[..k] + ids[k..];
  }

  lemma PastPrefix(ids: seq<string>, n: nat, id: string) returns (j: nat)
    requires n <= |ids| && id in ids && id !in ids[..n]
    ensures n <= j < |ids| && ids[j] == id
  {
    j :| 0 <= j < |ids| && ids[j] == id;
  }

  /** Strings in dictionary order. */
  predicate Less(a: string, b: string) {
    b != [] && (a == [] || a[0] < b[0] || (a[0] == b[0] && Less(a[1..], b[1..])))
  }

  /** The strings agree up to `k`, where `a` ends or has the smaller character. */
  predicate FirstDifference(a: string, b: string, k: nat) {
    && k <= |a| && k < |b| && a[..k] == b[..k]
    && (k == |a| || a[k] < b[k])
  }

  lemma {:induction false} LessMeans(a: string, b: string)
    ensures Less(a, b) <==> exists k: nat :: FirstDifference(a, b, k)
    decreases |a|
  {
    if b != [] && a != [] && a[0] == b[0] {
      LessMeans(a[1..], b[1..]);
      if Less(a, b) {
        var k: nat :| FirstDifference(a[1..], b[1..], k);
        assert a[..k + 1] == [a[0]] + a[1..][..k] && b[..k + 1] == [b[0]] + b[1..][..k];
        assert FirstDifference(a, b, k + 1);
      }
      if k: nat :| FirstDifference(a, b, k) {
        assert k > 0;
        assert a[1..][..k - 1] == a[..k][1..] && b[1..][..k - 1] == b[..k][1..];
        assert FirstDifference(a[1..], b[1..], k - 1);
      }
    } else if b != [] && (a == [] || a[0] < b[0]) {
      assert FirstDifference(a, b, 0);
    } else if a != [] && b != [] {
      forall k: nat ensures !FirstDifference(a, b, k) {
        if 0 < k <= |a| && k <= |b| {
          assert a[..k][0] == a[0] && b[..k][0] == b[0];
        }
      }
    }
  }

  lemma {:induction false} LessIsTotal(a: string, b: string)
    ensures a == b || Less(a, b) || Less(b, a)
    decreases |a|
  {
    if a != [] && b != [] && a[0] == b[0] {
      LessIsTotal(a[1..], b[1..]);
      if a[1..] == b[1..] {
        assert a == [a[0]] + a[1..] == [b[0]] + b[1..] == b;
      }
    }
  }

  lemma {:induction false} LessIsTransitive(a: string, b: string, c: string)
    ensures Less(a, b) && Less(b, c) ==> Less(a, c)
    decreases |a|
  {
    if a != [] && b != [] && c != [] {
      LessIsTransitive(a[1..], b[1..], c[1..]);
    }
  }

  // ---------- Whole runs on one job ----------

  /** A lease as it was granted, and when it was given back. */
  datatype Grant = Grant(leaseId: string, principal: string, granted: nat, expiresAt: nat, released: Option<nat>)

  datatype Saved = Saved(principal: string, at: nat)

  datatype Op =
    | DoAcquire(principal: string, ttl: Option<int>, leaseId: string)
    | DoRelease(principal: string, expected: Option<string>)
    | DoSave(principal: string, state: string, private: bool, status: Option<string>)
    | DoLook(principal: string)

  datatype Event = Event(op: Op, now: nat)

  datatype History = History(record: JobRecord, grants: seq<Grant>, saves: seq<Saved>, clock: nat)

  /** When a lease stopped being in force. */
  function End(g: Grant): nat {
    if g.released.Some? && g.released.value < g.expiresAt then g.released.value else g.expiresAt
  }

  function Step(h: History, e: Event): History {
    var t := h.(clock := e.now);
    match e.op
    case DoAcquire(principal, ttl, leaseId) =>
      (match Acquire(h.record, principal, ttl, leaseId, e.now)
       case Err(_) => t
       case Ok(r) =>
         var grant := Grant(leaseId, principal, e.now, r.activeLease.value.expiresAt, None);
         t.(record := r, grants := h.grants + [grant]))
    case DoRelease(principal, expected) =>
      (match Release(h.record, principal, expected, e.now)
       case Err(_) => t
       case Ok(r) =>
         if h.grants == [] then t.(record := r)
         else
           var last := |h.grants| - 1;
           t.(record := r, grants := h.grants[last := h.grants[last].(released := Some(e.now))]))
    case DoSave(principal, state, private, status) =>
      (match Save(h.record, principal, state, private, status, e.now)
       case Err(_) => t
       case Ok(r) => t.(record := r, saves := h.saves + [Saved(principal, e.now)]))
    case DoLook(principal) => t.(record := Look(h.record, principal, e.now, e.now))
  }

  function Fresh(permitted: set<string>, createdAt: nat): History {
    History(JobRecord(permitted, "active", None, None, createdAt, createdAt), [], [], createdAt)
  }

  predicate Monotone(start: nat, events: seq<Event>) {
    && (events != [] ==> start <= events[0].now)
    && forall i | 0 < i < |events| :: events[i - 1].now <= events[i].now
  }

  function Run(start: History, events: seq<Event>): History {
    if events == [] then start
    else Step(Run(start, events[..|events| - 1]), events[|events| - 1])
  }

  ghost predicate Disjoint(grants: seq<Grant>) {
    forall i, j | 0 <= i < j < |grants| :: End(grants[i]) <= grants[j].granted
  }

  /** The checkpoint was saved in a millisecond of lease `g`: not before it was granted, before it
      expired, and not after it was given back. */
  ghost predicate Under(c: Saved, g: Grant) {
    && g.principal == c.principal
    && g.granted <= c.at < g.expiresAt
    && (g.released.Some? ==> c.at <= g.released.value)
  }

  ghost predicate Covered(c: Saved, grants: seq<Grant>) {
    exists i :: 0 <= i < |grants| && Under(c, grants[i])
  }

  ghost predicate GrantOk(g: Grant, clock: nat) {
    && g.granted <= clock && g.granted < g.expiresAt
    && (g.released.Some? ==> g.granted <= g.released.value <= clock)
  }

  /** The active lease is the newest grant, still unreleased; every other grant has ended. */
  ghost predicate LeasesOk(h: History) {
    && Disjoint(h.grants)
    && (forall i | 0 <= i < |h.grants| :: GrantOk(h.grants[i], h.clock))
    && (forall i | 0 <= i < |h.grants| ::
          End(h.grants[i]) <= h.clock || (i == |h.grants| - 1 && h.record.activeLease.Some?))
    && (h.record.activeLease.Some? ==>
          && h.grants != []
          && var g := h.grants[|h.grants| - 1];
             && ExecutionLease(g.leaseId, g.principal, g.expiresAt) == h.record.activeLease.value
             && g.released.None?)
  }

  ghost predicate SavesOk(h: History) {
    forall c | c in h.saves :: c.at <= h.clock && Covered(c, h.grants)
  }

  ghost predicate Inv(h: History) {
    LeasesOk(h) && SavesOk(h)
  }

  lemma CoverSurvives(c: Saved, before: seq<Grant>, after: seq<Grant>, now: nat)
    requires Covered(c, before) && c.at <= now && |before| <= |after|
    requires forall i | 0 <= i < |before| ::
      after[i] == before[i] || after[i] == before[i].(released := Some(now))
    ensures Covered(c, after)
  {}

  lemma ClockKeepsLeases(h: History, now: nat)
    requires LeasesOk(h) && h.clock <= now
    ensures LeasesOk(h.(clock := now))
  {}

  lemma GrantKeepsLeases(h: History, r: JobRecord, g: Grant)
    requires LeasesOk(h)
    requires h.record.activeLease.Some? ==> h.record.activeLease.value.expiresAt <= h.clock
    requires g.granted == h.clock && g.expiresAt > h.clock && g.released.None?
    requires r.activeLease == Some(ExecutionLease(g.leaseId, g.principal, g.expiresAt))
    ensures LeasesOk(h.(record := r, grants := h.grants + [g]))
  {}

  lemma ReleaseKeepsLeases(h: History, r: JobRecord)
    requires LeasesOk(h) && h.record.activeLease.Some? && r.activeLease.None?
    requires h.grants != []
    ensures var last := |h.grants| - 1;
            LeasesOk(h.(record := r, grants := h.grants[last := h.grants[last].(released := Some(h.clock))]))
  {}

  lemma AcquireKeepsLeases(h: History, e: Event)
    requires LeasesOk(h) && h.clock <= e.now && e.op.DoAcquire?
    ensures LeasesOk(Step(h, e))
  {
    ClockKeepsLeases(h, e.now);
    var r := Acquire(h.record, e.op.principal, e.op.ttl, e.op.leaseId, e.now);
    if r.Ok? {
      var lease := r.value.activeLease.value;
      var grant := Grant(lease.leaseId, lease.principal, e.now, lease.expiresAt, None);
      GrantKeepsLeases(h.(clock := e.now), r.value, grant);
    }
  }

  lemma ReleaseStepKeepsLeases(h: History, e: Event)
    requires LeasesOk(h) && h.clock <= e.now && e.op.DoRelease?
    ensures LeasesOk(Step(h, e))
  {
    ClockKeepsLeases(h, e.now);
    var r := Release(h.record, e.op.principal, e.op.expected, e.now);
    if r.Ok? {
      ReleaseKeepsLeases(h.(clock := e.now), r.value);
    }
  }

  /** Anything else grants and releases nothing; at most it drops an expired lease. */
  lemma QuietStepKeepsLeases(h: History, e: Event)
    requires LeasesOk(h) && h.clock <= e.now && (e.op.DoSave? || e.op.DoLook?)
    ensures LeasesOk(Step(h, e))
  {
    var t := Step(h, e);
    assert t.grants == h.grants;
    assert t.record.activeLease == h.record.activeLease || (t.record.activeLease.None? && Expired(h.record, e.now));
  }

  lemma StepKeepsLeases(h: History, e: Event)
    requires LeasesOk(h) && h.clock <= e.now
    ensures LeasesOk(Step(h, e))
  {
    match e.op {
      case DoAcquire(_, _, _) => AcquireKeepsLeases(h, e);
      case DoRelease(_, _) => ReleaseStepKeepsLeases(h, e);
      case DoSave(_, _, _, _) => QuietStepKeepsLeases(h, e);
      case DoLook(_) => QuietStepKeepsLeases(h, e);
    }
  }

  lemma StepChangesGrants(h: History, e: Event)
    requires LeasesOk(h)
    ensures var before, after := h.grants, Step(h, e).grants;
            && |before| <= |after|
            && forall i | 0 <= i < |before| ::
                 after[i] == before[i] || after[i] == before[i].(released := Some(e.now))
  {}

  /** An accepted checkpoint is covered by the newest grant. */
  lemma SaveIsCovered(h: History, e: Event)
    requires LeasesOk(h) && h.clock <= e.now && e.op.DoSave?
    requires Save(h.record, e.op.principal, e.op.state, e.op.private, e.op.status, e.now).Ok?
    ensures Covered(Saved(e.op.principal, e.now), h.grants)
  {
    var last := |h.grants| - 1;
    assert GrantOk(h.grants[last], h.clock);
    assert Under(Saved(e.op.principal, e.now), h.grants[last]);
  }

  lemma StepKeepsSaves(h: History, e: Event)
    requires Inv(h) && h.clock <= e.now
    ensures SavesOk(Step(h, e))
  {
    var t := Step(h, e);
    StepChangesGrants(h, e);
    forall c | c in t.saves ensures c.at <= t.clock && Covered(c, t.grants) {
      if c in h.saves {
        CoverSurvives(c, h.grants, t.grants, e.now);
      } else {
        SaveIsCovered(h, e);
      }
    }
  }

  lemma {:induction false} RunKeepsInv(permitted: set<string>, createdAt: nat, events: seq<Event>)
    requires Monotone(createdAt, events)
    ensures Inv(Run(Fresh(permitted, createdAt), events))
    ensures Run(Fresh(permitted, createdAt), events).clock
         == if events == [] then createdAt else events[|events| - 1].now
  {
    if events != [] {
      RunKeepsInv(permitted, createdAt, events[..|events| - 1]);
      var h := Run(Fresh(permitted, createdAt), events[..|events| - 1]);
      StepKeepsLeases(h, events[|events| - 1]);
      StepKeepsSaves(h, events[|events| - 1]);
    }
  }

  /** However principals acquire, release, save and look, no two leases of a job are ever in
      force at the same time. */
  lemma LeasesNeverOverlap(permitted: set<string>, createdAt: nat, events: seq<Event>, i: nat, j: nat, at: nat)
    requires Monotone(createdAt, events)
    requires i < j < |Run(Fresh(permitted, createdAt), events).grants|
    ensures var grants := Run(Fresh(permitted, createdAt), events).grants;
            !(grants[i].granted <= at < End(grants[i]) && grants[j].granted <= at < End(grants[j]))
  {
    RunKeepsInv(permitted, createdAt, events);
  }

  // ---------- What is granted, released and saved ----------

  predicate InForce(g: Grant, now: nat) {
    g.granted <= now < End(g)
  }

  /** This principal's lease is in force. */
  ghost predicate HasLease(grants: seq<Grant>, principal: string, now: nat) {
    exists g :: g in grants && InForce(g, now) && g.principal == principal
  }

  ghost predicate Leased(grants: seq<Grant>, now: nat) {
    exists g :: g in grants && InForce(g, now)
  }

  lemma ActiveIsInForce(h: History, now: nat)
    requires LeasesOk(h) && h.clock <= now
    ensures Leased(h.grants, now) <==> h.record.activeLease.Some? && now < h.record.activeLease.value.expiresAt
    ensures forall g | g in h.grants && InForce(g, now) ::
      g == h.grants[|h.grants| - 1] && h.record.activeLease == Some(ExecutionLease(g.leaseId, g.principal, g.expiresAt))
  {
    if h.record.activeLease.Some? && now < h.record.activeLease.value.expiresAt {
      var last := |h.grants| - 1;
      assert GrantOk(h.grants[last], h.clock);
      assert h.grants[last] in h.grants && InForce(h.grants[last], now);
    }
  }

  lemma PermittedNeverChange(h: History, e: Event)
    ensures Step(h, e).record.permitted == h.record.permitted
  {}

  lemma {:induction false} RunKeepsPermitted(permitted: set<string>, createdAt: nat, events: seq<Event>)
    ensures Run(Fresh(permitted, createdAt), events).record.permitted == permitted
  {
    if events != [] {
      RunKeepsPermitted(permitted, createdAt, events[..|events| - 1]);
      PermittedNeverChange(Run(Fresh(permitted, createdAt), events[..|events| - 1]), events[|events| - 1]);
    }
  }

  /** Who is refused, and with which error, by a record. */
  lemma RefusalsMean(r: JobRecord, principal: string, ttl: Option<int>, lease: string, expected: Option<string>,
                     state: string, private: bool, status: Option<string>, now: nat)
    ensures var held := r.activeLease.Some? && now < r.activeLease.value.expiresAt;
            var own := held && r.activeLease.value.principal == principal;
            var permitted := principal in r.permitted;
            var acquired, released, saved :=
              Acquire(r, principal, ttl, lease, now), Release(r, principal, expected, now),
              Save(r, principal, state, private, status, now);
            var outOfRange := ttl.Some? && (ttl.value <= 0 || ttl.value > 3_600_000);
            var blank := status.Some? && IsBlank(status.value);
            && (acquired == Err(InvalidArguments) <==> outOfRange)
            && (acquired == Err(PermissionDenied) <==> !outOfRange && !permitted)
            && (acquired == Err(ResourceConflict) <==> !outOfRange && permitted && held)
            && released != Err(InvalidArguments)
            && (released == Err(PermissionDenied) <==> !permitted || (held && !own))
            && (released == Err(ResourceConflict) <==>
                  permitted && (!held || (own && expected.Some? && expected.value != r.activeLease.value.leaseId)))
            && (saved == Err(InvalidArguments) <==> private || (permitted && own && blank))
            && (saved == Err(PermissionDenied) <==> !private && (!permitted || (held && !own)))
            && (saved == Err(ResourceConflict) <==> !private && permitted && !held)
  {}

  /** Looking takes away an expired lease from the sight of those who may see the job, and nothing else. */
  lemma LookMeans(r: JobRecord, principal: string, now: nat, storedAt: nat)
    ensures var seen := Look(r, principal, now, storedAt);
            if principal in r.permitted && r.activeLease.Some? && r.activeLease.value.expiresAt <= now
            then seen == r.(activeLease := None, updatedAt := storedAt) else seen == r
  {}

  /** After any run a lease is granted exactly to a permitted principal that asks for a lifetime of
      at most an hour while no lease is in force. */
  lemma LeaseIsGrantedExactly(permitted: set<string>, createdAt: nat, events: seq<Event>, e: Event)
    requires Monotone(createdAt, events) && Run(Fresh(permitted, createdAt), events).clock <= e.now && e.op.DoAcquire?
    ensures var h := Run(Fresh(permitted, createdAt), events);
            Step(h, e).grants != h.grants
            <==> && e.op.principal in permitted && (e.op.ttl.Some? ==> 0 < e.op.ttl.value <= 3_600_000)
                 && !Leased(h.grants, e.now)
  {
    RunKeepsInv(permitted, createdAt, events);
    RunKeepsPermitted(permitted, createdAt, events);
    ActiveIsInForce(Run(Fresh(permitted, createdAt), events), e.now);
  }

  /** A lease is given back exactly by the principal it was granted to, while it is in force. */
  lemma LeaseIsReleasedExactly(permitted: set<string>, createdAt: nat, events: seq<Event>, e: Event)
    requires Monotone(createdAt, events) && Run(Fresh(permitted, createdAt), events).clock <= e.now && e.op.DoRelease?
    ensures var h := Run(Fresh(permitted, createdAt), events);
            Step(h, e).grants != h.grants
            <==> && e.op.principal in permitted
                 && exists g :: g in h.grants && InForce(g, e.now) && g.principal == e.op.principal
                                && e.op.expected in {None, Some(g.leaseId)}
  {
    var h := Run(Fresh(permitted, createdAt), events);
    RunKeepsInv(permitted, createdAt, events);
    RunKeepsPermitted(permitted, createdAt, events);
    ActiveIsInForce(h, e.now);
    if Release(h.record, e.op.principal, e.op.expected, e.now).Ok? {
      var last := |h.grants| - 1;
      assert Step(h, e).grants[last] != h.grants[last];
      var g :| g in h.grants && InForce(g, e.now);
      assert g.principal == e.op.principal && e.op.expected in {None, Some(g.leaseId)};
    } else {
      assert Step(h, e).grants == h.grants;
    }
  }

  /** A checkpoint is accepted exactly from the principal whose lease is in force, and sets the status
      it names, if any. */
  lemma CheckpointIsSavedExactly(permitted: set<string>, createdAt: nat, events: seq<Event>, e: Event)
    requires Monotone(createdAt, events) && Run(Fresh(permitted, createdAt), events).clock <= e.now && e.op.DoSave?
    ensures var h := Run(Fresh(permitted, createdAt), events);
            Step(h, e).saves != h.saves
            <==> && e.op.principal in permitted && HasLease(h.grants, e.op.principal, e.now)
                 && !e.op.private && (e.op.status.Some? ==> !IsBlank(e.op.status.value))
    ensures var h := Run(Fresh(permitted, createdAt), events);
            var t := Step(h, e);
            if t.saves == h.saves then t.record == h.record
            else
              && t.record.updatedAt == e.now && t.record.createdAt == h.record.createdAt
              && t.record.status == (match e.op.status case None => h.record.status case Some(status) => status)
  {
    RunKeepsInv(permitted, createdAt, events);
    RunKeepsPermitted(permitted, createdAt, events);
    ActiveIsInForce(Run(Fresh(permitted, createdAt), events), e.now);
  }

  /** The event asked for this grant, for as long as it lasts. */
  predicate GrantedBy(g: Grant, e: Event) {
    && e.op.DoAcquire? && e.op.principal == g.principal && e.op.leaseId == g.leaseId && e.now == g.granted
    && g.expiresAt == e.now + match e.op.ttl case None => 60_000 case Some(ttl) => ttl
  }

  predicate ReleasedBy(g: Grant, e: Event) {
    e.op.DoRelease? && e.op.principal == g.principal && g.released == Some(e.now)
  }

  ghost predicate WasGranted(g: Grant, events: seq<Event>) {
    exists e :: e in events && GrantedBy(g, e)
  }

  ghost predicate WasReleased(g: Grant, events: seq<Event>) {
    exists e :: e in events && ReleasedBy(g, e)
  }

  ghost predicate WasRequested(g: Grant, events: seq<Event>) {
    WasGranted(g, events) && (g.released.Some? ==> WasReleased(g, events))
  }

  /** The event asked for this checkpoint. */
  predicate SavedBy(c: Checkpoint, e: Event) {
    e.op.DoSave? && c == Checkpoint(e.op.principal, e.op.state, e.now)
  }

  /** What the record holds is the newest checkpoint accepted, as it was asked for. */
  ghost predicate NewestSaved(h: History, events: seq<Event>) {
    if h.saves == [] then h.record.latestCheckpoint == None
    else
      && h.record.latestCheckpoint.Some?
      && var c := h.record.latestCheckpoint.value;
      h.saves[|h.saves| - 1] == Saved(c.principal, c.createdAt) && exists e :: e in events && SavedBy(c, e)
  }

  lemma StillRequested(g: Grant, events: seq<Event>, e: Event, later: Grant)
    requires WasRequested(g, events) && (later == g || (later == g.(released := Some(e.now)) && ReleasedBy(later, e)))
    ensures WasRequested(later, events + [e])
  {
    var x :| x in events && GrantedBy(g, x);
    assert x in events + [e] && GrantedBy(later, x);
    assert e in events + [e];
    if later == g && g.released.Some? {
      var y :| y in events && ReleasedBy(g, y);
      assert y in events + [e];
    }
  }

  lemma StepKeepsRequests(h: History, events: seq<Event>, e: Event)
    requires LeasesOk(h) && (forall g | g in h.grants :: WasRequested(g, events))
    ensures forall g | g in Step(h, e).grants :: WasRequested(g, events + [e])
  {
    var t := Step(h, e);
    StepChangesGrants(h, e);
    forall i | 0 <= i < |t.grants| ensures WasRequested(t.grants[i], events + [e]) {
      if i < |h.grants| {
        assert h.grants[i] in h.grants;
        StillRequested(h.grants[i], events, e, t.grants[i]);
      } else {
        assert e in events + [e] && GrantedBy(t.grants[i], e);
      }
    }
  }

  lemma StepKeepsNewest(h: History, events: seq<Event>, e: Event)
    requires NewestSaved(h, events)
    ensures NewestSaved(Step(h, e), events + [e])
  {
    var t := Step(h, e);
    if t.saves != h.saves {
      assert e in events + [e] && SavedBy(t.record.latestCheckpoint.value, e);
    } else if h.saves != [] {
      var x :| x in events && SavedBy(h.record.latestCheckpoint.value, x);
      assert x in events + [e];
    }
  }

  /** Every lease was granted at the request of its principal, for the time asked or a minute, and
      released, if it was, at the request of that principal; the checkpoint held is the newest. */
  lemma {:induction false} GrantsWereRequested(permitted: set<string>, createdAt: nat, events: seq<Event>)
    requires Monotone(createdAt, events)
    ensures forall g | g in Run(Fresh(permitted, createdAt), events).grants :: WasRequested(g, events)
    ensures NewestSaved(Run(Fresh(permitted, createdAt), events), events)
  {
    if events != [] {
      var front, e := events[..|events| - 1], events[|events| - 1];
      assert events == front + [e];
      MonotonePrefix(createdAt, events, |events| - 1);
      GrantsWereRequested(permitted, createdAt, front);
      RunKeepsInv(permitted, createdAt, front);
      StepKeepsRequests(Run(Fresh(permitted, createdAt), front), front, e);
      StepKeepsNewest(Run(Fresh(permitted, createdAt), front), front, e);
    }
  }

  /** The checkpoint lies in the half-open interval in which the lease was in force. */
  ghost predicate Inside(c: Saved, g: Grant) {
    g.principal == c.principal && g.granted <= c.at < End(g)
  }

  ghost predicate InsideSome(c: Saved, grants: seq<Grant>) {
    exists i :: 0 <= i < |grants| && Inside(c, grants[i])
  }

  /** The stored record has a lease of this principal that has not expired. */
  predicate Holds(r: JobRecord, principal: string, at: nat) {
    r.activeLease.Some? && r.activeLease.value.principal == principal && at < r.activeLease.value.expiresAt
  }

  lemma InsideNowMeansHolds(h: History, principal: string)
    requires LeasesOk(h)
    ensures InsideSome(Saved(principal, h.clock), h.grants) <==> Holds(h.record, principal, h.clock)
  {
    var c := Saved(principal, h.clock);
    if Holds(h.record, principal, h.clock) {
      var last := |h.grants| - 1;
      assert GrantOk(h.grants[last], h.clock);
      assert Inside(c, h.grants[last]);
    }
  }

  /** What happens in a later millisecond does not move a checkpoint into or out of a lease. */
  lemma LaterStepKeepsInside(h: History, e: Event, c: Saved)
    requires LeasesOk(h) && h.clock <= e.now && c.at < e.now
    ensures InsideSome(c, Step(h, e).grants) <==> InsideSome(c, h.grants)
  {
    var t := Step(h, e);
    assert |h.grants| <= |t.grants|;
    forall i | 0 <= i < |h.grants| ensures Inside(c, t.grants[i]) <==> Inside(c, h.grants[i]) {}
    forall i | |h.grants| <= i < |t.grants| ensures !Inside(c, t.grants[i]) {}
  }

  lemma MonotonePrefix(start: nat, events: seq<Event>, n: nat)
    requires Monotone(start, events) && n <= |events|
    ensures Monotone(start, events[..n])
  {}

  /** The `m`-th event is the last of its millisecond. */
  predicate EndsMillisecond(events: seq<Event>, m: nat) {
    0 < m <= |events| && forall j | m <= j < |events| :: events[m - 1].now < events[j].now
  }

  /** A moment lies in some lease interval of a principal exactly if, when the millisecond was over,
      the stored record still had an unexpired lease of that principal. */
  lemma {:induction false} InsideExactlyIfHeld(permitted: set<string>, createdAt: nat, events: seq<Event>, m: nat,
                                               principal: string)
    requires Monotone(createdAt, events) && EndsMillisecond(events, m)
    ensures var at := events[m - 1].now;
            InsideSome(Saved(principal, at), Run(Fresh(permitted, createdAt), events).grants)
            <==> Holds(Run(Fresh(permitted, createdAt), events[..m]).record, principal, at)
    decreases |events|
  {
    var start, at := Fresh(permitted, createdAt), events[m - 1].now;
    if m == |events| {
      assert events[..m] == events;
      RunKeepsInv(permitted, createdAt, events);
      InsideNowMeansHolds(Run(start, events), principal);
    } else {
      var front, last := events[..|events| - 1], events[|events| - 1];
      MonotonePrefix(createdAt, events, |events| - 1);
      assert front[..m] == events[..m];
      InsideExactlyIfHeld(permitted, createdAt, front, m, principal);
      RunKeepsInv(permitted, createdAt, front);
      LaterStepKeepsInside(Run(start, front), last, Saved(principal, at));
    }
  }

  lemma {:induction false} SavedDuring(permitted: set<string>, createdAt: nat, events: seq<Event>, c: Saved)
    returns (m: nat)
    requires Monotone(createdAt, events) && c in Run(Fresh(permitted, createdAt), events).saves
    ensures EndsMillisecond(events, m) && events[m - 1].now == c.at
  {
    var front, last := events[..|events| - 1], events[|events| - 1];
    MonotonePrefix(createdAt, events, |events| - 1);
    if last.now == c.at {
      m := |events|;
    } else {
      assert c in Run(Fresh(permitted, createdAt), front).saves;
      m := SavedDuring(permitted, createdAt, front, c);
      assert front[m - 1] == events[m - 1] && forall j | m <= j < |front| :: front[j] == events[j];
      assert c.at <= last.now by {
        MonotoneUpTo(createdAt, events, m - 1);
      }
    }
  }

  lemma {:induction false} MonotoneUpTo(start: nat, events: seq<Event>, i: nat)
    requires Monotone(start, events) && i < |events|
    ensures events[i].now <= events[|events| - 1].now
    decreases |events| - i
  {
    if i < |events| - 1 {
      MonotoneUpTo(start, events, i + 1);
    }
  }

  /** Every accepted checkpoint was saved under a lease of its own principal.  It lies in the
      half-open interval of one exactly if its principal still held an unexpired lease when the
      millisecond was over: `m` events had happened then. */
  lemma CheckpointsAreCovered(permitted: set<string>, createdAt: nat, events: seq<Event>, c: Saved) returns (m: nat)
    requires Monotone(createdAt, events)
    requires c in Run(Fresh(permitted, createdAt), events).saves
    ensures Covered(c, Run(Fresh(permitted, createdAt), events).grants)
    ensures EndsMillisecond(events, m) && events[m - 1].now == c.at
    ensures InsideSome(c, Run(Fresh(permitted, createdAt), events).grants)
       <==> Holds(Run(Fresh(permitted, createdAt), events[..m]).record, c.principal, c.at)
  {
    RunKeepsInv(permitted, createdAt, events);
    m := SavedDuring(permitted, createdAt, events, c);
    InsideExactlyIfHeld(permitted, createdAt, events, m, c.principal);
  }

  /** A checkpoint and a release in the same millisecond: the save is accepted, and the lease's
      half-open interval does not contain it. */
  lemma SameMillisecondRelease()
    ensures var events := [Event(DoAcquire("p", None, "l"), 5), Event(DoSave("p", "s", false, None), 7),
                           Event(DoRelease("p", None), 7)];
            var h := Run(Fresh({"p"}, 0), events);
            && Monotone(0, events)
            && h.saves == [Saved("p", 7)]
            && |h.grants| == 1 && Under(h.saves[0], h.grants[0]) && !InsideSome(h.saves[0], h.grants)
  {
    var a, r := Event(DoAcquire("p", None, "l"), 5), Event(DoRelease("p", None), 7);
    var s := Event(DoSave("p", "s", false, None), 7);
    var start := Fresh({"p"}, 0);
    var grant := Grant("l", "p", 5, 5 + DEFAULT_LEASE_TTL_MS, None);
    var held, saved := Step(start, a), Step(Step(start, a), s);
    assert [a, s, r][..2] == [a, s] && [a, s][..1] == [a] && [a][..0] == [];
    assert Run(start, [a]) == held;
    assert held.grants == [grant] && held.record.activeLease == Some(ExecutionLease("l", "p", grant.expiresAt));
    assert saved.saves == [Saved("p", 7)] && saved.grants == [grant];
    assert Run(start, [a, s, r]) == Step(saved, r);
    assert Step(saved, r).grants == [grant.(released := Some(7))];
  }

  /** A lease is refused only while another is in force: the newest grant has not ended. */
  lemma ConflictMeansInForce(permitted: set<string>, createdAt: nat, events: seq<Event>, e: Event)
    requires Monotone(createdAt, events + [e]) && e.op.DoAcquire?
    ensures var h := Run(Fresh(permitted, createdAt), events);
            Acquire(h.record, e.op.principal, e.op.ttl, e.op.leaseId, e.now) == Err(ResourceConflict) ==>
              && h.grants != []
              && h.grants[|h.grants| - 1].granted <= e.now < End(h.grants[|h.grants| - 1])
  {
    assert Monotone(createdAt, events) by {
      assert forall i | 0 <= i < |events| :: (events + [e])[i] == events[i];
    }
    RunKeepsInv(permitted, createdAt, events);
    if events != [] {
      assert (events + [e])[|events| - 1].now <= (events + [e])[|events|].now;
    } else {
      assert (events + [e])[0] == e;
    }
  }
}
