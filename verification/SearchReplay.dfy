/** The compatibility edge of adapters/rdc-compat/src/service.ts: random-access pages over a
    search stream that can be read only once, and small integers standing for process handles.
 */
module SearchReplay {
  import opened Wrappers
  import opened SearchSession

  // ---------- Pages ----------

  datatype Cache = Cache(matches: seq<Item>, done: bool)

  datatype Page = Page(results: seq<Item>, offset: nat, total: nat, complete: bool)

  const DEFAULT_LENGTH: nat := 100

  function OffsetOf(input: Option<int>): int {
    if input.Some? then input.value else 0
  }

  function LengthOf(input: Option<int>): nat {
    if input.Some? && input.value >= 0 then input.value else DEFAULT_LENGTH
  }

  /** What is not an integer is taken as 0 and 100, and so is a negative length. */
  lemma DefaultsMean(input: Option<int>)
    ensures input.None? ==> OffsetOf(input) == 0 && LengthOf(input) == 100
    ensures input.Some? ==> OffsetOf(input) == input.value && LengthOf(input) in {input.value, 100}
    ensures input.Some? ==> (LengthOf(input) == input.value <==> input.value >= 0)
  {}

  function DesiredEnd(c: Cache, offset: int, length: nat): nat {
    if offset < 0 then |c.matches| else offset + length
  }

  predicate NeedsMore(c: Cache, offset: int, length: nat) {
    !c.done && |c.matches| < DesiredEnd(c, offset, length)
  }

  /** What is asked of the stream: never nothing, and enough to reach the end of the page. */
  function Need(c: Cache, offset: int, length: nat): (n: nat)
    requires NeedsMore(c, offset, length)
    ensures n > 0 && |c.matches| + n >= DesiredEnd(c, offset, length)
  {
    var missing := DesiredEnd(c, offset, length) - |c.matches|;
    if length > missing then length else missing
  }

  /** A page at the end of the cache asks for nothing.  Any other page that an unfinished search has
      not got in its cache causes a read that is large enough for what is missing, and for a page. */
  lemma NeedMeans(c: Cache, offset: int, length: nat)
    ensures NeedsMore(c, offset, length) <==> !c.done && offset >= 0 && offset + length > |c.matches|
    ensures NeedsMore(c, offset, length) ==>
              var n := Need(c, offset, length);
              n >= offset + length - |c.matches| && n >= length && n in {length, offset + length - |c.matches|}
  {}

  /** `slice` on an array: both ends are clipped. */
  function Slice(s: seq<Item>, start: nat, end: nat): seq<Item> {
    var hi := if end < |s| then end else |s|;
    if start < hi then s[start..hi] else []
  }

  function PageOf(c: Cache, offset: int, length: nat): Page {
    var start: nat := if offset >= 0 then offset else if |c.matches| > -offset then |c.matches| + offset else 0;
    var end := if offset >= 0 then start + length else |c.matches|;
    Page(Slice(c.matches, start, end), start, |c.matches|, c.done)
  }

  // ---------- The service ----------

  datatype ReadCall = ReadCall(handle: string, maxItems: nat)

  /** The search provider as the edge sees it.  `streams[h]` is everything the search behind
      `h` will ever send; a read consumes some of it from where the last read stopped. */
  class Agent {
    const streams: map<string, seq<Item>>
    /** A reliable agent answers every read of a search it knows. */
    const reliable: bool
    /** A prompt agent has the next item of an unfinished stream ready whenever it is read. */
    const prompt: bool
    var position: map<string, nat>
    /** Every read asked for, answered or not. */
    var asked: seq<ReadCall>

    ghost predicate Valid()
      reads this
    {
      position.Keys == streams.Keys && forall h | h in streams :: position[h] <= |streams[h]|
    }

    constructor (streams: map<string, seq<Item>>, reliable: bool, prompt: bool)
      ensures Valid() && this.streams == streams && this.reliable == reliable && this.prompt == prompt && asked == []
    {
      this.streams, this.reliable, this.prompt, asked := streams, reliable, prompt, [];
      position := map h | h in streams :: 0;
    }

    method Read(handle: string, maxItems: nat) returns (r: Result<(seq<Item>, bool), string>)
      requires Valid() && maxItems > 0
      modifies this
      ensures Valid() && asked == old(asked) + [ReadCall(handle, maxItems)]
      ensures r.Err? ==> r.error == "provider_failure" && position == old(position) && !(reliable && handle in streams)
      ensures r.Ok? ==>
        && handle in streams
        && |r.value.0| <= maxItems
        && position == old(position)[handle := old(position)[handle] + |r.value.0|]
        && r.value.0 == streams[handle][old(position)[handle]..position[handle]]
        && (r.value.1 ==> position[handle] == |streams[handle]|)
        && (prompt && old(position)[handle] < |streams[handle]| ==> |r.value.0| > 0)
    {
      asked := asked + [ReadCall(handle, maxItems)];
      var failed: bool := *;
      if (failed && !reliable) || handle !in streams {
        return Err("provider_failure");
      }
      var at := position[handle];
      var ready :| (if prompt then 1 else 0) <= ready;
      var left: nat := |streams[handle]| - at;
      var n: nat := if ready < left then ready else left;
      if n > maxItems {
        n := maxItems;
      }
      var over: bool := *;
      position := position[handle := at + n];
      return Ok((streams[handle][at..at + n], over && at + n == |streams[handle]|));
    }
  }

  class CompatibilityService {
    const agent: Agent
    var searches: map<string, Cache>
    var processByCompatPid: map<int, string>
    var compatPidByHandle: map<string, int>
    var nextCompatPid: int
    /** Where each stream stood when its cache was created, and which searches were stopped. */
    ghost var base: map<string, nat>
    ghost var stopped: set<string>

    /** Each cache holds what its stream has given since the cache was created. */
    ghost predicate Cached(h: string)
      requires h in searches
      reads this`searches, this`base, this`stopped, agent
    {
      if h in agent.streams then
        && h in base && h in agent.position
        && base[h] <= agent.position[h] <= |agent.streams[h]|
        && searches[h].matches == agent.streams[h][base[h]..agent.position[h]]
        && (searches[h].done && h !in stopped ==> agent.position[h] == |agent.streams[h]|)
      else
        searches[h].matches == [] && (searches[h].done ==> h in stopped)
    }

    ghost predicate PidsPaired()
      reads this`processByCompatPid, this`compatPidByHandle, this`nextCompatPid
    {
      && (forall h | h in compatPidByHandle ::
            compatPidByHandle[h] in processByCompatPid && processByCompatPid[compatPidByHandle[h]] == h)
      && (forall p | p in processByCompatPid ::
            processByCompatPid[p] in compatPidByHandle && compatPidByHandle[processByCompatPid[p]] == p)
      && (forall p | p in processByCompatPid :: 10_000 <= p < nextCompatPid)
      && 10_000 <= nextCompatPid
    }

    ghost predicate Valid()
      reads this, agent
    {
      agent.Valid() && PidsPaired() && forall h | h in searches :: Cached(h)
    }

    constructor (agent: Agent)
      requires agent.Valid()
      ensures Valid() && this.agent == agent && searches == map[] && stopped == {}
    {
      this.agent := agent;
      searches, processByCompatPid, compatPidByHandle := map[], map[], map[];
      nextCompatPid := 10_000;
      base, stopped := map[], {};
    }

    /** Reads more of the stream into the cache; on failure the cache is as it was. */
    method Refill(h: string, need: nat) returns (r: Result<(), string>)
      requires Valid() && h in searches && !searches[h].done && need > 0
      modifies this`searches, agent
      ensures Valid() && agent.asked == old(agent.asked) + [ReadCall(h, need)]
      ensures if r.Ok? then h in agent.streams else searches == old(searches) && !(agent.reliable && h in agent.streams)
      ensures r.Err? ==> r.error == "provider_failure"
      ensures h in searches && searches == old(searches)[h := searches[h]]
      ensures old(searches)[h].matches <= searches[h].matches
      ensures |searches[h].matches| <= |old(searches)[h].matches| + need
      ensures agent.prompt && r.Ok? && old(agent.position)[h] < |agent.streams[h]| ==>
        |searches[h].matches| > |old(searches)[h].matches|
    {
      ghost var from := if h in agent.streams then agent.position[h] else 0;
      var batch := agent.Read(h, need);
      if batch.Err? {
        return Err(batch.error);
      }
      assert agent.streams[h][base[h]..from] + agent.streams[h][from..agent.position[h]]
          == agent.streams[h][base[h]..agent.position[h]];
      searches := searches[h := Cache(searches[h].matches + batch.value.0, batch.value.1)];
      return Ok(());
    }

    /** A search that is started begins with an empty cache; `handle` is what the agent answers, if
        it does. */
    method StartSearch(handle: Option<string>) returns (r: Result<string, string>)
      requires Valid()
      modifies this`searches, this`base, this`stopped
      ensures Valid() && (r.Ok? <==> handle.Some?) && (r.Err? ==> r.error == "provider_failure")
      ensures r.Err? ==> searches == old(searches) && base == old(base) && stopped == old(stopped)
      ensures r.Ok? ==>
        && r.value == handle.value
        && searches == old(searches)[r.value := Cache([], false)]
        && stopped == old(stopped) - {r.value}
        && base == (if r.value in agent.streams then old(base)[r.value := agent.position[r.value]] else old(base))
    {
      if handle.None? {
        return Err("provider_failure");
      }
      var h := handle.value;
      if h in agent.streams {
        base := base[h := agent.position[h]];
      }
      searches, stopped := searches[h := Cache([], false)], stopped - {h};
      return Ok(h);
    }

    /** What the cache of `h` is before a read of it. */
    function CacheOf(h: string): Cache
      reads this`searches
    {
      if h in searches then searches[h] else Cache([], false)
    }

    /** Where the stream stood, or stands now, when the cache of `h` was created. */
    ghost function BaseOf(h: string): nat
      requires Valid() && h in agent.streams
      reads this, agent
    {
      if h in searches then base[h] else agent.position[h]
    }

    /** What the stream gives, and will give, to the cache of `h`. */
    ghost function Rest(h: string): seq<Item>
      requires Valid()
      reads this, agent
    {
      if h in agent.streams then agent.streams[h][BaseOf(h)..] else []
    }

    lemma CacheIsHeadOfRest(h: string)
      requires Valid()
      ensures CacheOf(h).matches <= Rest(h)
      ensures CacheOf(h).done && h !in stopped ==> CacheOf(h).matches == Rest(h)
      ensures h in agent.streams && |CacheOf(h).matches| < |Rest(h)| ==> agent.position[h] < |agent.streams[h]|
    {
      assert h in searches ==> Cached(h);
    }

    /** A search not known here is taken as just started. */
    method Open(h: string)
      requires Valid()
      modifies this`searches, this`base
      ensures Valid() && h in searches && searches == old(searches)[h := old(CacheOf(h))]
      ensures h in agent.streams ==> base[h] == old(BaseOf(h))
    {
      if h !in searches {
        if h in agent.streams {
          base := base[h := agent.position[h]];
        }
        searches := searches[h := Cache([], false)];
      }
    }

    /** `rawOffset` and `rawLength` are absent when the input is not an integer. */
    method ReadSearch(sessionId: Option<string>, rawOffset: Option<int>, rawLength: Option<int>)
        returns (r: Result<Page, string>)
      requires Valid()
      modifies this`searches, this`base, agent
      ensures Valid()
      ensures sessionId.None? ==>
        r == Err("invalid_arguments") && searches == old(searches) && agent.asked == old(agent.asked)
      ensures sessionId.Some? ==>
        var h := sessionId.value;
        var before := old(CacheOf(h));
        var offset, length := OffsetOf(rawOffset), LengthOf(rawLength);
        && h in searches
        && searches == old(searches)[h := searches[h]]
        && before.matches <= searches[h].matches
        && (r.Err? ==> r.error == "provider_failure" && searches[h] == before && NeedsMore(before, offset, length))
        && (!NeedsMore(before, offset, length) ==> searches[h] == before && agent.position == old(agent.position))
        && (r.Ok? ==> r.value == PageOf(searches[h], offset, length))
        && (h in agent.streams ==> base[h] == old(BaseOf(h)))
        && agent.asked == old(agent.asked)
             + (if NeedsMore(before, offset, length) then [ReadCall(h, Need(before, offset, length))] else [])
      ensures sessionId.Some? && agent.reliable && sessionId.value in agent.streams ==>
        var h := sessionId.value;
        && r.Ok?
        && (agent.prompt && old(agent.position)[h] < |agent.streams[h]|
            && NeedsMore(old(CacheOf(h)), OffsetOf(rawOffset), LengthOf(rawLength)) ==>
              |searches[h].matches| > |old(CacheOf(h)).matches|)
    {
      if sessionId.None? {
        return Err("invalid_arguments");
      }
      var h := sessionId.value;
      Open(h);
      var offset, length := OffsetOf(rawOffset), LengthOf(rawLength);
      if NeedsMore(searches[h], offset, length) {
        var refilled := Refill(h, Need(searches[h], offset, length));
        if refilled.Err? {
          return Err(refilled.error);
        }
      }
      return Ok(PageOf(searches[h], offset, length));
    }

    /** Stopping ends a cached search whether or not its stream was read to the end. */
    method StopSearch(sessionId: string, accepted: bool)
      requires Valid()
      modifies this`searches, this`stopped
      ensures Valid()
      ensures accepted && sessionId in old(searches) ==>
        searches == old(searches)[sessionId := old(searches)[sessionId].(done := true)]
      ensures !accepted || sessionId !in old(searches) ==> searches == old(searches) && stopped == old(stopped)
    {
      if accepted && sessionId in searches {
        stopped := stopped + {sessionId};
        searches := searches[sessionId := searches[sessionId].(done := true)];
      }
    }

    /** A handle keeps the number it was first given, and different handles get different numbers. */
    method CompatPid(handle: string) returns (pid: int)
      requires Valid()
      modifies this`processByCompatPid, this`compatPidByHandle, this`nextCompatPid
      ensures Valid()
      ensures compatPidByHandle == old(compatPidByHandle)[handle := pid]
      ensures processByCompatPid == old(processByCompatPid)[pid := handle]
      ensures handle in old(compatPidByHandle) <==> pid in old(processByCompatPid)
      ensures handle !in old(compatPidByHandle) ==> pid == old(nextCompatPid) && nextCompatPid == pid + 1
      ensures handle in old(compatPidByHandle) ==> nextCompatPid == old(nextCompatPid)
    {
      if handle in compatPidByHandle {
        return compatPidByHandle[handle];
      }
      pid := nextCompatPid;
      nextCompatPid := nextCompatPid + 1;
      compatPidByHandle := compatPidByHandle[handle := pid];
      processByCompatPid := processByCompatPid[pid := handle];
    }

    /** Resolving undoes `CompatPid`, except that an empty handle reads as absent. */
    method ResolveCompatPid(value: Option<int>) returns (r: Result<string, string>)
      requires Valid()
      ensures r.Ok? ==>
        r.value != "" && r.value in compatPidByHandle && value == Some(compatPidByHandle[r.value])
      ensures forall h | h in compatPidByHandle && h != "" && value == Some(compatPidByHandle[h]) :: r == Ok(h)
      ensures r == Err("invalid_arguments") <==> value.None?
      ensures r.Err? ==> r.error in {"invalid_arguments", "permission_denied"}
    {
      if value.None? {
        return Err("invalid_arguments");
      }
      var pid: int := value.value;
      if pid !in processByCompatPid || processByCompatPid[pid] == "" {
        return Err("permission_denied");
      }
      return Ok(processByCompatPid[pid]);
    }
  }

  /** One page more, from the end of what the client has. */
  method NextPage(service: CompatibilityService, h: string, had: seq<Item>, wasComplete: bool, length: Option<int>)
      returns (collected: seq<Item>, complete: bool)
    requires service.Valid() && had <= service.CacheOf(h).matches
    modifies service`searches, service`base, service.agent
    ensures service.Valid() && service.Rest(h) == old(service.Rest(h))
    ensures had <= collected <= service.CacheOf(h).matches
    ensures complete && h !in service.stopped ==> collected == service.Rest(h) || (wasComplete && collected == had)
    ensures service.agent.reliable && service.agent.prompt && h !in service.stopped && LengthOf(length) > 0 ==>
              |collected| > |had| || collected == service.Rest(h)
  {
    service.CacheIsHeadOfRest(h);
    var page := service.ReadSearch(Some(h), Some(|had|), length);
    service.CacheIsHeadOfRest(h);
    collected, complete := had, wasComplete;
    if page.Ok? {
      PageContinues(service.searches[h], had, LengthOf(length));
      assert |had| < |service.searches[h].matches| && LengthOf(length) > 0 ==> page.value.results != [];
      collected := had + page.value.results;
      complete := page.value.complete && |collected| == page.value.total;
    }
  }

  /** A client that pages through a search, each time from the end of what it has, whatever was
      read of the search before: `collected` is a head of the stream since its cache was created,
      and all of it once a page says that the search is complete and the offset has reached the
      reported total.  With an agent that answers and has something to answer, every page of
      non-zero length gets further. */
  method WalkSearch(service: CompatibilityService, h: string, lengths: seq<Option<int>>)
      returns (collected: seq<Item>, complete: bool)
    requires service.Valid()
    modifies service`searches, service`base, service.agent
    ensures service.Valid() && collected <= old(service.Rest(h))
    ensures complete && h !in service.stopped ==> collected == old(service.Rest(h))
    ensures service.agent.reliable && service.agent.prompt && h !in service.stopped
            && (forall i | 0 <= i < |lengths| :: LengthOf(lengths[i]) > 0) ==>
              |collected| >= |lengths| || collected == old(service.Rest(h))
  {
    collected, complete := [], false;
    ghost var rest := service.Rest(h);
    for i := 0 to |lengths|
      invariant service.Valid() && service.Rest(h) == rest
      invariant collected <= service.CacheOf(h).matches && collected <= rest
      invariant complete && h !in service.stopped ==> collected == rest
      invariant service.agent.reliable && service.agent.prompt && h !in service.stopped
                && (forall j | 0 <= j < |lengths| :: LengthOf(lengths[j]) > 0) ==>
                  |collected| >= i || collected == rest
    {
      ghost var had := collected;
      collected, complete := NextPage(service, h, collected, complete, lengths[i]);
      service.CacheIsHeadOfRest(h);
      assert had == rest ==> collected == rest;
    }
  }

  lemma PageContinues(c: Cache, collected: seq<Item>, length: nat)
    requires collected <= c.matches
    ensures collected + PageOf(c, |collected|, length).results <= c.matches
  {
    var page := PageOf(c, |collected|, length).results;
    assert collected + page == c.matches[..|collected| + |page|];
  }

  // ---------- What a page is ----------

  /** A page already served at a position is never changed by what arrives later: the later
      page at the same position extends it. */
  lemma ServedResultsNeverChange(before: Cache, after: Cache, offset: nat, length: nat)
    requires before.matches <= after.matches
    ensures PageOf(before, offset, length).results <= PageOf(after, offset, length).results
    ensures |PageOf(before, offset, length).results| == length
        ==> PageOf(after, offset, length).results == PageOf(before, offset, length).results
  {
    assert forall i | 0 <= i < |before.matches| :: before.matches[i] == after.matches[i];
  }

  /** A page at a non-negative offset is the piece of the stream that it asks for, as far as the
      total it reports goes. */
  lemma PageIsSliceOfStream(c: Cache, stream: seq<Item>, offset: nat, length: nat)
    requires c.matches <= stream
    ensures var page := PageOf(c, offset, length);
            && page.offset == offset && page.total == |c.matches| && page.complete == c.done
            && (if offset >= page.total then page.results == []
                else if offset + length <= page.total then page.results == stream[offset..offset + length]
                else page.results == stream[offset..page.total])
  {}

  /** A page at a negative offset is the newest part of the cache. */
  lemma NegativePageIsTail(c: Cache, offset: int, length: nat)
    requires offset < 0
    ensures var page := PageOf(c, offset, length);
            && page.total == |c.matches| && page.complete == c.done
            && |page.results| == (if -offset < |c.matches| then -offset else |c.matches|)
            && c.matches == c.matches[..page.offset] + page.results
            && !NeedsMore(c, offset, length)
  {
    var page := PageOf(c, offset, length);
    assert page.offset < |c.matches| ==> page.results == c.matches[page.offset..];
  }
}
