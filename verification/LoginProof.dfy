/** One-time login proofs: relay/src/auth/login-proof-registry.ts.

    A proof is one object reachable through two indexes, by interaction and by user code; an
    approval through one is seen through the other.  Inputs are taken as already validated.
 */
module LoginProof {
  import opened Wrappers

  datatype ErrorCode = AlreadyExists | InvalidOrExpired | AlreadyApproved | InsufficientRandomness | CodesExhausted

  // ---------- User codes ----------

  function HexDigit(n: int): char
    requires 0 <= n < 16
  {
    "0123456789ABCDEF"[n]
  }

  function Hex(bytes: seq<byte>): string {
    if bytes == [] then ""
    else [HexDigit(bytes[0] as int / 16), HexDigit(bytes[0] as int % 16)] + Hex(bytes[1..])
  }

  /** Eight upper-case hexadecimal digits in two groups of four. */
  function CodeOf(bytes: seq<byte>): string
    requires |bytes| >= 4
  {
    Hex(bytes[..2]) + "-" + Hex(bytes[2..4])
  }

  lemma {:induction false} HexMeans(bytes: seq<byte>)
    ensures |Hex(bytes)| == 2 * |bytes| && forall c | c in Hex(bytes) :: c in "0123456789ABCDEF"
  {
    if bytes != [] {
      HexMeans(bytes[1..]);
    }
  }

  lemma HexDigitIsInjective(m: int, n: int)
    requires 0 <= m < 16 && 0 <= n < 16 && HexDigit(m) == HexDigit(n)
    ensures m == n
  {
    var digits := "0123456789ABCDEF";
    assert digits[m] == digits[n];
  }

  lemma {:induction false} HexIsInjective(a: seq<byte>, b: seq<byte>)
    requires Hex(a) == Hex(b)
    ensures a == b
  {
    HexMeans(a);
    HexMeans(b);
    if a != [] {
      assert Hex(a)[0] == HexDigit(a[0] as int / 16) && Hex(a)[1] == HexDigit(a[0] as int % 16);
      assert Hex(b)[0] == HexDigit(b[0] as int / 16) && Hex(b)[1] == HexDigit(b[0] as int % 16);
      HexDigitIsInjective(a[0] as int / 16, b[0] as int / 16);
      HexDigitIsInjective(a[0] as int % 16, b[0] as int % 16);
      assert Hex(a)[2..] == Hex(a[1..]) && Hex(b)[2..] == Hex(b[1..]);
      HexIsInjective(a[1..], b[1..]);
      assert a == [a[0]] + a[1..] && b == [b[0]] + b[1..];
    }
  }

  /** A code is four digits, a dash and four digits. */
  lemma CodeShape(bytes: seq<byte>)
    requires |bytes| >= 4
    ensures |CodeOf(bytes)| == 9 && CodeOf(bytes)[4] == '-'
    ensures CodeOf(bytes)[..4] == Hex(bytes[..2]) && CodeOf(bytes)[5..] == Hex(bytes[2..4])
    ensures forall i | 0 <= i < 9 && i != 4 :: CodeOf(bytes)[i] in "0123456789ABCDEF"
  {
    HexMeans(bytes[..2]);
    HexMeans(bytes[2..4]);
    forall i | 0 <= i < 9 && i != 4 ensures CodeOf(bytes)[i] in "0123456789ABCDEF" {
      assert i < 4 ==> CodeOf(bytes)[i] == Hex(bytes[..2])[i];
      assert i > 4 ==> CodeOf(bytes)[i] == Hex(bytes[2..4])[i - 5];
    }
  }

  /** It gives away all of the four bytes drawn. */
  lemma CodesDifferByBytes(a: seq<byte>, b: seq<byte>)
    requires |a| >= 4 && |b| >= 4 && CodeOf(a) == CodeOf(b)
    ensures a[..4] == b[..4]
  {
    CodeShape(a);
    CodeShape(b);
    HexIsInjective(a[..2], b[..2]);
    HexIsInjective(a[2..4], b[2..4]);
    assert a[..4] == a[..2] + a[2..4] && b[..4] == b[..2] + b[2..4];
  }

  // ---------- What the operations mean ----------

  datatype Proof = Proof(code: string, expiresAt: nat, account: Option<string>)

  /** The live proofs, by interaction. */
  type Proofs = map<string, Proof>

  function Prune(m: Proofs, now: nat): Proofs {
    map i | i in m && m[i].expiresAt > now :: m[i]
  }

  predicate Names(m: Proofs, uid: string, code: string) {
    uid in m && m[uid].code == code
  }

  predicate CodeFree(m: Proofs, code: string) {
    forall i | i in m :: m[i].code != code
  }

  /** The first free code among the draws from `from` on. */
  function Drawn(m: Proofs, draws: seq<seq<byte>>, from: nat): (r: Result<string, ErrorCode>)
    requires from <= |draws|
    ensures r.Ok? ==> CodeFree(m, r.value)
    ensures r.Err? ==> r.error == CodesExhausted || r.error == InsufficientRandomness
    decreases |draws| - from
  {
    if from == |draws| then Err(CodesExhausted)
    else if |draws[from]| < 4 then Err(InsufficientRandomness)
    else if CodeFree(m, CodeOf(draws[from])) then Ok(CodeOf(draws[from]))
    else Drawn(m, draws, from + 1)
  }

  /** The draw gives a code that no live proof has. */
  predicate GivesFree(m: Proofs, draw: seq<byte>) {
    |draw| >= 4 && forall i | i in m :: m[i].code != CodeOf(draw)
  }

  /** The next draw decides if it is too short or gives a free code; without one the codes are exhausted. */
  lemma NextDrawDecides(m: Proofs, draws: seq<seq<byte>>, k: nat)
    requires k <= |draws|
    ensures k == |draws| ==> Drawn(m, draws, k) == Err(CodesExhausted)
    ensures k < |draws| && |draws[k]| < 4 ==> Drawn(m, draws, k) == Err(InsufficientRandomness)
    ensures k < |draws| && GivesFree(m, draws[k]) ==> Drawn(m, draws, k) == Ok(CodeOf(draws[k]))
  {}

  /** A draw that is long enough and gives a code in use. */
  predicate GivesTaken(m: Proofs, draw: seq<byte>) {
    |draw| >= 4 && !GivesFree(m, draw)
  }

  lemma SkipOneTaken(m: Proofs, draws: seq<seq<byte>>, from: nat)
    requires from < |draws| && GivesTaken(m, draws[from])
    ensures Drawn(m, draws, from) == Drawn(m, draws, from + 1)
  {}

  predicate AllTaken(m: Proofs, draws: seq<seq<byte>>, from: nat, k: nat)
    requires from <= k <= |draws|
    decreases k - from
  {
    from == k || (GivesTaken(m, draws[from]) && AllTaken(m, draws, from + 1, k))
  }

  /** Draws that give codes in use are passed over. */
  lemma {:induction false} TakenAreSkipped(m: Proofs, draws: seq<seq<byte>>, from: nat, k: nat)
    requires from <= k <= |draws| && AllTaken(m, draws, from, k)
    ensures Drawn(m, draws, from) == Drawn(m, draws, k)
    decreases k - from
  {
    if from < k {
      SkipOneTaken(m, draws, from);
      TakenAreSkipped(m, draws, from + 1, k);
    }
  }

  function AfterApprove(m: Proofs, uid: string, code: string, account: string, now: nat)
    : (Proofs, Result<(), ErrorCode>)
  {
    var live := Prune(m, now);
    if !Names(live, uid, code) then (live, Err(InvalidOrExpired))
    else if live[uid].account.Some? then (live, Err(AlreadyApproved))
    else (live[uid := live[uid].(account := Some(account))], Ok(()))
  }

  function AfterConsume(m: Proofs, uid: string, code: string, now: nat): (Proofs, Option<string>) {
    var live := Prune(m, now);
    if !Names(live, uid, code) || live[uid].account.None? then (live, None)
    else (live - {uid}, live[uid].account)
  }

  /** Whom an approval and a consumption are refused, and what they leave of the live proofs. */
  lemma OperationsMean(m: Proofs, uid: string, code: string, account: string, now: nat)
    ensures var known := uid in m && m[uid].code == code && now < m[uid].expiresAt;
            var (approved, a) := AfterApprove(m, uid, code, account, now);
            var (consumed, c) := AfterConsume(m, uid, code, now);
            && (a == Err(InvalidOrExpired) <==> !known)
            && (a == Err(AlreadyApproved) <==> known && m[uid].account.Some?)
            && (a.Ok? <==> known && m[uid].account.None?)
            && c == (if known then m[uid].account else None)
            && (forall i :: i in approved <==> i in m && now < m[i].expiresAt)
            && (forall i | i in approved && i != uid :: approved[i] == m[i])
            && (a.Ok? ==> approved[uid] == m[uid].(account := Some(account)))
            && (a.Err? && uid in approved ==> approved[uid] == m[uid])
            && (forall i :: i in consumed <==> i in m && now < m[i].expiresAt && !(i == uid && c.Some?))
            && (forall i | i in consumed :: consumed[i] == m[i])
  {}

  // ---------- The registry ----------

  class PendingProof {
    const interactionUid: string
    const userCode: string
    const expiresAt: nat
    var accountId: Option<string>

    constructor (interactionUid: string, userCode: string, expiresAt: nat)
      ensures this.interactionUid == interactionUid && this.userCode == userCode
      ensures this.expiresAt == expiresAt && accountId == None
    {
      this.interactionUid, this.userCode, this.expiresAt := interactionUid, userCode, expiresAt;
      accountId := None;
    }
  }

  class AuthLoginProofRegistry {
    const ttlMs: nat
    var byInteraction: map<string, PendingProof>
    var byCode: map<string, PendingProof>

    /** The two indexes hold the same proofs, each under its own interaction and its own code. */
    ghost predicate Valid()
      reads this
    {
      && (forall i | i in byInteraction ::
            && byInteraction[i].interactionUid == i
            && byInteraction[i].userCode in byCode
            && byCode[byInteraction[i].userCode] == byInteraction[i])
      && (forall c | c in byCode ::
            && byCode[c].userCode == c
            && byCode[c].interactionUid in byInteraction
            && byInteraction[byCode[c].interactionUid] == byCode[c])
    }

    ghost function Objects(): set<PendingProof>
      reads this
    {
      byInteraction.Values
    }

    ghost function Model(): Proofs
      reads this, Objects()
    {
      map i | i in byInteraction ::
        Proof(byInteraction[i].userCode, byInteraction[i].expiresAt, byInteraction[i].accountId)
    }

    constructor (ttlMs: nat)
      ensures Valid() && Model() == map[] && this.ttlMs == ttlMs
    {
      this.ttlMs := ttlMs;
      byInteraction, byCode := map[], map[];
    }

    method Delete(proof: PendingProof)
      requires Valid() && proof.interactionUid in byInteraction && byInteraction[proof.interactionUid] == proof
      modifies this
      ensures Valid()
      ensures byInteraction == old(byInteraction) - {proof.interactionUid}
      ensures byCode == old(byCode) - {proof.userCode}
    {
      byInteraction := byInteraction - {proof.interactionUid};
      byCode := byCode - {proof.userCode};
    }

    method PruneExpired(now: nat)
      requires Valid()
      modifies this
      ensures Valid() && Model() == Prune(old(Model()), now)
      ensures Objects() <= old(Objects())
    {
      var left := byInteraction.Keys;
      while left != {}
        invariant Valid()
        invariant left <= byInteraction.Keys
        invariant forall i | i in byInteraction :: i in old(byInteraction) && byInteraction[i] == old(byInteraction)[i]
        invariant forall i | i in old(byInteraction) && i !in left ::
          i in byInteraction <==> old(byInteraction)[i].expiresAt > now
        decreases left
      {
        var i :| i in left;
        left := left - {i};
        if byInteraction[i].expiresAt <= now {
          Delete(byInteraction[i]);
        }
      }
    }

    /** Draws codes until one is free, at most eight times; `draws` is the random source. */
    method UniqueUserCode(draws: seq<seq<byte>>, ghost live: Proofs) returns (r: Result<string, ErrorCode>)
      requires Valid() && |draws| == 8 && live == Model()
      ensures r == Drawn(live, draws, 0)
      ensures r.Ok? ==> r.value !in byCode
    {
      for attempt := 0 to 8
        invariant Drawn(live, draws, 0) == Drawn(live, draws, attempt)
      {
        CodeFreeMeans(draws[attempt]);
        if |draws[attempt]| < 4 {
          return Err(InsufficientRandomness);
        }
        var code := CodeOf(draws[attempt]);
        if code !in byCode {
          return Ok(code);
        }
      }
      return Err(CodesExhausted);
    }

    /** A code is free exactly when the code index does not have it. */
    lemma CodeFreeMeans(draw: seq<byte>)
      requires Valid()
      ensures |draw| >= 4 ==> (CodeFree(Model(), CodeOf(draw)) <==> CodeOf(draw) !in byCode)
    {
      if |draw| >= 4 && CodeOf(draw) in byCode {
        var uid := byCode[CodeOf(draw)].interactionUid;
        assert uid in Model() && Model()[uid].code == CodeOf(draw);
      }
    }

    method Insert(proof: PendingProof)
      requires Valid() && proof.interactionUid !in byInteraction && proof.userCode !in byCode
      modifies this
      ensures Valid() && byInteraction == old(byInteraction)[proof.interactionUid := proof]
    {
      assert forall i | i in byInteraction :: byInteraction[i].userCode != proof.userCode;
      assert forall c | c in byCode :: byCode[c].interactionUid != proof.interactionUid;
      byInteraction := byInteraction[proof.interactionUid := proof];
      byCode := byCode[proof.userCode := proof];
    }

    method Add(uid: string, code: string, expiresAt: nat)
      requires Valid() && uid !in byInteraction && code !in byCode
      modifies this
      ensures Valid() && Model() == old(Model())[uid := Proof(code, expiresAt, None)]
    {
      var proof := new PendingProof(uid, code, expiresAt);
      Insert(proof);
      assert Model().Keys == old(Model()).Keys + {uid};
    }

    method Create(uid: string, draws: seq<seq<byte>>, now: nat) returns (r: Result<string, ErrorCode>)
      requires Valid() && |draws| == 8
      modifies this
      ensures Valid()
      ensures r == Err(AlreadyExists) <==> uid in old(Model())
      ensures uid !in old(Model()) ==> r == Drawn(old(Model()), draws, 0)
      ensures r.Err? ==> Model() == old(Model())
      ensures r.Ok? ==> Model() == old(Model())[uid := Proof(r.value, now + ttlMs, None)]
    {
      if uid in byInteraction {
        return Err(AlreadyExists);
      }
      r := UniqueUserCode(draws, Model());
      if r.Err? {
        return;
      }
      Add(uid, r.value, now + ttlMs);
    }

    /** The clock is read once for pruning and once for the new proof. */
    method Start(uid: string, draws: seq<seq<byte>>, pruneNow: nat, now: nat) returns (r: Result<string, ErrorCode>)
      requires Valid() && |draws| == 8
      modifies this
      ensures Valid()
      ensures var live := Prune(old(Model()), pruneNow);
              && r == (if uid in live then Err(AlreadyExists) else Drawn(live, draws, 0))
              && Model() == if r.Ok? then live[uid := Proof(r.value, now + ttlMs, None)] else live
    {
      PruneExpired(pruneNow);
      r := Create(uid, draws, now);
    }

    method Approve(uid: string, code: string, account: string, now: nat) returns (r: Result<(), ErrorCode>)
      requires Valid()
      modifies this, Objects()
      ensures Valid()
      ensures (Model(), r) == AfterApprove(old(Model()), uid, code, account, now)
    {
      PruneExpired(now);
      if code !in byCode || byCode[code].interactionUid != uid {
        return Err(InvalidOrExpired);
      }
      var proof := byCode[code];
      if proof.accountId != None {
        return Err(AlreadyApproved);
      }
      assert proof == byInteraction[uid] && proof in old(Objects());
      ghost var live := Model();
      proof.accountId := Some(account);
      assert forall i | i in byInteraction && i != uid :: byInteraction[i] != proof;
      assert Model() == live[uid := live[uid].(account := Some(account))];
      return Ok(());
    }

    method Consume(uid: string, code: string, now: nat) returns (account: Option<string>)
      requires Valid()
      modifies this
      ensures Valid()
      ensures (Model(), account) == AfterConsume(old(Model()), uid, code, now)
    {
      PruneExpired(now);
      if code !in byCode || byCode[code].interactionUid != uid || byCode[code].accountId == None {
        return None;
      }
      var proof := byCode[code];
      assert proof == byInteraction[uid];
      ghost var live := Model();
      Delete(proof);
      assert Model() == live - {uid};
      return proof.accountId;
    }
  }

  // ---------- Whole runs ----------

  /** `serial` tells apart proofs that used the same interaction at different times. */
  datatype Entry =
    | Started(serial: nat, uid: string, code: string, expiresAt: nat)
    | Approved(serial: nat, uid: string, code: string, account: string, at: nat)
    | Consumed(serial: nat, uid: string, code: string, account: string, at: nat)

  datatype History = History(proofs: Proofs, serials: map<string, nat>, next: nat, log: seq<Entry>)

  datatype Event =
    | DoStart(uid: string, code: string, ttl: nat, pruneNow: nat, now: nat)
    | DoApprove(uid: string, code: string, account: string, now: nat)
    | DoConsume(uid: string, code: string, now: nat)

  function Pruned(h: History, now: nat): History {
    h.(proofs := Prune(h.proofs, now))
  }

  function Added(h: History, uid: string, code: string, expiresAt: nat): History {
    History(h.proofs[uid := Proof(code, expiresAt, None)], h.serials[uid := h.next], h.next + 1,
            h.log + [Started(h.next, uid, code, expiresAt)])
  }

  function Step(h: History, e: Event): History {
    match e
    case DoStart(uid, code, ttl, pruneNow, now) =>
      var live := Prune(h.proofs, pruneNow);
      if uid in live || !CodeFree(live, code) then Pruned(h, pruneNow)
      else Added(Pruned(h, pruneNow), uid, code, now + ttl)
    case DoApprove(uid, code, account, now) =>
      var (m, r) := AfterApprove(h.proofs, uid, code, account, now);
      if r.Ok? && uid in h.serials
      then h.(proofs := m, log := h.log + [Approved(h.serials[uid], uid, code, account, now)])
      else h.(proofs := m)
    case DoConsume(uid, code, now) =>
      var (m, account) := AfterConsume(h.proofs, uid, code, now);
      if account.Some? && uid in h.serials
      then h.(proofs := m, log := h.log + [Consumed(h.serials[uid], uid, code, account.value, now)])
      else h.(proofs := m)
  }

  const Fresh := History(map[], map[], 0, [])

  function Run(events: seq<Event>): History {
    if events == [] then Fresh
    else Step(Run(events[..|events| - 1]), events[|events| - 1])
  }

  ghost predicate CodesDistinct(m: Proofs) {
    forall i, j | i in m && j in m && i != j :: m[i].code != m[j].code
  }

  ghost predicate SerialsDistinct(h: History) {
    && (forall i | i in h.proofs :: i in h.serials)
    && (forall i, j | i in h.proofs && j in h.proofs && i != j :: h.serials[i] != h.serials[j])
  }

  /** A live proof is on record as started, as approved exactly if it carries an account, and
      as not yet consumed. */
  ghost predicate LiveOk(p: Proof, uid: string, n: nat, log: seq<Entry>) {
    && Started(n, uid, p.code, p.expiresAt) in log
    && (forall x | x in log && x.serial == n :: !x.Consumed?)
    && (forall x | x in log && x.serial == n && x.Approved? ::
          x.uid == uid && x.code == p.code && p.account == Some(x.account))
    && (p.account.Some? ==> exists x :: x in log && x.Approved? && x.serial == n)
  }

  predicate SameKind(x: Entry, y: Entry) {
    x.Started? == y.Started? && x.Approved? == y.Approved? && x.serial == y.serial
  }

  ghost predicate WasStarted(x: Entry, before: seq<Entry>)
    requires !x.Started?
  {
    exists s :: s in before && s.Started? && s.serial == x.serial && s.uid == x.uid && s.code == x.code
                && x.at < s.expiresAt
  }

  ghost predicate WasApproved(x: Entry, before: seq<Entry>)
    requires x.Consumed?
  {
    exists a :: a in before && a.Approved? && a.serial == x.serial && a.uid == x.uid && a.code == x.code
                && a.account == x.account
  }

  /** An approval comes after the start of its proof, a consumption after the start and the
      approval, all for one interaction and code, the account approved, and before expiry. */
  ghost predicate Earned(x: Entry, before: seq<Entry>) {
    && (!x.Started? ==> WasStarted(x, before))
    && (x.Consumed? ==> WasApproved(x, before))
  }

  /** No proof is started, approved or consumed twice. */
  ghost predicate OncePerKind(log: seq<Entry>) {
    forall j, k | 0 <= j < k < |log| :: !SameKind(log[j], log[k])
  }

  ghost predicate EarnedAt(log: seq<Entry>, k: nat)
    requires k < |log|
  {
    Earned(log[k], log[..k])
  }

  /** Every entry is earned by those before it. */
  ghost predicate AllEarned(log: seq<Entry>) {
    forall k: nat | k < |log| :: EarnedAt(log, k)
  }

  ghost predicate Inv(h: History) {
    && CodesDistinct(h.proofs) && SerialsDistinct(h)
    && (forall uid | uid in h.proofs :: LiveOk(h.proofs[uid], uid, h.serials[uid], h.log))
    && (forall x | x in h.log :: x.serial < h.next)
    && OncePerKind(h.log) && AllEarned(h.log)
  }

  lemma PruneKeepsInv(h: History, now: nat)
    requires Inv(h)
    ensures Inv(Pruned(h, now))
  {}

  lemma AppendKeepsLog(log: seq<Entry>, y: Entry)
    requires OncePerKind(log) && AllEarned(log)
    requires forall x | x in log :: !SameKind(x, y)
    requires Earned(y, log)
    ensures OncePerKind(log + [y]) && AllEarned(log + [y])
  {
    forall k: nat | k < |log + [y]| ensures EarnedAt(log + [y], k) {
      assert k < |log| ==> EarnedAt(log, k);
      assert (log + [y])[..k] == log[..k];
      assert log[..|log|] == log;
    }
  }

  /** Another proof's entry does not disturb a live proof. */
  lemma LiveSurvives(p: Proof, uid: string, n: nat, log: seq<Entry>, y: Entry)
    requires LiveOk(p, uid, n, log) && y.serial != n
    ensures LiveOk(p, uid, n, log + [y])
  {}

  lemma StartKeepsInv(h: History, uid: string, code: string, expiresAt: nat)
    requires Inv(h) && uid !in h.proofs && CodeFree(h.proofs, code)
    ensures Inv(Added(h, uid, code, expiresAt))
  {
    var y := Started(h.next, uid, code, expiresAt);
    AppendKeepsLog(h.log, y);
    forall i | i in h.proofs ensures LiveOk(h.proofs[i], i, h.serials[i], h.log + [y]) {
      assert h.serials[i] < h.next by {
        assert Started(h.serials[i], i, h.proofs[i].code, h.proofs[i].expiresAt) in h.log;
      }
      LiveSurvives(h.proofs[i], i, h.serials[i], h.log, y);
    }
  }

  lemma ApprovedIsLive(p: Proof, uid: string, n: nat, log: seq<Entry>, account: string, at: nat)
    requires LiveOk(p, uid, n, log) && p.account.None? && at < p.expiresAt
    ensures var y := Approved(n, uid, p.code, account, at);
            && Earned(y, log) && (forall x | x in log :: !SameKind(x, y))
            && LiveOk(p.(account := Some(account)), uid, n, log + [y])
  {
    var y := Approved(n, uid, p.code, account, at);
    assert Started(n, uid, p.code, p.expiresAt) in log;
    assert WasStarted(y, log);
    assert y in log + [y];
  }

  lemma ApprovingKeepsDistinct(h: History, uid: string, account: string)
    requires CodesDistinct(h.proofs) && SerialsDistinct(h) && uid in h.proofs
    ensures var m := h.proofs[uid := h.proofs[uid].(account := Some(account))];
            CodesDistinct(m) && SerialsDistinct(h.(proofs := m))
  {}

  lemma ApproveKeepsInv(h: History, uid: string, code: string, account: string, at: nat)
    requires Inv(h) && Names(h.proofs, uid, code) && h.proofs[uid].account.None? && at < h.proofs[uid].expiresAt
    ensures Inv(h.(proofs := h.proofs[uid := h.proofs[uid].(account := Some(account))],
                   log := h.log + [Approved(h.serials[uid], uid, code, account, at)]))
  {
    var n, p := h.serials[uid], h.proofs[uid];
    var y := Approved(n, uid, code, account, at);
    assert LiveOk(p, uid, n, h.log);
    assert Started(n, uid, p.code, p.expiresAt) in h.log && n < h.next;
    ApprovedIsLive(p, uid, n, h.log, account, at);
    AppendKeepsLog(h.log, y);
    ApprovingKeepsDistinct(h, uid, account);
    forall i | i in h.proofs && i != uid ensures LiveOk(h.proofs[i], i, h.serials[i], h.log + [y]) {
      LiveSurvives(h.proofs[i], i, h.serials[i], h.log, y);
    }
  }

  lemma ConsumeKeepsInv(h: History, uid: string, code: string, at: nat)
    requires Inv(h) && Names(h.proofs, uid, code) && h.proofs[uid].account.Some? && at < h.proofs[uid].expiresAt
    ensures Inv(h.(proofs := h.proofs - {uid},
                   log := h.log + [Consumed(h.serials[uid], uid, code, h.proofs[uid].account.value, at)]))
  {
    var n, p := h.serials[uid], h.proofs[uid];
    var y := Consumed(n, uid, code, p.account.value, at);
    assert LiveOk(p, uid, n, h.log);
    var started := Started(n, uid, p.code, p.expiresAt);
    assert started in h.log && n < h.next;
    assert WasStarted(y, h.log) && WasApproved(y, h.log);
    AppendKeepsLog(h.log, y);
    forall i | i in h.proofs && i != uid ensures LiveOk(h.proofs[i], i, h.serials[i], h.log + [y]) {
      LiveSurvives(h.proofs[i], i, h.serials[i], h.log, y);
    }
  }

  lemma StartStepKeepsInv(h: History, e: Event)
    requires Inv(h) && e.DoStart?
    ensures Inv(Step(h, e))
  {
    var live := Pruned(h, e.pruneNow);
    PruneKeepsInv(h, e.pruneNow);
    if e.uid !in live.proofs && CodeFree(live.proofs, e.code) {
      StartKeepsInv(live, e.uid, e.code, e.now + e.ttl);
    }
  }

  lemma ApproveStepKeepsInv(h: History, e: Event)
    requires Inv(h) && e.DoApprove?
    ensures Inv(Step(h, e))
  {
    var live := Pruned(h, e.now);
    PruneKeepsInv(h, e.now);
    if Names(live.proofs, e.uid, e.code) && live.proofs[e.uid].account.None? {
      ApproveKeepsInv(live, e.uid, e.code, e.account, e.now);
    }
  }

  lemma ConsumeStepKeepsInv(h: History, e: Event)
    requires Inv(h) && e.DoConsume?
    ensures Inv(Step(h, e))
  {
    var live := Pruned(h, e.now);
    PruneKeepsInv(h, e.now);
    if Names(live.proofs, e.uid, e.code) && live.proofs[e.uid].account.Some? {
      ConsumeKeepsInv(live, e.uid, e.code, e.now);
    }
  }

  lemma {:induction false} RunKeepsInv(events: seq<Event>)
    ensures Inv(Run(events))
  {
    if events != [] {
      RunKeepsInv(events[..|events| - 1]);
      var h, e := Run(events[..|events| - 1]), events[|events| - 1];
      match e {
        case DoStart(_, _, _, _, _) => StartStepKeepsInv(h, e);
        case DoApprove(_, _, _, _) => ApproveStepKeepsInv(h, e);
        case DoConsume(_, _, _) => ConsumeStepKeepsInv(h, e);
      }
    }
  }

  /** Over any run each proof is started, approved and consumed at most once, in that order, and
      whoever consumes one gets the account approved for that very interaction and code, unexpired. */
  lemma ProofsAreOneTime(events: seq<Event>)
    ensures OncePerKind(Run(events).log)
    ensures AllEarned(Run(events).log)
    ensures CodesDistinct(Run(events).proofs)
  {
    RunKeepsInv(events);
  }

  /** A proof works for its own interaction and code from its approval until it expires, once. */
  lemma ApprovedProofIsConsumedOnce(m: Proofs, uid: string, code: string, account: string,
                                    at: nat, later: nat, again: nat)
    requires Names(m, uid, code) && m[uid].account.None? && at <= later < m[uid].expiresAt
    ensures var (approved, r) := AfterApprove(m, uid, code, account, at);
            var (consumed, first) := AfterConsume(approved, uid, code, later);
            r.Ok? && first == Some(account) && AfterConsume(consumed, uid, code, again).1 == None
  {}
}
