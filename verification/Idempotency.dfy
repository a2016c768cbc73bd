/** Crash-safe idempotent execution: the two-phase record directory of
    agent/tetherd/src/idempotency.rs and the call order of agent/tetherd/src/runtime.rs.

    The protocol is a machine whose steps are single file operations.  A process may
    crash between any two steps; completed file operations survive, everything else is lost.
    Any operation may fail; an existence check that fails reads as absence.
    Paths and fingerprints are SHA-256 digests in the program; here they are the digested
    values themselves, which is the same as assuming the digest injective.
 */
module Idempotency {
  import opened Wrappers

  // ---------- Values ----------

  datatype Invocation = Invocation(
    protocolVersion: string,
    requestId: string,
    principal: Option<string>,
    device: Option<string>,
    capability: string,
    key: Option<string>,
    jobId: Option<string>,
    sessionId: Option<string>,
    arguments: string,
    preconditions: string,
    expectations: string)

  /** `body` stands for every field of the envelope other than the two a replay rewrites. */
  datatype ResultEnvelope = ResultEnvelope(protocolVersion: string, requestId: string, body: string)

  datatype RecordId = RecordId(principal: string, device: Option<string>, capability: string, key: string)

  datatype Fingerprint = Fingerprint(
    jobId: Option<string>,
    sessionId: Option<string>,
    arguments: string,
    preconditions: string,
    expectations: string)

  const UNBOUND_PRINCIPAL := "compat:unbound"

  function IdOf(inv: Invocation): RecordId
    requires inv.key.Some?
  {
    RecordId(if inv.principal.Some? then inv.principal.value else UNBOUND_PRINCIPAL,
             inv.device, inv.capability, inv.key.value)
  }

  function FingerprintOf(inv: Invocation): Fingerprint {
    Fingerprint(inv.jobId, inv.sessionId, inv.arguments, inv.preconditions, inv.expectations)
  }

  function PrincipalOf(inv: Invocation): string {
    if inv.principal.Some? then inv.principal.value else UNBOUND_PRINCIPAL
  }

  /** Two requests under one idempotency key: same caller, device, capability and key. */
  predicate SameIdentity(a: Invocation, b: Invocation) {
    && PrincipalOf(a) == PrincipalOf(b)
    && a.device == b.device && a.capability == b.capability && a.key == b.key
  }

  /** They ask for the same. */
  predicate SameRequest(a: Invocation, b: Invocation) {
    && a.jobId == b.jobId && a.sessionId == b.sessionId
    && a.arguments == b.arguments && a.preconditions == b.preconditions && a.expectations == b.expectations
  }

  lemma DigestsMean(a: Invocation, b: Invocation)
    requires a.key.Some? && b.key.Some?
    ensures IdOf(a) == IdOf(b) <==> SameIdentity(a, b)
    ensures FingerprintOf(a) == FingerprintOf(b) <==> SameRequest(a, b)
  {}

  /** The result as it is replayed to a later request: only version and request id are the later one's. */
  predicate IsReplay(inv: Invocation, original: ResultEnvelope, replay: ResultEnvelope) {
    replay.body == original.body && replay.protocolVersion == inv.protocolVersion && replay.requestId == inv.requestId
  }

  function ReplayFor(inv: Invocation, stored: ResultEnvelope): ResultEnvelope {
    stored.(protocolVersion := inv.protocolVersion, requestId := inv.requestId)
  }

  // ---------- The directory ----------

  /** A pending file is created empty and written afterwards. */
  datatype PendingFile = Torn | Written(fingerprint: Fingerprint)

  datatype CompletedRecord = CompletedRecord(fingerprint: Fingerprint, result: ResultEnvelope)

  /** `None` is a temporary file that was created but not completely written. */
  datatype Directory = Directory(
    pending: map<RecordId, PendingFile>,
    completed: map<RecordId, CompletedRecord>,
    temps: map<nat, Option<CompletedRecord>>)

  // ---------- The machine ----------

  datatype Outcome =
    | Executed(result: ResultEnvelope)
    | Replayed(result: ResultEnvelope)
    | Conflict
    | PendingUnresolved
    | StoreFailure
    | Unavailable

  /** Where the call that holds the store mutex stands; `Idle` when nobody holds it. */
  datatype Pc =
    | Idle
    | FindCompleted(inv: Invocation)
    | ReadCompleted(inv: Invocation)
    | FindPending(inv: Invocation)
    | ReadPending(inv: Invocation)
    | CreatePending(inv: Invocation)
    | WritePending(inv: Invocation)
    | Dispatch(inv: Invocation)
    | Executing(inv: Invocation)
    | FindPublished(inv: Invocation, result: ResultEnvelope)
    | CompareExisting(inv: Invocation, result: ResultEnvelope)
    | CreateTemp(inv: Invocation, result: ResultEnvelope)
    | WriteTemp(inv: Invocation, result: ResultEnvelope, temp: nat)
    | Rename(inv: Invocation, result: ResultEnvelope, temp: nat)
    | RemovePending(inv: Invocation, result: ResultEnvelope)

  datatype Effect = Effect(id: RecordId, fingerprint: Fingerprint)
  datatype Return = Return(id: RecordId, fingerprint: Fingerprint, result: ResultEnvelope)
  datatype Reply = Reply(inv: Invocation, outcome: Outcome)

  /** `effects`, `answers` and `replies` are history: what the provider was made to do, what it
      answered, and what callers were told.  So is `misled`: the lookup of the call in progress
      did not see a completed record that stood alone. */
  datatype State = State(
    files: Directory,
    pc: Pc,
    effects: seq<Effect>,
    answers: seq<Return>,
    replies: seq<Reply>,
    misled: bool)

  /** The environment decides whether a file operation fails, what the provider answers, and
      which temporary name is drawn.  An existence check that fails reads as absence. */
  datatype Event =
    | Begin(inv: Invocation)
    | Step(fault: bool, answer: ResultEnvelope, temp: nat)
    | Crash

  const Start := State(Directory(map[], map[], map[]), Idle, [], [], [], false)

  function Finish(s: State, inv: Invocation, outcome: Outcome): State {
    s.(pc := Idle, replies := s.replies + [Reply(inv, outcome)])
  }

  function Next(s: State, e: Event): State {
    match e
    case Begin(inv) => if s.pc.Idle? && inv.key.Some? then s.(pc := FindCompleted(inv), misled := false) else s
    case Crash => s.(pc := Idle)
    case Step(fault, answer, temp) => if s.pc.Idle? || s.pc.inv.key.None? then s else FileStep(s, fault, answer, temp)
  }

  function FileStep(s: State, fault: bool, answer: ResultEnvelope, temp: nat): State
    requires !s.pc.Idle? && s.pc.inv.key.Some?
  {
    var inv := s.pc.inv;
    var id := IdOf(inv);
    var fp := FingerprintOf(inv);
    match s.pc
    case FindCompleted(_) =>
      s.(pc := if !fault && id in s.files.completed then ReadCompleted(inv) else FindPending(inv),
         misled := fault && id in s.files.completed && id !in s.files.pending)
    case ReadCompleted(_) =>
      if fault || id !in s.files.completed then Finish(s, inv, StoreFailure)
      else if s.files.completed[id].fingerprint != fp then Finish(s, inv, Conflict)
      else Finish(s, inv, Replayed(ReplayFor(inv, s.files.completed[id].result)))
    case FindPending(_) =>
      s.(pc := if !fault && id in s.files.pending then ReadPending(inv) else CreatePending(inv))
    case ReadPending(_) =>
      if fault || id !in s.files.pending || s.files.pending[id].Torn? then Finish(s, inv, StoreFailure)
      else if s.files.pending[id].fingerprint != fp then Finish(s, inv, Conflict)
      else Finish(s, inv, PendingUnresolved)
    case CreatePending(_) =>
      if fault || id in s.files.pending then Finish(s, inv, StoreFailure)
      else s.(files := s.files.(pending := s.files.pending[id := Torn]), pc := WritePending(inv))
    case WritePending(_) =>
      if fault then Finish(s, inv, StoreFailure)
      else s.(files := s.files.(pending := s.files.pending[id := Written(fp)]), pc := Dispatch(inv))
    case Dispatch(_) =>
      s.(effects := s.effects + [Effect(id, fp)], pc := Executing(inv))
    case Executing(_) =>
      s.(answers := s.answers + [Return(id, fp, answer)], pc := FindPublished(inv, answer))
    case FindPublished(_, result) =>
      s.(pc := if !fault && id in s.files.completed then CompareExisting(inv, result) else CreateTemp(inv, result))
    case CompareExisting(_, result) =>
      if fault || id !in s.files.completed || s.files.completed[id].fingerprint != fp
      then Finish(s, inv, StoreFailure)
      else s.(pc := RemovePending(inv, result))
    case CreateTemp(_, result) =>
      if fault then Finish(s, inv, StoreFailure)
      else s.(files := s.files.(temps := s.files.temps[temp := None]), pc := WriteTemp(inv, result, temp))
    case WriteTemp(_, result, t) =>
      if fault then Finish(s, inv, StoreFailure)
      else s.(files := s.files.(temps := s.files.temps[t := Some(CompletedRecord(fp, result))]),
              pc := Rename(inv, result, t))
    case Rename(_, result, t) =>
      if fault || t !in s.files.temps || s.files.temps[t].None?
      then Finish(s.(files := s.files.(temps := s.files.temps - {t})), inv, StoreFailure)
      else s.(files := s.files.(completed := s.files.completed[id := s.files.temps[t].value],
                                temps := s.files.temps - {t}),
              pc := RemovePending(inv, result))
    case RemovePending(_, result) =>
      // A failed removal is ignored and leaves the pending file beside the completed one.
      var files := if fault then s.files else s.files.(pending := s.files.pending - {id});
      Finish(s.(files := files), inv, Executed(result))
  }

  function Run(events: seq<Event>): State {
    if events == [] then Start
    else Next(Run(events[..|events| - 1]), events[|events| - 1])
  }

  // ---------- What holds in every run ----------

  ghost predicate Recorded(files: Directory, id: RecordId) {
    id in files.pending || id in files.completed
  }

  ghost predicate Untouched(s: State, id: RecordId) {
    forall e | e in s.effects :: e.id != id
  }

  ghost predicate Reserved(s: State, inv: Invocation)
    requires inv.key.Some?
  {
    IdOf(inv) in s.files.pending && s.files.pending[IdOf(inv)] == Written(FingerprintOf(inv))
  }

  ghost predicate Answered(s: State, inv: Invocation, result: ResultEnvelope)
    requires inv.key.Some?
  {
    Return(IdOf(inv), FingerprintOf(inv), result) in s.answers
  }

  ghost predicate CompletedAlone(s: State, id: RecordId) {
    id in s.files.completed && id !in s.files.pending
  }

  /** The call in progress will execute for the first time, unless it was misled. */
  ghost predicate FirstUnlessMisled(s: State, id: RecordId) {
    (s.misled <==> id in s.files.completed) && (id !in s.files.completed ==> Untouched(s, id))
  }

  ghost predicate PcInv(s: State) {
    if s.pc.Idle? then true
    else if s.pc.inv.key.None? then false
    else
      var inv := s.pc.inv;
      var id := IdOf(inv);
      match s.pc
      case FindCompleted(_) => !s.misled
      case ReadCompleted(_) => id in s.files.completed && !s.misled
      case FindPending(_) => s.misled <==> CompletedAlone(s, id)
      case ReadPending(_) => id in s.files.pending && !s.misled
      case CreatePending(_) => s.misled <==> CompletedAlone(s, id)
      case WritePending(_) => id in s.files.pending && FirstUnlessMisled(s, id)
      case Dispatch(_) => Reserved(s, inv) && FirstUnlessMisled(s, id)
      case Executing(_) => Reserved(s, inv) && Effect(id, FingerprintOf(inv)) in s.effects
      case FindPublished(_, result) => Reserved(s, inv) && Answered(s, inv, result)
      case CompareExisting(_, result) => id in s.files.completed && Answered(s, inv, result)
      case CreateTemp(_, result) => Reserved(s, inv) && Answered(s, inv, result)
      case WriteTemp(_, result, _) => Reserved(s, inv) && Answered(s, inv, result)
      case Rename(_, result, t) =>
        && Reserved(s, inv) && Answered(s, inv, result)
        && t in s.files.temps && s.files.temps[t] == Some(CompletedRecord(FingerprintOf(inv), result))
      case RemovePending(_, result) => id in s.files.completed && Answered(s, inv, result)
  }

  ghost predicate EffectsRecorded(s: State) {
    forall e | e in s.effects :: Recorded(s.files, e.id)
  }

  ghost predicate AnswersFromEffects(s: State) {
    forall r | r in s.answers :: Effect(r.id, r.fingerprint) in s.effects
  }

  ghost predicate CompletedAnswered(s: State) {
    forall id | id in s.files.completed ::
      Return(id, s.files.completed[id].fingerprint, s.files.completed[id].result) in s.answers
  }

  /** A caller is given a result only if the provider answered its very request: the same
      identity and the same fingerprint. */
  ghost predicate Faithful(s: State, reply: Reply) {
    match reply.outcome
    case Executed(result) => reply.inv.key.Some? && Answered(s, reply.inv, result)
    case Replayed(result) =>
      && reply.inv.key.Some?
      && exists r | r in s.answers ::
           && r.id == IdOf(reply.inv)
           && r.fingerprint == FingerprintOf(reply.inv)
           && result == ReplayFor(reply.inv, r.result)
    case _ => true
  }

  ghost predicate RepliesFaithful(s: State) {
    forall reply | reply in s.replies :: Faithful(s, reply)
  }

  ghost predicate Inv(s: State) {
    PcInv(s) && EffectsRecorded(s) && AnswersFromEffects(s) && CompletedAnswered(s) && RepliesFaithful(s)
  }

  /** Only an executed identity has a completed record. */
  lemma CompletedWasExecuted(s: State, id: RecordId)
    requires AnswersFromEffects(s) && CompletedAnswered(s) && id in s.files.completed
    ensures !Untouched(s, id)
  {
    var r := Return(id, s.files.completed[id].fingerprint, s.files.completed[id].result);
    assert r in s.answers;
    assert Effect(r.id, r.fingerprint) in s.effects;
  }

  lemma LookupStepKeepsPc(s: State, e: Event)
    requires Inv(s) && e.Step?
    requires s.pc.FindCompleted? || s.pc.ReadCompleted? || s.pc.FindPending? || s.pc.ReadPending?
    ensures PcInv(Next(s, e))
  {}

  lemma ReserveStepKeepsPc(s: State, e: Event)
    requires Inv(s) && e.Step?
    requires s.pc.CreatePending? || s.pc.WritePending? || s.pc.Dispatch? || s.pc.Executing?
    ensures PcInv(Next(s, e))
  {
    if s.pc.CreatePending? {
      var id := IdOf(s.pc.inv);
      assert id !in s.files.pending && id !in s.files.completed ==> Untouched(s, id);
    }
  }

  lemma CompareStepKeepsPc(s: State, e: Event)
    requires Inv(s) && e.Step? && (s.pc.FindPublished? || s.pc.CompareExisting? || s.pc.RemovePending?)
    ensures PcInv(Next(s, e))
  {}

  lemma PublishStepKeepsPc(s: State, e: Event)
    requires Inv(s) && e.Step? && (s.pc.CreateTemp? || s.pc.WriteTemp? || s.pc.Rename?)
    ensures PcInv(Next(s, e))
  {}

  lemma StepKeepsPc(s: State, e: Event)
    requires Inv(s)
    ensures PcInv(Next(s, e))
  {
    if e.Step? && !s.pc.Idle? {
      if s.pc.FindCompleted? || s.pc.ReadCompleted? || s.pc.FindPending? || s.pc.ReadPending? {
        LookupStepKeepsPc(s, e);
      } else if s.pc.CreatePending? || s.pc.WritePending? || s.pc.Dispatch? || s.pc.Executing? {
        ReserveStepKeepsPc(s, e);
      } else if s.pc.CreateTemp? || s.pc.WriteTemp? || s.pc.Rename? {
        PublishStepKeepsPc(s, e);
      } else {
        CompareStepKeepsPc(s, e);
      }
    }
  }

  lemma StepKeepsRecord(s: State, e: Event, id: RecordId)
    requires PcInv(s) && Recorded(s.files, id)
    ensures Recorded(Next(s, e).files, id)
  {}

  lemma StepAddsEffect(s: State, e: Event)
    requires PcInv(s)
    ensures Next(s, e).effects == s.effects
         || (s.pc.Dispatch? && e.Step? && Recorded(Next(s, e).files, IdOf(s.pc.inv))
             && Next(s, e).effects == s.effects + [Effect(IdOf(s.pc.inv), FingerprintOf(s.pc.inv))])
  {}

  /** A pending record goes only once a completed one is there, and that stays. */
  lemma StepKeepsEffects(s: State, e: Event)
    requires PcInv(s) && EffectsRecorded(s)
    ensures EffectsRecorded(Next(s, e))
  {
    StepAddsEffect(s, e);
    forall x | x in Next(s, e).effects ensures Recorded(Next(s, e).files, x.id) {
      if x in s.effects {
        StepKeepsRecord(s, e, x.id);
      }
    }
  }

  lemma StepAddsAnswer(s: State, e: Event)
    requires PcInv(s)
    ensures s.answers <= Next(s, e).answers && s.effects <= Next(s, e).effects
    ensures Next(s, e).answers == s.answers
         || (s.pc.Executing? && e.Step?
             && Next(s, e).answers == s.answers + [Return(IdOf(s.pc.inv), FingerprintOf(s.pc.inv), e.answer)])
  {}

  lemma StepKeepsAnswers(s: State, e: Event)
    requires Inv(s)
    ensures AnswersFromEffects(Next(s, e))
  {
    StepAddsAnswer(s, e);
    var t := Next(s, e);
    forall r | r in t.answers ensures Effect(r.id, r.fingerprint) in t.effects {
      if r in s.answers {
        assert Effect(r.id, r.fingerprint) in s.effects;
      }
    }
  }

  lemma StepKeepsCompleted(s: State, e: Event)
    requires PcInv(s) && CompletedAnswered(s)
    ensures CompletedAnswered(Next(s, e))
  {
    StepAddsAnswer(s, e);
    var t := Next(s, e);
    if e.Step? && s.pc.Rename? {
      assert Answered(s, s.pc.inv, s.pc.result);
    } else {
      assert t.files.completed == s.files.completed;
    }
  }

  /** Who is given a result now is given what the record holds, or the answer just published. */
  lemma NewReplyIsFaithful(s: State, e: Event, reply: Reply)
    requires PcInv(s) && CompletedAnswered(s) && reply in Next(s, e).replies && reply !in s.replies
    ensures Faithful(s, reply)
  {
    if s.pc.ReadCompleted? {
      var record := s.files.completed[IdOf(s.pc.inv)];
      assert Return(IdOf(s.pc.inv), record.fingerprint, record.result) in s.answers;
    }
  }

  lemma StillFaithful(s: State, t: State, reply: Reply)
    requires Faithful(s, reply) && s.answers <= t.answers
    ensures Faithful(t, reply)
  {
    assert forall r | r in s.answers :: r in t.answers;
  }

  lemma StepKeepsReplies(s: State, e: Event)
    requires Inv(s)
    ensures RepliesFaithful(Next(s, e))
  {
    StepAddsAnswer(s, e);
    var t := Next(s, e);
    forall reply | reply in t.replies ensures Faithful(t, reply) {
      if reply !in s.replies {
        NewReplyIsFaithful(s, e, reply);
      }
      StillFaithful(s, t, reply);
    }
  }

  lemma StepKeepsInv(s: State, e: Event)
    requires Inv(s)
    ensures Inv(Next(s, e))
  {
    StepKeepsPc(s, e);
    StepKeepsEffects(s, e);
    StepKeepsAnswers(s, e);
    StepKeepsCompleted(s, e);
    StepKeepsReplies(s, e);
  }

  lemma {:induction false} RunKeepsInv(events: seq<Event>)
    ensures Inv(Run(events))
  {
    if events != [] {
      RunKeepsInv(events[..|events| - 1]);
      StepKeepsInv(Run(events[..|events| - 1]), events[|events| - 1]);
    }
  }

  lemma RunStep(events: seq<Event>, e: Event)
    ensures Run(events + [e]) == Next(Run(events), e)
  {
    assert (events + [e])[..|events|] == events;
  }

  lemma {:induction false} HistoryGrows(events: seq<Event>, more: seq<Event>)
    ensures Run(events).effects <= Run(events + more).effects
    ensures Run(events).answers <= Run(events + more).answers
  {
    if more == [] {
      assert events + more == events;
    } else {
      var shorter := more[..|more| - 1];
      assert events + more == (events + shorter) + [more[|more| - 1]];
      HistoryGrows(events, shorter);
      RunStep(events + shorter, more[|more| - 1]);
      RunKeepsInv(events + shorter);
      StepAddsAnswer(Run(events + shorter), more[|more| - 1]);
    }
  }

  /** An effect's record outlives every later crash and failure. */
  lemma RecordsAreForEver(events: seq<Event>, more: seq<Event>, e: Effect)
    requires e in Run(events).effects
    ensures Recorded(Run(events + more).files, e.id)
  {
    HistoryGrows(events, more);
    RunKeepsInv(events + more);
  }

  // ---------- When an identity is executed again ----------

  function Executions(effects: seq<Effect>, id: RecordId): nat {
    if effects == [] then 0
    else Executions(effects[..|effects| - 1], id) + if effects[|effects| - 1].id == id then 1 else 0
  }

  lemma {:induction false} ExecutionsMeaning(effects: seq<Effect>, id: RecordId)
    ensures Executions(effects, id) == 0 <==> forall e | e in effects :: e.id != id
  {
    if effects != [] {
      var front, last := effects[..|effects| - 1], effects[|effects| - 1];
      ExecutionsMeaning(front, id);
      assert forall e :: e in effects <==> e in front || e == last;
    }
  }

  lemma ExecutionsAppend(effects: seq<Effect>, e: Effect, id: RecordId)
    ensures Executions(effects + [e], id) == Executions(effects, id) + if e.id == id then 1 else 0
  {
    assert (effects + [e])[..|effects|] == effects;
  }

  /** The existence check of this lookup fails, and the record it misses is completed and alone. */
  predicate Blind(s: State, e: Event, id: RecordId) {
    && e.Step? && e.fault && s.pc.FindCompleted? && s.pc.inv.key.Some? && IdOf(s.pc.inv) == id
    && id in s.files.completed && id !in s.files.pending
  }

  /** The call in progress made a blind lookup of this identity. */
  predicate BlindInCall(events: seq<Event>, id: RecordId) {
    && events != [] && !Run(events).pc.Idle?
    && var front := events[..|events| - 1];
       || Blind(Run(front), events[|events| - 1], id)
       || BlindInCall(front, id)
  }

  predicate Acts(s: State, id: RecordId) {
    !s.pc.Idle? && s.pc.inv.key.Some? && IdOf(s.pc.inv) == id
  }

  lemma StepMisleads(s: State, e: Event, id: RecordId)
    requires PcInv(s) && Acts(Next(s, e), id)
    ensures s.pc.Idle? ==> !Next(s, e).misled
    ensures !s.pc.Idle? ==> Acts(s, id) && (Next(s, e).misled <==> Blind(s, e, id) || s.misled)
  {}

  lemma {:induction false} MisledMeansBlindInCall(events: seq<Event>, id: RecordId)
    requires Acts(Run(events), id)
    ensures Run(events).misled <==> BlindInCall(events, id)
  {
    var front, last := events[..|events| - 1], events[|events| - 1];
    RunKeepsInv(front);
    StepMisleads(Run(front), last, id);
    if !Run(front).pc.Idle? {
      MisledMeansBlindInCall(front, id);
    }
  }

  /** The step that makes the provider act: in every run, it does so for an identity that was
      executed before exactly if the lookup of the same call was blind. */
  lemma ReexecutesExactlyAfterBlindLookup(events: seq<Event>, id: RecordId)
    requires Run(events).pc.Dispatch? && Acts(Run(events), id)
    ensures Executions(Run(events).effects, id) > 0 <==> BlindInCall(events, id)
  {
    var s := Run(events);
    RunKeepsInv(events);
    MisledMeansBlindInCall(events, id);
    ExecutionsMeaning(s.effects, id);
    if s.misled {
      CompletedWasExecuted(s, id);
    }
  }

  predicate DispatchStep(s: State, e: Event, id: RecordId) {
    e.Step? && s.pc.Dispatch? && Acts(s, id)
  }

  /** Somewhere in the run the provider was reached by a call whose lookup was blind. */
  predicate Repeated(events: seq<Event>, id: RecordId) {
    && events != []
    && var front, last := events[..|events| - 1], events[|events| - 1];
       || Repeated(front, id)
       || (DispatchStep(Run(front), last, id) && BlindInCall(front, id))
  }

  lemma StepExecutes(s: State, e: Event, id: RecordId)
    requires PcInv(s)
    ensures Executions(Next(s, e).effects, id)
         == Executions(s.effects, id) + if DispatchStep(s, e, id) then 1 else 0
  {
    if e.Step? && s.pc.Dispatch? {
      ExecutionsAppend(s.effects, Effect(IdOf(s.pc.inv), FingerprintOf(s.pc.inv)), id);
    }
  }

  /** An identity is executed more than once exactly if a call reached the provider after a
      blind lookup of it. */
  lemma {:induction false} ExecutesTwiceExactlyIfRepeated(events: seq<Event>, id: RecordId)
    ensures Executions(Run(events).effects, id) > 1 <==> Repeated(events, id)
  {
    if events != [] {
      var front, last := events[..|events| - 1], events[|events| - 1];
      ExecutesTwiceExactlyIfRepeated(front, id);
      RunKeepsInv(front);
      StepExecutes(Run(front), last, id);
      if DispatchStep(Run(front), last, id) {
        ReexecutesExactlyAfterBlindLookup(front, id);
      }
    }
  }

  // ---------- Runs without a blind lookup ----------

  predicate Sighted(events: seq<Event>, id: RecordId) {
    events != [] ==>
      var front := events[..|events| - 1];
      Sighted(front, id) && !Blind(Run(front), events[|events| - 1], id)
  }

  predicate BlindAt(events: seq<Event>, k: nat, id: RecordId) {
    k < |events| && Blind(Run(events[..k]), events[k], id)
  }

  lemma BlindInFront(events: seq<Event>, n: nat, k: nat, id: RecordId)
    requires k < n <= |events|
    ensures BlindAt(events[..n], k, id) <==> BlindAt(events, k, id)
  {
    assert events[..n][..k] == events[..k];
  }

  ghost predicate NeverBlind(events: seq<Event>, id: RecordId) {
    forall k: nat :: !BlindAt(events, k, id)
  }

  lemma NeverBlindInFront(events: seq<Event>, id: RecordId)
    requires events != []
    ensures var n := |events| - 1;
            NeverBlind(events, id) <==> NeverBlind(events[..n], id) && !BlindAt(events, n, id)
  {
    var n := |events| - 1;
    forall k: nat ensures BlindAt(events[..n], k, id) ==> BlindAt(events, k, id) {
      if k < n {
        BlindInFront(events, n, k, id);
      }
    }
    forall k: nat ensures BlindAt(events, k, id) ==> BlindAt(events[..n], k, id) || k == n {
      if k < n {
        BlindInFront(events, n, k, id);
      }
    }
  }

  /** No event of the run is a blind lookup of the identity. */
  lemma {:induction false} SightedMeans(events: seq<Event>, id: RecordId)
    ensures Sighted(events, id) <==> NeverBlind(events, id)
  {
    if events != [] {
      SightedMeans(events[..|events| - 1], id);
      NeverBlindInFront(events, id);
    }
  }

  lemma {:induction false} SightedIsNeverBlindInCall(events: seq<Event>, id: RecordId)
    requires Sighted(events, id)
    ensures !BlindInCall(events, id) && !Repeated(events, id)
  {
    if events != [] {
      SightedIsNeverBlindInCall(events[..|events| - 1], id);
    }
  }

  /** Whatever requests arrive, whichever other file operations fail and wherever the process
      crashes: an identity is not executed twice unless an existence check fails to see its
      completed record after the pending one is gone.  An executed one stays recorded. */
  lemma ExecutesAtMostOnce(events: seq<Event>, id: RecordId)
    requires Sighted(events, id)
    ensures Executions(Run(events).effects, id) <= 1
    ensures Executions(Run(events).effects, id) == 1 ==> Recorded(Run(events).files, id)
  {
    SightedIsNeverBlindInCall(events, id);
    ExecutesTwiceExactlyIfRepeated(events, id);
    ExecutionsMeaning(Run(events).effects, id);
    RunKeepsInv(events);
  }

  lemma ExecutesAtMostOnceIfSighted(events: seq<Event>, id: RecordId)
    ensures Sighted(events, id) ==> Executions(Run(events).effects, id) <= 1
  {
    if Sighted(events, id) {
      ExecutesAtMostOnce(events, id);
    }
  }

  function Twice(s: State, e: Event): State {
    Next(Next(s, e), e)
  }

  lemma RunTwice(events: seq<Event>, e: Event)
    ensures Run(events + [e] + [e]) == Twice(Run(events), e)
  {
    RunStep(events, e);
    RunStep(events + [e], e);
  }

  lemma FourStepsExecute(s: State, step: Event)
    requires s.pc.FindPending? && s.pc.inv.key.Some? && IdOf(s.pc.inv) !in s.files.pending
    requires step.Step? && !step.fault
    ensures var t := Twice(Twice(s, step), step);
            && t.pc == Executing(s.pc.inv) && t.files.completed == s.files.completed
            && t.effects == s.effects + [Effect(IdOf(s.pc.inv), FingerprintOf(s.pc.inv))]
  {
    assert Twice(s, step).pc == WritePending(s.pc.inv);
  }

  /** Nothing less will do: after any blind lookup four ordinary steps execute the identity again. */
  lemma BlindLookupExecutesAgain(events: seq<Event>, blind: Event, step: Event, id: RecordId)
    requires Blind(Run(events), blind, id) && step.Step? && !step.fault
    ensures Executions(Run(events + [blind] + [step] + [step] + [step] + [step]).effects, id) >= 2
  {
    var s := Run(events);
    RunKeepsInv(events);
    CompletedWasExecuted(s, id);
    ExecutionsMeaning(s.effects, id);
    RunStep(events, blind);
    RunTwice(events + [blind], step);
    RunTwice(events + [blind] + [step] + [step], step);
    FourStepsExecute(Next(s, blind), step);
    ExecutionsAppend(s.effects, Effect(id, FingerprintOf(s.pc.inv)), id);
  }

  lemma TwoStepsToTemp(s: State, step: Event)
    requires s.pc.Executing? && s.pc.inv.key.Some? && IdOf(s.pc.inv) !in s.files.completed
    requires step.Step? && !step.fault
    ensures var t := Twice(s, step); t.pc == CreateTemp(s.pc.inv, step.answer) && t.files == s.files
  {}

  lemma TwoStepsToRename(s: State, step: Event)
    requires s.pc.CreateTemp? && s.pc.inv.key.Some? && step.Step? && !step.fault
    ensures var t := Twice(s, step);
            && t.pc == Rename(s.pc.inv, s.pc.result, step.temp)
            && step.temp in t.files.temps && t.files.temps[step.temp].Some?
  {}

  lemma TwoStepsToIdle(s: State, step: Event)
    requires s.pc.Rename? && s.pc.inv.key.Some? && step.Step? && !step.fault
    requires s.pc.temp in s.files.temps && s.files.temps[s.pc.temp].Some?
    ensures var t := Twice(s, step); t.pc.Idle? && CompletedAlone(t, IdOf(s.pc.inv))
  {}

  lemma SixStepsPublish(s: State, step: Event)
    requires s.pc.Executing? && s.pc.inv.key.Some? && IdOf(s.pc.inv) !in s.files.completed
    requires step.Step? && !step.fault
    ensures var t := Twice(Twice(Twice(s, step), step), step);
            t.pc.Idle? && CompletedAlone(t, IdOf(s.pc.inv))
  {
    TwoStepsToTemp(s, step);
    TwoStepsToRename(Twice(s, step), step);
    TwoStepsToIdle(Twice(Twice(s, step), step), step);
  }

  /** A request made once and carried out without any fault. */
  function CarriedOut(inv: Invocation, ok: Event): seq<Event> {
    [Begin(inv)] + [ok] + [ok] + [ok] + [ok] + [ok] + [ok] + [ok] + [ok] + [ok] + [ok] + [ok]
  }

  lemma CarriedOutStandsAlone(inv: Invocation, ok: Event)
    requires inv.key.Some? && ok.Step? && !ok.fault
    ensures var t := Run(CarriedOut(inv, ok)); t.pc.Idle? && CompletedAlone(t, IdOf(inv))
  {
    var begun := [Begin(inv)] + [ok];
    RunStep([], Begin(inv));
    assert [] + [Begin(inv)] == [Begin(inv)];
    RunStep([Begin(inv)], ok);
    var executing := begun + [ok] + [ok] + [ok] + [ok];
    RunTwice(begun, ok);
    RunTwice(begun + [ok] + [ok], ok);
    FourStepsExecute(Run(begun), ok);
    RunTwice(executing, ok);
    RunTwice(executing + [ok] + [ok], ok);
    RunTwice(executing + [ok] + [ok] + [ok] + [ok], ok);
    SixStepsPublish(Run(executing), ok);
  }

  /** Every keyed request can be executed twice by a run with a single fault: it is carried out,
      made again, and the first existence check of the second lookup fails. */
  lemma OneFaultExecutesTwice(inv: Invocation, answer: ResultEnvelope)
    requires inv.key.Some?
    ensures var ok, blind := Step(false, answer, 0), Step(true, answer, 0);
            var events := CarriedOut(inv, ok) + [Begin(inv)] + [blind] + [ok] + [ok] + [ok] + [ok];
            Executions(Run(events).effects, IdOf(inv)) >= 2
  {
    var ok := Step(false, answer, 0);
    CarriedOutStandsAlone(inv, ok);
    RunStep(CarriedOut(inv, ok), Begin(inv));
    BlindLookupExecutesAgain(CarriedOut(inv, ok) + [Begin(inv)], Step(true, answer, 0), ok, IdOf(inv));
  }

  /** The call in progress is between its execution and its publication. */
  predicate Unpublished(pc: Pc) {
    pc.Executing? || pc.FindPublished? || pc.CreateTemp? || pc.WriteTemp? || pc.Rename?
  }

  ghost predicate PcSingle(s: State, id: RecordId) {
    Acts(s, id) ==>
      && !s.misled && !s.pc.CompareExisting?
      && (Unpublished(s.pc) ==> id !in s.files.completed)
      && (s.pc.Executing? ==> forall r | r in s.answers :: r.id != id)
      && (s.pc.RemovePending? ==>
            && id in s.files.completed
            && s.files.completed[id] == CompletedRecord(FingerprintOf(s.pc.inv), s.pc.result))
  }

  ghost predicate MatchesRecord(files: Directory, e: Effect) {
    && (e.id in files.pending ==> files.pending[e.id] == Written(e.fingerprint))
    && (e.id in files.completed ==> files.completed[e.id].fingerprint == e.fingerprint)
  }

  ghost predicate RecordsMatch(s: State, id: RecordId) {
    forall e | e in s.effects && e.id == id :: MatchesRecord(s.files, e)
  }

  ghost predicate OneAnswer(s: State, id: RecordId) {
    forall a, b | a in s.answers && b in s.answers && a.id == id && b.id == id :: a == b
  }

  /** One identity's share of a run in which none of its lookups was blind. */
  ghost predicate Single(s: State, id: RecordId) {
    PcSingle(s, id) && RecordsMatch(s, id) && OneAnswer(s, id)
  }

  lemma LookupKeepsPcSingle(s: State, e: Event, id: RecordId)
    requires PcInv(s) && PcSingle(s, id) && !Blind(s, e, id) && !Unpublished(s.pc) && !s.pc.Dispatch?
    ensures PcSingle(Next(s, e), id)
  {}

  lemma ExecutionKeepsPcSingle(s: State, e: Event, id: RecordId)
    requires PcInv(s) && PcSingle(s, id) && AnswersFromEffects(s) && (Unpublished(s.pc) || s.pc.Dispatch?)
    ensures PcSingle(Next(s, e), id)
  {
    if e.Step? && s.pc.Dispatch? {
      forall r | r in s.answers ensures Effect(r.id, r.fingerprint) in s.effects {}
    }
  }

  lemma StepKeepsPcSingle(s: State, e: Event, id: RecordId)
    requires Inv(s) && Single(s, id) && !Blind(s, e, id)
    ensures PcSingle(Next(s, e), id)
  {
    if Unpublished(s.pc) || s.pc.Dispatch? {
      ExecutionKeepsPcSingle(s, e, id);
    } else {
      LookupKeepsPcSingle(s, e, id);
    }
  }

  /** A record of an executed identity is not overwritten by another request's. */
  lemma StepKeepsMatch(s: State, e: Event, x: Effect)
    requires PcInv(s) && Single(s, x.id) && Recorded(s.files, x.id) && x in s.effects
    ensures MatchesRecord(Next(s, e).files, x)
  {
    assert MatchesRecord(s.files, x);
  }

  lemma StepKeepsSingle(s: State, e: Event, id: RecordId)
    requires Inv(s) && Single(s, id) && !Blind(s, e, id)
    ensures Single(Next(s, e), id)
  {
    StepKeepsPcSingle(s, e, id);
    StepAddsEffect(s, e);
    StepAddsAnswer(s, e);
    var t := Next(s, e);
    forall x | x in t.effects && x.id == id ensures MatchesRecord(t.files, x) {
      if x in s.effects {
        StepKeepsMatch(s, e, x);
      }
    }
  }

  lemma {:induction false} SightedKeepsSingle(events: seq<Event>, id: RecordId)
    requires Sighted(events, id)
    ensures Single(Run(events), id)
  {
    if events != [] {
      var front := events[..|events| - 1];
      SightedKeepsSingle(front, id);
      RunKeepsInv(front);
      StepKeepsSingle(Run(front), events[|events| - 1], id);
    }
  }

  lemma OtherFingerprintGetsNothing(events: seq<Event>, e: Effect, inv: Invocation)
    requires Sighted(events, e.id) && e in Run(events).effects
    requires inv.key.Some? && IdOf(inv) == e.id && FingerprintOf(inv) != e.fingerprint
    ensures Effect(IdOf(inv), FingerprintOf(inv)) !in Run(events).effects
    ensures forall reply | reply in Run(events).replies && reply.inv == inv ::
              !reply.outcome.Executed? && !reply.outcome.Replayed?
  {
    var s := Run(events);
    RunKeepsInv(events);
    SightedKeepsSingle(events, e.id);
    assert Recorded(s.files, e.id) && MatchesRecord(s.files, e);
    var other := Effect(IdOf(inv), FingerprintOf(inv));
    assert other in s.effects ==> MatchesRecord(s.files, other);
    forall reply | reply in s.replies && reply.inv == inv
      ensures !reply.outcome.Executed? && !reply.outcome.Replayed?
    {
      assert Faithful(s, reply);
    }
  }

  /** The `k`-th event made the provider act for `inv`. */
  predicate ReachedAt(events: seq<Event>, k: nat, inv: Invocation) {
    k < |events| && events[k].Step? && inv.key.Some? && Run(events[..k]).pc == Dispatch(inv)
  }

  lemma DispatchAddsEffect(s: State, e: Event, inv: Invocation)
    requires s.pc == Dispatch(inv) && inv.key.Some? && e.Step?
    ensures Next(s, e).effects == s.effects + [Effect(IdOf(inv), FingerprintOf(inv))]
  {}

  lemma PrefixHasFewerEffects(events: seq<Event>, n: nat)
    requires n <= |events|
    ensures Run(events[..n]).effects <= Run(events).effects
  {
    var front, rest := events[..n], events[n..];
    assert front + rest == events;
    HistoryGrows(front, rest);
  }

  lemma ReachedIsEffect(events: seq<Event>, k: nat, inv: Invocation)
    requires ReachedAt(events, k, inv)
    ensures Effect(IdOf(inv), FingerprintOf(inv)) in Run(events).effects
  {
    var before := Run(events[..k]).effects;
    assert events[..k + 1] == events[..k] + [events[k]];
    RunStep(events[..k], events[k]);
    DispatchAddsEffect(Run(events[..k]), events[k], inv);
    PrefixHasFewerEffects(events, k + 1);
    assert Run(events).effects[|before|] == (before + [Effect(IdOf(inv), FingerprintOf(inv))])[|before|];
  }

  /** Once the provider was made to act for one request, a request of the same identity for
      something else never reaches it and is never told a result, neither directly nor as a replay. */
  lemma ConflictingRequestGetsNothing(events: seq<Event>, k: nat, first: Invocation, inv: Invocation)
    requires ReachedAt(events, k, first) && Sighted(events, IdOf(first))
    requires inv.key.Some? && SameIdentity(first, inv) && !SameRequest(first, inv)
    ensures forall j: nat :: !ReachedAt(events, j, inv)
    ensures forall reply | reply in Run(events).replies && reply.inv == inv ::
              !reply.outcome.Executed? && !reply.outcome.Replayed?
  {
    ReachedIsEffect(events, k, first);
    DigestsMean(first, inv);
    OtherFingerprintGetsNothing(events, Effect(IdOf(first), FingerprintOf(first)), inv);
    forall j: nat ensures !ReachedAt(events, j, inv) {
      if ReachedAt(events, j, inv) {
        ReachedIsEffect(events, j, inv);
      }
    }
  }

  /** In every run, whoever is given a result is given an answer to the very same identity and
      fingerprint, a replay with only the two rewritten fields changed. */
  lemma ResultsAreAnswers(events: seq<Event>, reply: Reply)
    requires reply in Run(events).replies
    ensures Faithful(Run(events), reply)
  {
    RunKeepsInv(events);
  }

  /** Every replay is the result of the one execution, with only the two rewritten fields
      changed. */
  lemma ReplaysAreFaithful(events: seq<Event>, reply: Reply, r: Return)
    requires reply in Run(events).replies && reply.outcome.Replayed?
    requires r in Run(events).answers && reply.inv.key.Some? && r.id == IdOf(reply.inv)
    requires Sighted(events, r.id)
    ensures r.fingerprint == FingerprintOf(reply.inv)
    ensures reply.outcome.result == ReplayFor(reply.inv, r.result)
  {
    var s := Run(events);
    ResultsAreAnswers(events, reply);
    SightedKeepsSingle(events, r.id);
    var stored :| stored in s.answers && stored.id == IdOf(reply.inv) && stored.fingerprint == FingerprintOf(reply.inv)
               && reply.outcome.result == ReplayFor(reply.inv, stored.result);
    assert stored == r;
  }

  // ---------- Recorded identities ----------

  /** No lookup of this identity is blind in the continuation `more`. */
  predicate SightedAfter(events: seq<Event>, more: seq<Event>, id: RecordId) {
    more != [] ==>
      var shorter := more[..|more| - 1];
      SightedAfter(events, shorter, id) && !Blind(Run(events + shorter), more[|more| - 1], id)
  }

  /** The record exists and the call in progress, if it is for this identity, cannot execute:
      it has not found the record to be absent. */
  ghost predicate Blocked(s: State, id: RecordId) {
    && Recorded(s.files, id)
    && (Acts(s, id) ==>
          && !s.pc.WritePending? && !s.pc.Dispatch?
          && (s.pc.FindPending? || s.pc.CreatePending? ==> id in s.files.pending))
  }

  lemma StepKeepsBlocked(s: State, e: Event, id: RecordId)
    requires PcInv(s) && Blocked(s, id) && !Blind(s, e, id)
    ensures Blocked(Next(s, e), id)
  {}

  lemma {:induction false} BlockedForEver(events: seq<Event>, more: seq<Event>, id: RecordId)
    requires Blocked(Run(events), id) && SightedAfter(events, more, id)
    ensures Blocked(Run(events + more), id)
    ensures Executions(Run(events + more).effects, id) == Executions(Run(events).effects, id)
  {
    if more == [] {
      assert events + more == events;
    } else {
      var shorter, last := more[..|more| - 1], more[|more| - 1];
      assert events + more == (events + shorter) + [last];
      BlockedForEver(events, shorter, id);
      RunStep(events + shorter, last);
      RunKeepsInv(events + shorter);
      StepKeepsBlocked(Run(events + shorter), last, id);
      StepExecutes(Run(events + shorter), last, id);
    }
  }

  /** Once either file exists and no call is running (as after a crash), the identity is not
      executed again in any continuation without a blind lookup of it. */
  lemma RecordForbidsExecution(events: seq<Event>, more: seq<Event>, id: RecordId)
    requires Run(events).pc.Idle? && Recorded(Run(events).files, id)
    requires SightedAfter(events, more, id)
    ensures Executions(Run(events + more).effects, id) == Executions(Run(events).effects, id)
  {
    BlockedForEver(events, more, id);
  }

  /** Three steps from an idle state with a completed record: begin, find it, read it. */
  lemma LookupReplies(s: State, inv: Invocation, find: Event, read: Event)
    requires s.pc.Idle? && inv.key.Some? && IdOf(inv) in s.files.completed
    requires find.Step? && !find.fault && read.Step? && !read.fault
    ensures Next(Next(Next(s, Begin(inv)), find), read).replies
         == s.replies + [Reply(inv, Told(s.files, inv, read.answer))]
  {
    assert Next(Next(s, Begin(inv)), find).pc == ReadCompleted(inv);
  }

  /** After any history, a completed identity replays its stored answer to a retry, unless
      finding or reading the record fails; without blind lookups that is its only answer. */
  lemma RetryReplays(events: seq<Event>, inv: Invocation, r: Return, find: Event, read: Event)
    requires Run(events).pc.Idle?
    requires inv.key.Some? && IdOf(inv) in Run(events).files.completed && Sighted(events, IdOf(inv))
    requires r in Run(events).answers && r.id == IdOf(inv)
    requires find.Step? && !find.fault && read.Step? && !read.fault
    ensures Run(events + [Begin(inv)] + [find] + [read]).replies
         == Run(events).replies
          + [Reply(inv, if r.fingerprint == FingerprintOf(inv) then Replayed(ReplayFor(inv, r.result))
                        else Conflict)]
  {
    var s := Run(events);
    RunKeepsInv(events);
    SightedKeepsSingle(events, IdOf(inv));
    RunStep(events, Begin(inv));
    RunStep(events + [Begin(inv)], find);
    RunStep(events + [Begin(inv)] + [find], read);
    LookupReplies(s, inv, find, read);
    var stored := s.files.completed[IdOf(inv)];
    assert Return(IdOf(inv), stored.fingerprint, stored.result) == r;
  }

  // ---------- Which requests share a result ----------

  /** The `k`-th event was the provider's answer to `first`, a request made before. */
  predicate AnsweredAt(events: seq<Event>, k: nat, first: Invocation) {
    && k < |events| && events[k].Step?
    && first.key.Some? && Begin(first) in events[..k] && Run(events[..k]).pc == Executing(first)
  }

  ghost predicate AnswerHasRequest(events: seq<Event>, r: Return) {
    exists k: nat, first ::
      AnsweredAt(events, k, first) && events[k].answer == r.result
      && IdOf(first) == r.id && FingerprintOf(first) == r.fingerprint
  }

  lemma AnsweredEarlier(events: seq<Event>, e: Event, k: nat, first: Invocation)
    requires AnsweredAt(events, k, first)
    ensures AnsweredAt(events + [e], k, first) && (events + [e])[k] == events[k]
  {
    assert (events + [e])[..k] == events[..k];
  }

  lemma AnswerKeepsRequest(events: seq<Event>, e: Event, r: Return)
    requires AnswerHasRequest(events, r)
    ensures AnswerHasRequest(events + [e], r)
  {
    var k: nat, first :| AnsweredAt(events, k, first) && events[k].answer == r.result
                         && IdOf(first) == r.id && FingerprintOf(first) == r.fingerprint;
    AnsweredEarlier(events, e, k, first);
  }

  /** The call in progress was begun. */
  predicate Begun(events: seq<Event>, pc: Pc) {
    !pc.Idle? ==> pc.inv.key.Some? && Begin(pc.inv) in events
  }

  lemma StepKeepsBegun(events: seq<Event>, e: Event)
    requires Begun(events, Run(events).pc)
    ensures Begun(events + [e], Run(events + [e]).pc)
  {
    RunStep(events, e);
    var s, t := Run(events), Next(Run(events), e);
    assert !t.pc.Idle? && !s.pc.Idle? ==> t.pc.inv == s.pc.inv;
  }

  lemma {:induction false} AnswersHaveRequests(events: seq<Event>)
    ensures Begun(events, Run(events).pc)
    ensures forall r | r in Run(events).answers :: AnswerHasRequest(events, r)
  {
    if events != [] {
      var front, e := events[..|events| - 1], events[|events| - 1];
      assert events == front + [e];
      AnswersHaveRequests(front);
      StepKeepsBegun(front, e);
      RunKeepsInv(front);
      StepAddsAnswer(Run(front), e);
      forall r | r in Run(events).answers ensures AnswerHasRequest(events, r) {
        if r in Run(front).answers {
          AnswerKeepsRequest(front, e, r);
        } else {
          assert events[..|front|] == front;
          assert AnsweredAt(events, |front|, Run(front).pc.inv);
        }
      }
    }
  }

  /** What a caller is told is the provider's answer to an earlier request, or its own, that agrees
      with its request in caller, device, capability, key, job, session, arguments, preconditions
      and expectations; a replay differs from it in version and request id only. */
  ghost predicate IsAnswerToSame(events: seq<Event>, inv: Invocation, outcome: Outcome) {
    outcome.Executed? || outcome.Replayed? ==>
      exists k: nat, first ::
        && AnsweredAt(events, k, first) && SameIdentity(first, inv) && SameRequest(first, inv)
        && (outcome.Executed? ==> outcome.result == events[k].answer)
        && (outcome.Replayed? ==> IsReplay(inv, events[k].answer, outcome.result))
  }

  lemma ResultsAnswerTheSameRequest(events: seq<Event>, reply: Reply)
    requires reply in Run(events).replies
    ensures IsAnswerToSame(events, reply.inv, reply.outcome)
  {
    ResultsAreAnswers(events, reply);
    AnswersHaveRequests(events);
    var inv, outcome := reply.inv, reply.outcome;
    if outcome.Executed? {
      var r := Return(IdOf(inv), FingerprintOf(inv), outcome.result);
      assert AnswerHasRequest(events, r);
      var k: nat, first :| AnsweredAt(events, k, first) && events[k].answer == r.result
                           && IdOf(first) == r.id && FingerprintOf(first) == r.fingerprint;
      DigestsMean(first, inv);
    } else if outcome.Replayed? {
      var r :| r in Run(events).answers && r.id == IdOf(inv) && r.fingerprint == FingerprintOf(inv)
               && outcome.result == ReplayFor(inv, r.result);
      assert AnswerHasRequest(events, r);
      var k: nat, first :| AnsweredAt(events, k, first) && events[k].answer == r.result
                           && IdOf(first) == r.id && FingerprintOf(first) == r.fingerprint;
      DigestsMean(first, inv);
    }
  }

  /** Whoever has been told a result of its own execution left a completed record. */
  ghost predicate ExecutedIsCompleted(s: State) {
    forall reply | reply in s.replies && reply.outcome.Executed? ::
      reply.inv.key.Some? && IdOf(reply.inv) in s.files.completed
  }

  lemma StepKeepsCompletedFiles(s: State, e: Event)
    requires PcInv(s)
    ensures s.files.completed.Keys <= Next(s, e).files.completed.Keys
    ensures forall reply | reply in Next(s, e).replies && reply !in s.replies ::
      reply.outcome.Executed? ==> reply.inv.key.Some? && IdOf(reply.inv) in s.files.completed
  {}

  lemma {:induction false} ExecutedStaysCompleted(events: seq<Event>)
    ensures ExecutedIsCompleted(Run(events))
  {
    if events != [] {
      var front := events[..|events| - 1];
      ExecutedStaysCompleted(front);
      RunKeepsInv(front);
      StepKeepsCompletedFiles(Run(front), events[|events| - 1]);
    }
  }

  /** A request that was executed, told its result, and is retried: if the retry finds and reads
      the record, it is told the same result if it asks for the same, and a conflict if it differs
      in job, session, arguments, preconditions or expectations. */
  lemma RetryIsToldItsOwnResult(events: seq<Event>, first: Invocation, answer: ResultEnvelope, inv: Invocation,
                                find: Event, read: Event)
    requires Reply(first, Executed(answer)) in Run(events).replies && Run(events).pc.Idle?
    requires inv.key.Some? && SameIdentity(first, inv) && Sighted(events, IdOf(inv))
    requires find.Step? && !find.fault && read.Step? && !read.fault
    ensures var told := Run(events + [Begin(inv)] + [find] + [read]).replies;
            && |told| == |Run(events).replies| + 1 && Run(events).replies <= told
            && var reply := told[|told| - 1];
               && reply.inv == inv
               && (if SameRequest(first, inv)
                   then reply.outcome.Replayed? && IsReplay(inv, answer, reply.outcome.result)
                   else reply.outcome == Conflict)
  {
    ExecutedStaysCompleted(events);
    ResultsAreAnswers(events, Reply(first, Executed(answer)));
    DigestsMean(first, inv);
    var r := Return(IdOf(first), FingerprintOf(first), answer);
    RetryReplays(events, inv, r, find, read);
  }

  /** Four steps from an idle state with a pending record alone: begin, find it, read it. */
  lemma PendingLookupReplies(s: State, inv: Invocation, step: Event, fingerprint: Fingerprint)
    requires s.pc.Idle? && inv.key.Some? && step.Step? && !step.fault
    requires IdOf(inv) !in s.files.completed
    requires IdOf(inv) in s.files.pending && s.files.pending[IdOf(inv)] == Written(fingerprint)
    ensures Next(Twice(Next(s, Begin(inv)), step), step).replies
         == s.replies + [Reply(inv, if fingerprint == FingerprintOf(inv) then PendingUnresolved else Conflict)]
  {
    assert Twice(Next(s, Begin(inv)), step).pc == ReadPending(inv);
  }

  /** A request that reached the provider and was not completed, and is retried: if the retry sees and
      reads the record, it is told that the outcome is unresolved if it asks for the same, and a
      conflict otherwise. */
  lemma UnfinishedRetryIsToldSo(events: seq<Event>, k: nat, first: Invocation, inv: Invocation, step: Event)
    requires ReachedAt(events, k, first) && Run(events).pc.Idle? && IdOf(first) !in Run(events).files.completed
    requires inv.key.Some? && SameIdentity(first, inv) && Sighted(events, IdOf(first))
    requires step.Step? && !step.fault
    ensures Run(events + [Begin(inv)] + [step] + [step] + [step]).replies
         == Run(events).replies + [Reply(inv, if SameRequest(first, inv) then PendingUnresolved else Conflict)]
  {
    var s, e := Run(events), Effect(IdOf(first), FingerprintOf(first));
    ReachedIsEffect(events, k, first);
    DigestsMean(first, inv);
    RunKeepsInv(events);
    SightedKeepsSingle(events, IdOf(first));
    assert Recorded(s.files, e.id) && MatchesRecord(s.files, e);
    RunStep(events, Begin(inv));
    RunTwice(events + [Begin(inv)], step);
    RunStep(events + [Begin(inv)] + [step] + [step], step);
    PendingLookupReplies(s, inv, step, e.fingerprint);
  }

  // ---------- The code, as it runs between crashes ----------

  datatype Lookup = Miss | Pending | Replay(result: ResultEnvelope) | Mismatch

  /** What a directory that works says of a keyed request: a completed record decides first,
      then a pending one; nothing can be said of a torn pending file. */
  function Classify(files: Directory, inv: Invocation): Option<Lookup>
    requires inv.key.Some?
  {
    var id, fp := IdOf(inv), FingerprintOf(inv);
    if id in files.completed then
      var record := files.completed[id];
      Some(if record.fingerprint == fp then Replay(ReplayFor(inv, record.result)) else Mismatch)
    else if id in files.pending then
      if files.pending[id].Torn? then None
      else Some(if files.pending[id].fingerprint == fp then Pending else Mismatch)
    else Some(Miss)
  }

  /** A completed record decides what is told before a pending one, and either tells its own request
      from others; nothing is executed while there is a record. */
  lemma ToldMeans(files: Directory, inv: Invocation, answer: ResultEnvelope)
    requires inv.key.Some?
    ensures var id, fp, told := IdOf(inv), FingerprintOf(inv), Told(files, inv, answer);
            if id in files.completed then
              if files.completed[id].fingerprint == fp
              then told.Replayed? && IsReplay(inv, files.completed[id].result, told.result)
              else told == Conflict
            else if id in files.pending then
              && (told == StoreFailure <==> files.pending[id] == Torn)
              && (told == PendingUnresolved <==> files.pending[id] == Written(fp))
              && (told == Conflict <==> files.pending[id].Written? && files.pending[id] != Written(fp))
            else told == Executed(answer)
  {}

  /** The directory as it looks when the existence check of the completed record fails. */
  function Hiding(files: Directory, id: RecordId): Directory {
    files.(completed := files.completed - {id})
  }

  lemma HidingNothing(files: Directory, id: RecordId)
    ensures id !in files.completed ==> Hiding(files, id) == files
  {
    assert id !in files.completed ==> files.completed - {id} == files.completed;
  }

  /** What a lookup may say when existence checks may fail: either file may be overlooked. */
  predicate MaySay(files: Directory, inv: Invocation, verdict: Lookup)
    requires inv.key.Some?
  {
    || verdict.Miss?
    || Classify(files, inv) == Some(verdict)
    || Classify(Hiding(files, IdOf(inv)), inv) == Some(verdict)
  }

  function OutcomeOf(verdict: Lookup, answer: ResultEnvelope): Outcome {
    match verdict
    case Miss => Executed(answer)
    case Pending => PendingUnresolved
    case Replay(result) => Replayed(result)
    case Mismatch => Conflict
  }

  /** What the caller of a request is told by a directory that works; only without any record
      is the provider reached. */
  function Told(files: Directory, inv: Invocation, answer: ResultEnvelope): Outcome
    requires inv.key.Some?
  {
    var verdict := Classify(files, inv);
    if verdict.None? then StoreFailure else OutcomeOf(verdict.value, answer)
  }

  /** What it may be told by one that does not. */
  ghost predicate MayBeTold(files: Directory, inv: Invocation, answer: ResultEnvelope, outcome: Outcome)
    requires inv.key.Some?
  {
    outcome == StoreFailure || exists verdict :: MaySay(files, inv, verdict) && outcome == OutcomeOf(verdict, answer)
  }

  /** The process went on from `before` to `after` without reaching the provider or replying. */
  predicate Quiet(before: seq<Event>, after: seq<Event>) {
    before <= after && Run(after).effects == Run(before).effects && Run(after).replies == Run(before).replies
  }

  /** It went on without reaching the provider, and replied once. */
  predicate Ended(before: seq<Event>, after: seq<Event>, inv: Invocation, outcome: Outcome) {
    && before <= after && Run(after).effects == Run(before).effects
    && Run(after).replies == Run(before).replies + [Reply(inv, outcome)]
  }

  /** What a lookup that ends the call replies. */
  function Ending(r: Result<Lookup, ()>): Outcome {
    if r.Err? then StoreFailure else OutcomeOf(r.value, ResultEnvelope("", "", ""))
  }

  /** The store object.  `trace` is the machine's history of this directory; every method
      extends it by the file operations it performed, so a crash inside a method is a crash
      after some prefix of what it appended. */
  class IdempotencyStore {
    var pending: map<RecordId, PendingFile>
    var completed: map<RecordId, CompletedRecord>
    var temps: map<nat, Option<CompletedRecord>>
    /** A reliable disk never fails a file operation; any other may fail each one. */
    const reliable: bool
    ghost var trace: seq<Event>

    ghost function Files(): Directory
      reads this
    {
      Directory(pending, completed, temps)
    }

    ghost predicate At(pc: Pc)
      reads this
    {
      Run(trace).files == Files() && Run(trace).pc == pc
    }

    constructor (reliable: bool)
      ensures At(Idle) && trace == [] && pending == map[] && completed == map[] && this.reliable == reliable
    {
      pending, completed, temps := map[], map[], map[];
      this.reliable := reliable;
      trace := [];
    }

    method FileFault() returns (fault: bool)
      ensures fault ==> !reliable
    {
      fault := *;
      fault := fault && !reliable;
    }

    ghost method Log(e: Event)
      modifies this`trace
      ensures trace == old(trace) + [e] && Run(trace) == Next(Run(old(trace)), e)
    {
      RunStep(trace, e);
      trace := trace + [e];
    }

    /** A new process finds the files as the last one left them. */
    method Restart()
      requires Run(trace).files == Files()
      modifies this`trace
      ensures At(Idle) && trace == old(trace) + [Crash]
    {
      Log(Crash);
    }

    method ReadCompletedRecord(inv: Invocation) returns (r: Result<Lookup, ()>)
      requires inv.key.Some? && At(ReadCompleted(inv)) && IdOf(inv) in completed
      modifies this`trace
      ensures At(Idle) && Ended(old(trace), trace, inv, Ending(r))
      ensures r != Ok(Miss)
      ensures if r.Ok? then Classify(Files(), inv) == Some(r.value) else !reliable
    {
      var fault := FileFault();
      Log(Step(fault, ResultEnvelope("", "", ""), 0));
      if fault {
        return Err(());
      }
      var record := completed[IdOf(inv)];
      if record.fingerprint != FingerprintOf(inv) {
        return Ok(Mismatch);
      }
      return Ok(Replay(ReplayFor(inv, record.result)));
    }

    method ReadPendingRecord(inv: Invocation) returns (r: Result<Lookup, ()>)
      requires inv.key.Some? && At(ReadPending(inv)) && IdOf(inv) in pending
      modifies this`trace
      ensures At(Idle) && Ended(old(trace), trace, inv, Ending(r))
      ensures r != Ok(Miss)
      ensures var said := Classify(Hiding(Files(), IdOf(inv)), inv);
              if r.Ok? then said == Some(r.value) else !reliable || said == None
    {
      var fault := FileFault();
      Log(Step(fault, ResultEnvelope("", "", ""), 0));
      if fault || pending[IdOf(inv)].Torn? {
        return Err(());
      }
      if pending[IdOf(inv)].fingerprint != FingerprintOf(inv) {
        return Ok(Mismatch);
      }
      return Ok(Pending);
    }

    method LookUpPending(inv: Invocation) returns (r: Result<Lookup, ()>)
      requires inv.key.Some? && At(FindPending(inv))
      modifies this`trace
      ensures At(if r == Ok(Miss) then CreatePending(inv) else Idle)
      ensures if r == Ok(Miss) then Quiet(old(trace), trace) else Ended(old(trace), trace, inv, Ending(r))
      ensures var said := Classify(Hiding(Files(), IdOf(inv)), inv);
              && (r.Ok? ==> r.value.Miss? || said == Some(r.value))
              && (reliable ==> said == if r.Ok? then Some(r.value) else None)
    {
      var overlooked := FileFault();
      Log(Step(overlooked, ResultEnvelope("", "", ""), 0));
      if overlooked || IdOf(inv) !in pending {
        return Ok(Miss);
      }
      r := ReadPendingRecord(inv);
    }

    /** An existence check that fails reads as absence. */
    method FindCompletedFile(inv: Invocation) returns (found: bool)
      requires inv.key.Some? && At(FindCompleted(inv))
      modifies this`trace
      ensures At(if found then ReadCompleted(inv) else FindPending(inv)) && Quiet(old(trace), trace)
      ensures found ==> IdOf(inv) in completed
      ensures !found && reliable ==> IdOf(inv) !in completed
    {
      var overlooked := FileFault();
      Log(Step(overlooked, ResultEnvelope("", "", ""), 0));
      return !overlooked && IdOf(inv) in completed;
    }

    method LookUp(inv: Invocation) returns (r: Result<Lookup, ()>)
      requires inv.key.Some? ==> At(FindCompleted(inv))
      modifies this`trace
      ensures inv.key.None? ==> r == Ok(Miss) && trace == old(trace)
      ensures inv.key.Some? ==> At(if r == Ok(Miss) then CreatePending(inv) else Idle)
      ensures inv.key.Some? ==>
        if r == Ok(Miss) then Quiet(old(trace), trace) else Ended(old(trace), trace, inv, Ending(r))
      ensures inv.key.Some? && r.Ok? ==> MaySay(Files(), inv, r.value)
      ensures inv.key.Some? && reliable ==> Classify(Files(), inv) == if r.Ok? then Some(r.value) else None
    {
      if inv.key.None? {
        return Ok(Miss);
      }
      var found := FindCompletedFile(inv);
      if found {
        r := ReadCompletedRecord(inv);
        return;
      }
      r := LookUpPending(inv);
      HidingNothing(Files(), IdOf(inv));
    }

    method CreatePendingFile(inv: Invocation) returns (ok: bool)
      requires inv.key.Some? && At(CreatePending(inv))
      modifies this`pending, this`trace
      ensures At(if ok then WritePending(inv) else Idle)
      ensures if ok then Quiet(old(trace), trace) else Ended(old(trace), trace, inv, StoreFailure)
      ensures if ok then IdOf(inv) !in old(pending) && pending == old(pending)[IdOf(inv) := Torn]
              else pending == old(pending) && (reliable ==> IdOf(inv) in pending)
    {
      var fault := FileFault();
      Log(Step(fault, ResultEnvelope("", "", ""), 0));
      if fault || IdOf(inv) in pending {
        return false;
      }
      pending := pending[IdOf(inv) := Torn];
      return true;
    }

    method WritePendingFile(inv: Invocation) returns (ok: bool)
      requires inv.key.Some? && At(WritePending(inv))
      modifies this`pending, this`trace
      ensures At(if ok then Dispatch(inv) else Idle)
      ensures if ok then Quiet(old(trace), trace) else Ended(old(trace), trace, inv, StoreFailure)
      ensures if ok then pending == old(pending)[IdOf(inv) := Written(FingerprintOf(inv))]
              else pending == old(pending) && !reliable
    {
      var fault := FileFault();
      Log(Step(fault, ResultEnvelope("", "", ""), 0));
      if fault {
        return false;
      }
      pending := pending[IdOf(inv) := Written(FingerprintOf(inv))];
      return true;
    }

    method Reserve(inv: Invocation) returns (ok: bool)
      requires inv.key.Some? ==> At(CreatePending(inv))
      modifies this`pending, this`trace
      ensures inv.key.None? ==> !ok && unchanged(this)
      ensures inv.key.Some? ==> At(if ok then Dispatch(inv) else Idle)
      ensures inv.key.Some? ==> if ok then Quiet(old(trace), trace) else Ended(old(trace), trace, inv, StoreFailure)
      ensures ok ==>
        && IdOf(inv) !in old(pending)
        && pending == old(pending)[IdOf(inv) := Written(FingerprintOf(inv))]
      ensures inv.key.Some? && !ok ==>
        || pending == old(pending)
        || (IdOf(inv) !in old(pending) && pending == old(pending)[IdOf(inv) := Torn])
      ensures inv.key.Some? && !ok && reliable ==> IdOf(inv) in old(pending)
    {
      if inv.key.None? {
        return false;
      }
      ok := CreatePendingFile(inv);
      if ok {
        ok := WritePendingFile(inv);
      }
    }

    method CreateTempFile(inv: Invocation, result: ResultEnvelope) returns (temp: Option<nat>)
      requires inv.key.Some? && At(CreateTemp(inv, result))
      modifies this`temps, this`trace
      ensures At(if temp.Some? then WriteTemp(inv, result, temp.value) else Idle)
      ensures if temp.Some? then Quiet(old(trace), trace) else Ended(old(trace), trace, inv, StoreFailure)
      ensures temp.None? ==> !reliable
    {
      var t: nat := *;
      var fault := FileFault();
      Log(Step(fault, result, t));
      if fault {
        return None;
      }
      temps := temps[t := None];
      return Some(t);
    }

    method WriteTempFile(inv: Invocation, result: ResultEnvelope, temp: nat) returns (ok: bool)
      requires inv.key.Some? && At(WriteTemp(inv, result, temp))
      modifies this`temps, this`trace
      ensures At(if ok then Rename(inv, result, temp) else Idle)
      ensures if ok then Quiet(old(trace), trace) else Ended(old(trace), trace, inv, StoreFailure)
      ensures ok ==> temp in temps && temps[temp] == Some(CompletedRecord(FingerprintOf(inv), result))
      ensures !ok ==> !reliable
    {
      var fault := FileFault();
      Log(Step(fault, result, temp));
      if fault {
        return false;
      }
      temps := temps[temp := Some(CompletedRecord(FingerprintOf(inv), result))];
      return true;
    }

    method RenameTempFile(inv: Invocation, result: ResultEnvelope, temp: nat) returns (ok: bool)
      requires inv.key.Some? && At(Rename(inv, result, temp))
      requires temp in temps && temps[temp] == Some(CompletedRecord(FingerprintOf(inv), result))
      modifies this`completed, this`temps, this`trace
      ensures At(if ok then RemovePending(inv, result) else Idle)
      ensures if ok then Quiet(old(trace), trace) else Ended(old(trace), trace, inv, StoreFailure)
      ensures completed == if ok then old(completed)[IdOf(inv) := CompletedRecord(FingerprintOf(inv), result)]
                                 else old(completed)
      ensures !ok ==> !reliable
    {
      var fault := FileFault();
      Log(Step(fault, result, temp));
      if fault {
        temps := temps - {temp};
        return false;
      }
      completed, temps := completed[IdOf(inv) := temps[temp].value], temps - {temp};
      return true;
    }

    /** The record appears complete or not at all. */
    method Publish(inv: Invocation, result: ResultEnvelope) returns (ok: bool)
      requires inv.key.Some? && At(CreateTemp(inv, result))
      modifies this`completed, this`temps, this`trace
      ensures At(if ok then RemovePending(inv, result) else Idle)
      ensures if ok then Quiet(old(trace), trace) else Ended(old(trace), trace, inv, StoreFailure)
      ensures completed == if ok then old(completed)[IdOf(inv) := CompletedRecord(FingerprintOf(inv), result)]
                                 else old(completed)
      ensures !ok ==> !reliable
    {
      var temp := CreateTempFile(inv, result);
      if temp.None? {
        return false;
      }
      ok := WriteTempFile(inv, result, temp.value);
      if ok {
        ok := RenameTempFile(inv, result, temp.value);
      }
    }

    method DropPending(inv: Invocation, result: ResultEnvelope)
      requires inv.key.Some? && At(RemovePending(inv, result))
      modifies this`pending, this`trace
      ensures At(Idle) && Ended(old(trace), trace, inv, Executed(result))
      ensures pending == old(pending) - {IdOf(inv)} || (pending == old(pending) && !reliable)
    {
      var fault := FileFault();
      Log(Step(fault, result, 0));
      if !fault {
        pending := pending - {IdOf(inv)};
      }
    }

    /** A record that is there already must be of the same request. */
    method CheckExisting(inv: Invocation, result: ResultEnvelope) returns (ok: bool)
      requires inv.key.Some? && At(CompareExisting(inv, result)) && IdOf(inv) in completed
      modifies this`trace
      ensures At(if ok then RemovePending(inv, result) else Idle)
      ensures if ok then Quiet(old(trace), trace) else Ended(old(trace), trace, inv, StoreFailure)
      ensures if ok then completed[IdOf(inv)].fingerprint == FingerprintOf(inv)
              else !reliable || completed[IdOf(inv)].fingerprint != FingerprintOf(inv)
    {
      var fault := FileFault();
      Log(Step(fault, result, 0));
      ok := !fault && completed[IdOf(inv)].fingerprint == FingerprintOf(inv);
    }

    /** A completed record that is seen to exist is kept; otherwise this one is published. */
    method PublishOnce(inv: Invocation, result: ResultEnvelope) returns (ok: bool)
      requires inv.key.Some? && At(FindPublished(inv, result))
      modifies this`completed, this`temps, this`trace
      ensures At(if ok then RemovePending(inv, result) else Idle)
      ensures if ok then Quiet(old(trace), trace) else Ended(old(trace), trace, inv, StoreFailure)
      ensures if ok then PublishedOver(old(completed), inv, result) else completed == old(completed)
      ensures reliable ==>
        && (ok <==> IdOf(inv) !in old(completed) || old(completed)[IdOf(inv)].fingerprint == FingerprintOf(inv))
        && (IdOf(inv) in old(completed) ==> completed == old(completed))
    {
      var overlooked := FileFault();
      Log(Step(overlooked, result, 0));
      if !overlooked && IdOf(inv) in completed {
        ok := CheckExisting(inv, result);
      } else {
        ok := Publish(inv, result);
      }
    }

    method Complete(inv: Invocation, result: ResultEnvelope) returns (ok: bool)
      requires inv.key.Some? ==> At(FindPublished(inv, result))
      modifies this
      ensures inv.key.None? ==> !ok && unchanged(this)
      ensures inv.key.Some? ==> At(Idle)
      ensures inv.key.Some? ==> Ended(old(trace), trace, inv, if ok then Executed(result) else StoreFailure)
      ensures !ok ==> pending == old(pending) && completed == old(completed)
      ensures ok ==> pending == old(pending) - {IdOf(inv)} || (pending == old(pending) && !reliable)
      ensures ok ==> PublishedOver(old(completed), inv, result)
      ensures inv.key.Some? && reliable ==>
        && (ok <==> IdOf(inv) !in old(completed) || old(completed)[IdOf(inv)].fingerprint == FingerprintOf(inv))
        && (IdOf(inv) in old(completed) ==> completed == old(completed))
    {
      if inv.key.None? {
        return false;
      }
      ok := PublishOnce(inv, result);
      if ok {
        DropPending(inv, result);
      }
    }

    /** The request's own record is there, written now or found there with its fingerprint. */
    ghost predicate PublishedOver(before: map<RecordId, CompletedRecord>, inv: Invocation, result: ResultEnvelope)
      reads this`completed
    {
      && inv.key.Some?
      && (|| completed == before[IdOf(inv) := CompletedRecord(FingerprintOf(inv), result)]
          || (&& completed == before && IdOf(inv) in before
              && before[IdOf(inv)].fingerprint == FingerprintOf(inv)))
    }
  }

  /** agent/tetherd/src/runtime.rs, holding the store mutex from lookup to completion.  A
      runtime started without a state directory has no store. */
  class AgentRuntime {
    const boundPrincipal: Option<string>
    const hasStore: bool
    const store: IdempotencyStore

    constructor (boundPrincipal: Option<string>, hasStore: bool, store: IdempotencyStore)
      ensures this.boundPrincipal == boundPrincipal && this.hasStore == hasStore && this.store == store
    {
      this.boundPrincipal, this.hasStore, this.store := boundPrincipal, hasStore, store;
    }

    /** A bound runtime acts for its own principal, whoever the invocation names. */
    function Bound(inv: Invocation): (bound: Invocation)
      ensures bound.principal == if boundPrincipal.Some? then boundPrincipal else inv.principal
      ensures SameRequest(bound, inv) && bound.(principal := inv.principal) == inv
    {
      if boundPrincipal.Some? then inv.(principal := boundPrincipal) else inv
    }

    /** The provider was not reached, or once, with this request. */
    ghost predicate ReachedAtMostOnce(before: seq<Effect>, inv: Invocation)
      requires inv.key.Some?
      reads store
    {
      || Run(store.trace).effects == before
      || Run(store.trace).effects == before + [Effect(IdOf(inv), FingerprintOf(inv))]
    }

    /** The call's outcome is what the machine's history says it was told. */
    ghost predicate Replied(before: seq<Reply>, inv: Invocation, outcome: Outcome)
      reads store
    {
      Run(store.trace).replies == before + [Reply(inv, outcome)]
    }

    /** The one external effect, and the provider's answer. */
    ghost method CallProvider(inv: Invocation, answer: ResultEnvelope)
      requires inv.key.Some? && store.At(Dispatch(inv))
      modifies store`trace
      ensures store.At(FindPublished(inv, answer)) && old(store.trace) <= store.trace
      ensures Run(store.trace).effects
           == Run(old(store.trace)).effects + [Effect(IdOf(inv), FingerprintOf(inv))]
      ensures Run(store.trace).replies == Run(old(store.trace)).replies
    {
      store.Log(Step(false, answer, 0));
      store.Log(Step(false, answer, 0));
    }

    /** The reserved call: the provider acts, and its answer is published. */
    method Perform(inv: Invocation, answer: ResultEnvelope) returns (outcome: Outcome)
      requires inv.key.Some? && store.At(Dispatch(inv))
      modifies store
      ensures store.At(Idle) && old(store.trace) <= store.trace
      ensures Run(store.trace).effects
           == Run(old(store.trace)).effects + [Effect(IdOf(inv), FingerprintOf(inv))]
      ensures Replied(Run(old(store.trace)).replies, inv, outcome)
      ensures outcome == Executed(answer) || outcome == StoreFailure
      ensures outcome.Executed? ==> store.PublishedOver(old(store.completed), inv, answer)
      ensures !outcome.Executed? ==> store.completed == old(store.completed)
      ensures store.reliable && IdOf(inv) !in old(store.completed) ==> outcome == Executed(answer)
    {
      CallProvider(inv, answer);
      var published := store.Complete(inv, answer);
      outcome := if published then Executed(answer) else StoreFailure;
    }

    /** Once a lookup has missed, the request is reserved and only then performed.  A pending
        record refuses the reservation even if the lookup overlooked it. */
    method ExecuteMiss(inv: Invocation, answer: ResultEnvelope) returns (outcome: Outcome)
      requires inv.key.Some? && store.At(CreatePending(inv))
      requires store.reliable ==> !Recorded(store.Files(), IdOf(inv))
      modifies store
      ensures store.At(Idle) && old(store.trace) <= store.trace
      ensures ReachedAtMostOnce(Run(old(store.trace)).effects, inv)
      ensures Replied(Run(old(store.trace)).replies, inv, outcome)
      ensures IdOf(inv) in old(store.pending) ==>
        outcome == StoreFailure && Run(store.trace).effects == Run(old(store.trace)).effects
      ensures outcome == Executed(answer) || (outcome == StoreFailure && !store.reliable)
      ensures outcome.Executed? ==> store.PublishedOver(old(store.completed), inv, answer)
      ensures !outcome.Executed? ==> store.completed == old(store.completed)
    {
      var reserved := store.Reserve(inv);
      if !reserved {
        return StoreFailure;
      }
      outcome := Perform(inv, answer);
    }

    /** Lookup, reservation, execution and completion, with the store locked throughout. */
    method ExecuteLocked(inv: Invocation, answer: ResultEnvelope) returns (outcome: Outcome)
      requires inv.key.Some? && store.At(Idle)
      modifies store
      ensures store.At(Idle) && old(store.trace) <= store.trace
      ensures if store.reliable then outcome == Told(old(store.Files()), inv, answer)
              else MayBeTold(old(store.Files()), inv, answer, outcome)
      ensures Replied(Run(old(store.trace)).replies, inv, outcome)
      ensures ReachedAtMostOnce(Run(old(store.trace)).effects, inv)
      ensures old(Recorded(store.Files(), IdOf(inv))) && (store.reliable || IdOf(inv) in old(store.pending)) ==>
        Run(store.trace).effects == Run(old(store.trace)).effects
      ensures outcome.Executed? ==> store.PublishedOver(old(store.completed), inv, answer)
      ensures !outcome.Executed? ==> store.completed == old(store.completed)
    {
      store.Log(Begin(inv));
      var found := store.LookUp(inv);
      if found == Ok(Miss) {
        outcome := ExecuteMiss(inv, answer);
      } else {
        outcome := if found.Err? then StoreFailure else OutcomeOf(found.value, answer);
      }
    }

    /** `answer` is what the provider returns if it is reached. */
    method ExecuteIdempotent(inv: Invocation, answer: ResultEnvelope) returns (outcome: Outcome)
      requires inv.key.Some? && store.At(Idle)
      modifies store
      ensures store.At(Idle) && old(store.trace) <= store.trace
      ensures !hasStore ==> outcome == Unavailable && store.trace == old(store.trace)
      ensures hasStore ==>
        if store.reliable then outcome == Told(old(store.Files()), inv, answer)
        else MayBeTold(old(store.Files()), inv, answer, outcome)
      ensures hasStore ==> Replied(Run(old(store.trace)).replies, inv, outcome)
      ensures hasStore ==> IsAnswerToSame(store.trace, inv, outcome)
      // A recorded identity is executed again only if its completed record stands alone and is overlooked.
      ensures ReachedAtMostOnce(Run(old(store.trace)).effects, inv)
      ensures old(Recorded(store.Files(), IdOf(inv))) && (store.reliable || IdOf(inv) in old(store.pending)) ==>
        Run(store.trace).effects == Run(old(store.trace)).effects
      ensures Sighted(store.trace, IdOf(inv)) ==> Executions(Run(store.trace).effects, IdOf(inv)) <= 1
      ensures outcome.Executed? ==> store.PublishedOver(old(store.completed), inv, answer)
      ensures !outcome.Executed? ==> store.completed == old(store.completed)
    {
      if hasStore {
        outcome := ExecuteLocked(inv, answer);
        ResultsAnswerTheSameRequest(store.trace, Reply(inv, outcome));
      } else {
        outcome := Unavailable;
      }
      ExecutesAtMostOnceIfSighted(store.trace, IdOf(inv));
    }

    predicate UsesStore(inv: Invocation) {
      inv.key.Some? && IsMutationCapability(inv.capability)
    }

    /** Only a keyed mutation goes through the store; the bound principal replaces whatever the
        invocation claims. */
    method Execute(inv: Invocation, answer: ResultEnvelope) returns (outcome: Outcome)
      requires store.At(Idle)
      modifies store
      ensures store.At(Idle) && old(store.trace) <= store.trace
      ensures !UsesStore(inv) ==>
        outcome == Executed(answer) && store.pending == old(store.pending) && store.completed == old(store.completed)
      ensures UsesStore(inv) && !hasStore ==> outcome == Unavailable && store.trace == old(store.trace)
      ensures UsesStore(inv) && hasStore ==>
        && (if store.reliable then outcome == Told(old(store.Files()), Bound(inv), answer)
            else MayBeTold(old(store.Files()), Bound(inv), answer, outcome))
        && Replied(Run(old(store.trace)).replies, Bound(inv), outcome)
        && IsAnswerToSame(store.trace, Bound(inv), outcome)
        && ReachedAtMostOnce(Run(old(store.trace)).effects, Bound(inv))
        && (Sighted(store.trace, IdOf(Bound(inv))) ==> Executions(Run(store.trace).effects, IdOf(Bound(inv))) <= 1)
        && (if outcome.Executed? then store.PublishedOver(old(store.completed), Bound(inv), answer)
            else store.completed == old(store.completed))
      ensures boundPrincipal.Some? && UsesStore(inv) ==> IdOf(Bound(inv)).principal == boundPrincipal.value
    {
      var bound := Bound(inv);
      if bound.key.Some? && IsMutationCapability(bound.capability) {
        outcome := ExecuteIdempotent(bound, answer);
      } else {
        outcome := Executed(answer);
      }
    }
  }

  const MUTATIONS: set<string> := {
    "filesystem.write", "filesystem.append", "filesystem.mkdir", "filesystem.move", "filesystem.patch",
    "filesystem.delete", "process.run", "process.input", "process.terminate", "job.create",
    "job.checkpoint", "job.acquire_lease", "job.release_lease", "batch.execute", "browser.create_tab",
    "browser.navigate", "browser.close", "browser.act", "browser.upload"
  }

  predicate IsMutationCapability(capability: string) {
    || capability in MUTATIONS
    || "browser.verified_action" <= capability
    || "desktop.physical_" <= capability
  }

  /** Guarded are changes to files, processes, jobs and the browser, batches, and whatever the browser
      does verifiedly and the desktop physically. */
  lemma MutationsAreGuarded(rest: string)
    ensures IsMutationCapability("browser.verified_action" + rest) && IsMutationCapability("desktop.physical_" + rest)
    ensures forall c | c in {"filesystem.write", "filesystem.append", "filesystem.mkdir", "filesystem.move",
                             "filesystem.patch", "filesystem.delete"} :: IsMutationCapability(c)
    ensures forall c | c in {"process.run", "process.input", "process.terminate", "batch.execute"} ::
              IsMutationCapability(c)
    ensures forall c | c in {"job.create", "job.checkpoint", "job.acquire_lease", "job.release_lease"} ::
              IsMutationCapability(c)
    ensures forall c | c in {"browser.create_tab", "browser.navigate", "browser.close", "browser.act",
                             "browser.upload"} :: IsMutationCapability(c)
  {}
}
