/** The concurrent search queue of agent/providers/search/src/session.rs and the producer of
    agent/providers/search/src/lib.rs.

    One producer thread, any number of readers and any number of cancellers interleave at the
    granularity of single atomic operations, channel operations and lock operations.
 */
module SearchSession {
  import opened Wrappers

  type Item = string

  /** `candidates` are the matches the walk would yield if it ran to the end. */
  datatype Search = Search(candidates: seq<Item>, maxResults: nat, capacity: nat)

  datatype RunState = Running | Completed | Cancelled

  /** Where the producer stands.  From `InnerCheck` to the releases it holds the gate. */
  datatype Producer =
    | Visit
    | OuterCheck
    | WaitGate
    | InnerCheck
    | TrySend
    | CountSent
    | ReleaseSent
    | ReleaseFull
    | ReleaseRefused
    | CheckFinish
    | StoreCancelled
    | CasCancelled
    | CasCompleted
    | Exited

  /** A reader that holds the gate. */
  datatype Reader =
    | Receive(max: nat, items: seq<Item>)
    | CountReceived(max: nat, items: seq<Item>)
    | LoadState(items: seq<Item>, exhausted: bool)
    | Leave(items: seq<Item>, done: bool)

  datatype Gate = Free | HeldByProducer | HeldByReader(reader: Reader)

  datatype ReadResult = ReadResult(items: seq<Item>, done: bool)

  /** `casPending` counts cancellers between their two atomic operations.  `sent`, `received`
      and `results` are history. */
  datatype State = State(
    gate: Gate,
    channel: seq<Item>,
    queued: int,
    runState: RunState,
    cancelled: bool,
    producer: Producer,
    casPending: nat,
    sent: seq<Item>,
    received: seq<Item>,
    results: seq<ReadResult>)

  const Start := State(Free, [], 0, Running, false, Visit, 0, [], [], [])

  datatype Step =
    | Produce(unmatchedEntry: bool)
    | EnterRead(max: nat)
    | Read
    | CancelStore
    | CancelCas

  function Next(s: State, step: Step, q: Search): State {
    match step
    case Produce(unmatchedEntry) => NextProducer(s, unmatchedEntry, q)
    case EnterRead(max) => if s.gate.Free? then s.(gate := HeldByReader(Receive(max, []))) else s
    case Read => if s.gate.HeldByReader? then NextReader(s) else s
    case CancelStore => s.(cancelled := true, casPending := s.casPending + 1)
    case CancelCas =>
      if s.casPending == 0 then s
      else s.(runState := if s.runState.Running? then Cancelled else s.runState, casPending := s.casPending - 1)
  }

  function NextProducer(s: State, unmatchedEntry: bool, q: Search): State {
    match s.producer
    case Visit =>
      var more := |s.sent| < |q.candidates|;
      if (more || unmatchedEntry) && s.cancelled then s.(producer := StoreCancelled)
      else if more then s.(producer := OuterCheck)
      else s.(producer := CheckFinish)
    case OuterCheck => s.(producer := if s.cancelled then StoreCancelled else WaitGate)
    case WaitGate => if s.gate.Free? then s.(gate := HeldByProducer, producer := InnerCheck) else s
    case InnerCheck => s.(producer := if s.cancelled then ReleaseRefused else TrySend)
    case TrySend =>
      if |s.channel| < q.capacity && |s.sent| < |q.candidates| then
        var item := q.candidates[|s.sent|];
        s.(channel := s.channel + [item], sent := s.sent + [item], producer := CountSent)
      else s.(producer := ReleaseFull)
    case CountSent => s.(queued := s.queued + 1, producer := ReleaseSent)
    case ReleaseSent => s.(gate := Free, producer := if |s.sent| >= q.maxResults then CheckFinish else Visit)
    case ReleaseFull => s.(gate := Free, producer := OuterCheck)
    case ReleaseRefused => s.(gate := Free, producer := StoreCancelled)
    case CheckFinish => s.(producer := if s.cancelled then StoreCancelled else CasCompleted)
    case StoreCancelled => s.(cancelled := true, producer := CasCancelled)
    case CasCancelled => s.(runState := if s.runState.Running? then Cancelled else s.runState, producer := Exited)
    case CasCompleted => s.(runState := if s.runState.Running? then Completed else s.runState, producer := Exited)
    case Exited => s
  }

  function NextReader(s: State): State
    requires s.gate.HeldByReader?
  {
    match s.gate.reader
    case Receive(max, items) =>
      if |items| >= max then s.(gate := HeldByReader(LoadState(items, false)))
      else if s.channel == [] then s.(gate := HeldByReader(LoadState(items, true)))
      else s.(channel := s.channel[1..], received := s.received + [s.channel[0]],
              gate := HeldByReader(CountReceived(max, items + [s.channel[0]])))
    case CountReceived(max, items) => s.(queued := s.queued - 1, gate := HeldByReader(Receive(max, items)))
    case LoadState(items, exhausted) =>
      s.(gate := HeldByReader(Leave(items, !s.runState.Running? && exhausted)))
    case Leave(items, done) => s.(gate := Free, results := s.results + [ReadResult(items, done)])
  }

  function Run(steps: seq<Step>, q: Search): State {
    if steps == [] then Start
    else Next(Run(steps[..|steps| - 1], q), steps[|steps| - 1], q)
  }

  // ---------- The invariant ----------

  function Items(results: seq<ReadResult>): seq<Item> {
    if results == [] then []
    else Items(results[..|results| - 1]) + results[|results| - 1].items
  }

  /** What the reader holding the gate has taken and not yet returned. */
  function InHand(gate: Gate): seq<Item> {
    if gate.HeldByReader? then gate.reader.items else []
  }

  ghost predicate Conserved(s: State, q: Search) {
    && s.received + s.channel == s.sent
    && s.sent <= q.candidates
    && Items(s.results) + InHand(s.gate) == s.received
    && |s.channel| <= q.capacity
  }

  /** The counter lags the channel by the one operation that may be in progress. */
  ghost predicate Counted(s: State, q: Search) {
    && s.queued == |s.channel| - (if s.producer.CountSent? then 1 else 0)
                 + (if s.gate.HeldByReader? && s.gate.reader.CountReceived? then 1 else 0)
    && (s.producer.CountSent? ==> |s.channel| >= 1)
    && (s.gate.HeldByReader? && s.gate.reader.CountReceived? ==> |s.channel| < q.capacity)
  }

  ghost predicate HoldsGate(p: Producer) {
    p.InnerCheck? || p.TrySend? || p.CountSent? || p.ReleaseSent? || p.ReleaseFull? || p.ReleaseRefused?
  }

  ghost predicate Control(s: State) {
    && (s.gate.HeldByProducer? <==> HoldsGate(s.producer))
    && (s.runState.Cancelled? ==> s.cancelled)
    && (s.runState.Completed? ==> s.producer.Exited?)
    && (s.producer.Exited? ==> !s.runState.Running?)
    && (s.cancelled && s.casPending == 0 && !s.producer.CasCancelled? ==> !s.runState.Running?)
    && (s.casPending > 0 || s.producer.CasCancelled? || s.producer.ReleaseRefused? ==> s.cancelled)
  }

  /** The producer stops by itself only after everything it was to deliver. */
  ghost predicate Progress(s: State, q: Search) {
    var limit := if |q.candidates| < q.maxResults then |q.candidates| else q.maxResults;
    match s.producer
    case Visit => |s.sent| < q.maxResults
    case OuterCheck => |s.sent| < limit
    case WaitGate => |s.sent| < limit
    case InnerCheck => |s.sent| < limit
    case TrySend => |s.sent| < limit
    case ReleaseFull => |s.sent| < limit
    case CheckFinish => |s.sent| == limit
    case CasCompleted => |s.sent| == limit
    case Exited => s.runState.Completed? ==> |s.sent| == limit
    case _ => |s.sent| <= limit
  }

  /** Nothing is queued and the producer can never queue anything again. */
  ghost predicate Closed(s: State) {
    && s.channel == []
    && (s.cancelled || s.producer.Exited?)
    && !s.producer.TrySend? && !s.producer.CountSent? && !s.producer.ReleaseSent?
  }

  ghost predicate SawDone(results: seq<ReadResult>) {
    exists r :: r in results && r.done
  }

  ghost predicate DoneIsClosed(s: State) {
    && (s.gate.HeldByReader? && s.gate.reader.LoadState? && s.gate.reader.exhausted ==> s.channel == [])
    && (s.gate.HeldByReader? && s.gate.reader.Leave? && s.gate.reader.done ==> Closed(s))
    && (SawDone(s.results) ==> Closed(s) && Items(s.results) == s.sent)
  }

  ghost predicate Inv(s: State, q: Search) {
    Conserved(s, q) && Counted(s, q) && Control(s) && Progress(s, q) && DoneIsClosed(s)
  }

  /** Sending the next match keeps what was sent a head of the matches. */
  lemma SendNext(sent: seq<Item>, received: seq<Item>, channel: seq<Item>, candidates: seq<Item>)
    requires received + channel == sent && sent <= candidates && |sent| < |candidates|
    ensures received + (channel + [candidates[|sent|]]) == sent + [candidates[|sent|]]
    ensures sent + [candidates[|sent|]] <= candidates
  {}

  /** Apart from sending, the producer touches neither the queue nor what was received. */
  lemma ProducerLeavesQueue(s: State, unmatchedEntry: bool, q: Search)
    requires !s.producer.TrySend? && Control(s)
    ensures var t := NextProducer(s, unmatchedEntry, q);
            && t.channel == s.channel && t.sent == s.sent && t.received == s.received && t.results == s.results
            && (t.gate == s.gate || (!t.gate.HeldByReader? && !s.gate.HeldByReader?))
  {}

  lemma ProducerKeepsConserved(s: State, unmatchedEntry: bool, q: Search)
    requires Conserved(s, q) && Control(s)
    ensures Conserved(NextProducer(s, unmatchedEntry, q), q)
  {
    if s.producer.TrySend? {
      if |s.channel| < q.capacity && |s.sent| < |q.candidates| {
        SendNext(s.sent, s.received, s.channel, q.candidates);
      }
    } else {
      ProducerLeavesQueue(s, unmatchedEntry, q);
    }
  }

  lemma TakeHead(hand: seq<Item>, before: seq<Item>, received: seq<Item>, channel: seq<Item>)
    requires before + hand == received && channel != []
    ensures before + (hand + [channel[0]]) == received + [channel[0]]
    ensures received + [channel[0]] + channel[1..] == received + channel
  {}

  lemma ReturnItems(results: seq<ReadResult>, items: seq<Item>, done: bool)
    ensures Items(results + [ReadResult(items, done)]) == Items(results) + items
  {
    assert (results + [ReadResult(items, done)])[..|results|] == results;
  }

  lemma ReaderKeepsConserved(s: State, q: Search)
    requires s.gate.HeldByReader? && Conserved(s, q)
    ensures Conserved(NextReader(s), q)
  {
    match s.gate.reader {
      case Leave(items, done) => ReturnItems(s.results, items, done);
      case Receive(max, items) =>
        if |items| < max && s.channel != [] {
          TakeHead(items, Items(s.results), s.received, s.channel);
        }
      case _ =>
    }
  }

  lemma ProducerKeepsCount(s: State, unmatchedEntry: bool, q: Search)
    requires Conserved(s, q) && Counted(s, q) && Control(s)
    ensures Counted(NextProducer(s, unmatchedEntry, q), q)
  {
    if !s.producer.TrySend? {
      ProducerLeavesQueue(s, unmatchedEntry, q);
    }
  }

  lemma ProducerKeepsControl(s: State, unmatchedEntry: bool, q: Search)
    requires Control(s)
    ensures Control(NextProducer(s, unmatchedEntry, q))
  {}

  lemma ProducerKeepsProgress(s: State, unmatchedEntry: bool, q: Search)
    requires Conserved(s, q) && Progress(s, q) && Control(s) && q.maxResults > 0
    ensures Progress(NextProducer(s, unmatchedEntry, q), q)
  {}

  lemma ReaderKeepsControl(s: State, q: Search)
    requires s.gate.HeldByReader?
    requires Conserved(s, q) && Counted(s, q) && Control(s) && Progress(s, q)
    ensures Counted(NextReader(s), q) && Control(NextReader(s)) && Progress(NextReader(s), q)
  {}

  lemma StepKeepsControl(s: State, step: Step, q: Search)
    requires Inv(s, q) && q.maxResults > 0
    ensures var t := Next(s, step, q); Conserved(t, q) && Counted(t, q) && Control(t) && Progress(t, q)
  {
    match step {
      case Produce(unmatchedEntry) =>
        ProducerKeepsConserved(s, unmatchedEntry, q);
        ProducerKeepsCount(s, unmatchedEntry, q);
        ProducerKeepsControl(s, unmatchedEntry, q);
        ProducerKeepsProgress(s, unmatchedEntry, q);
      case Read =>
        if s.gate.HeldByReader? {
          ReaderKeepsConserved(s, q);
          ReaderKeepsControl(s, q);
        }
      case _ =>
    }
  }

  lemma ProducerKeepsDone(s: State, unmatchedEntry: bool, q: Search)
    requires DoneIsClosed(s) && Control(s)
    ensures DoneIsClosed(NextProducer(s, unmatchedEntry, q))
    ensures Closed(s) ==> Closed(NextProducer(s, unmatchedEntry, q))
  {}

  lemma ReaderKeepsClosed(s: State)
    requires s.gate.HeldByReader? && Closed(s)
    ensures Closed(NextReader(s)) && NextReader(s).sent == s.sent
  {}

  lemma {:induction false} LeavingKeepsDone(s: State, q: Search)
    requires s.gate.HeldByReader? && s.gate.reader.Leave? && DoneIsClosed(s) && Conserved(s, q)
    ensures DoneIsClosed(NextReader(s))
  {}

  /** Until it leaves, a reader returns nothing; what it will report it bases on a dry queue. */
  lemma ReadingKeepsDone(s: State, q: Search)
    requires s.gate.HeldByReader? && !s.gate.reader.Leave? && DoneIsClosed(s) && Control(s)
    ensures var t := NextReader(s);
            && t.results == s.results
            && (t.gate.reader.LoadState? && t.gate.reader.exhausted ==> t.channel == [])
            && (t.gate.reader.Leave? && t.gate.reader.done ==> Closed(t))
  {}

  lemma ReaderKeepsDone(s: State, q: Search)
    requires s.gate.HeldByReader? && DoneIsClosed(s) && Control(s) && Conserved(s, q)
    ensures DoneIsClosed(NextReader(s))
  {
    if s.gate.reader.Leave? {
      LeavingKeepsDone(s, q);
    } else {
      ReadingKeepsDone(s, q);
      if SawDone(s.results) {
        ReaderKeepsClosed(s);
      }
    }
  }

  /** Once the session is closed nothing more is sent; results are only ever added. */
  lemma StepKeepsDone(s: State, step: Step, q: Search)
    requires Inv(s, q)
    ensures DoneIsClosed(Next(s, step, q))
    ensures Closed(s) ==> Closed(Next(s, step, q)) && Next(s, step, q).sent == s.sent
    ensures s.results <= Next(s, step, q).results
  {
    match step {
      case Produce(unmatchedEntry) => ProducerKeepsDone(s, unmatchedEntry, q);
      case Read =>
        if s.gate.HeldByReader? {
          ReaderKeepsDone(s, q);
          if Closed(s) {
            ReaderKeepsClosed(s);
          }
        }
      case _ =>
    }
  }

  lemma {:induction false} RunKeepsInv(steps: seq<Step>, q: Search)
    requires q.maxResults > 0
    ensures Inv(Run(steps, q), q)
  {
    if steps != [] {
      var front := steps[..|steps| - 1];
      RunKeepsInv(front, q);
      StepKeepsControl(Run(front, q), steps[|steps| - 1], q);
      StepKeepsDone(Run(front, q), steps[|steps| - 1], q);
    }
  }

  // ---------- Whole runs ----------

  /** In every interleaving: what readers have taken, in the order they took it, followed by
      the queue, is what was sent, in order; and what was sent is the head of the matches. */
  lemma NothingLostOrReordered(steps: seq<Step>, q: Search)
    requires q.maxResults > 0
    ensures var s := Run(steps, q);
            Items(s.results) + InHand(s.gate) + s.channel == s.sent && s.sent <= q.candidates
  {
    RunKeepsInv(steps, q);
  }

  lemma QueuedIsBounded(steps: seq<Step>, q: Search)
    requires q.maxResults > 0
    ensures 0 <= Run(steps, q).queued <= q.capacity
    ensures Run(steps, q).gate.Free? ==> Run(steps, q).queued == |Run(steps, q).channel|
  {
    RunKeepsInv(steps, q);
  }

  lemma RunStep(steps: seq<Step>, step: Step, q: Search)
    ensures Run(steps + [step], q) == Next(Run(steps, q), step, q)
  {}

  /** A read has reported the end, and everything in `sent` and nothing else was ever sent or returned. */
  ghost predicate Drained(s: State, sent: seq<Item>) {
    SawDone(s.results) && s.channel == [] && s.sent == sent && Items(s.results) == sent
  }

  lemma DoneStaysDone(steps: seq<Step>, step: Step, q: Search)
    requires q.maxResults > 0 && SawDone(Run(steps, q).results)
    ensures Drained(Run(steps, q), Run(steps, q).sent)
    ensures Drained(Run(steps + [step], q), Run(steps, q).sent)
  {
    var s := Run(steps, q);
    RunKeepsInv(steps, q);
    StepKeepsDone(s, step, q);
    RunStep(steps, step, q);
    var r :| r in s.results && r.done;
    assert r in Next(s, step, q).results;
  }

  /** A read that reports `done` has seen the end: everything ever sent has been returned, and
      in no continuation is anything sent again. */
  lemma {:induction false} DoneIsFinal(steps: seq<Step>, more: seq<Step>, q: Search)
    requires q.maxResults > 0
    requires SawDone(Run(steps, q).results)
    ensures Drained(Run(steps + more, q), Run(steps, q).sent)
  {
    if more == [] {
      assert steps + more == steps;
      DoneStaysDone(steps, CancelStore, q);
    } else {
      var shorter, last := more[..|more| - 1], more[|more| - 1];
      DoneIsFinal(steps, shorter, q);
      assert steps + more == (steps + shorter) + [last];
      DoneStaysDone(steps + shorter, last, q);
    }
  }

  /** A search that reads as completed and done has returned every match up to its limit. */
  lemma CompletedIsLossless(steps: seq<Step>, q: Search)
    requires q.maxResults > 0
    requires SawDone(Run(steps, q).results)
    requires Run(steps, q).runState.Completed?
    ensures Items(Run(steps, q).results)
         == q.candidates[..if |q.candidates| < q.maxResults then |q.candidates| else q.maxResults]
  {
    RunKeepsInv(steps, q);
  }

  // ---------- Searches that nobody cancels ----------

  predicate Uncancelled(steps: seq<Step>) {
    CancelStore !in steps && CancelCas !in steps
  }

  /** Nobody has asked for an end, so the producer is on its way to completing. */
  ghost predicate OnItsWay(s: State) {
    && !s.cancelled && s.casPending == 0 && !s.runState.Cancelled?
    && !s.producer.StoreCancelled? && !s.producer.CasCancelled? && !s.producer.ReleaseRefused?
  }

  lemma {:induction false} UncancelledIsOnItsWay(steps: seq<Step>, q: Search)
    requires Uncancelled(steps)
    ensures OnItsWay(Run(steps, q))
  {
    if steps != [] {
      UncancelledIsOnItsWay(steps[..|steps| - 1], q);
    }
  }

  /** A search is over when its producer is gone; if nobody cancelled it, it is completed. */
  lemma ExitedIsOver(steps: seq<Step>, q: Search)
    requires q.maxResults > 0 && Run(steps, q).producer.Exited?
    ensures !Run(steps, q).runState.Running?
    ensures Uncancelled(steps) ==> Run(steps, q).runState.Completed?
  {
    RunKeepsInv(steps, q);
    if Uncancelled(steps) {
      UncancelledIsOnItsWay(steps, q);
    }
  }

  /** If nobody cancels a search, a read that reports its end has seen every match up to the limit. */
  lemma UncancelledReadsEverything(steps: seq<Step>, q: Search)
    requires q.maxResults > 0 && Uncancelled(steps) && SawDone(Run(steps, q).results)
    ensures Items(Run(steps, q).results)
         == q.candidates[..if |q.candidates| < q.maxResults then |q.candidates| else q.maxResults]
  {
    RunKeepsInv(steps, q);
    UncancelledIsOnItsWay(steps, q);
    ExitedIsOver(steps, q);
    CompletedIsLossless(steps, q);
  }

  // ---------- Searches that are cancelled ----------

  /** A canceller's two operations leave nobody between them that was not, and the search over. */
  lemma CancellationEnds(s: State, q: Search)
    ensures var t := Next(Next(s, CancelStore, q), CancelCas, q);
            t == s.(cancelled := true, runState := if s.runState.Running? then Cancelled else s.runState)
  {}

  /** Once nobody is between the two operations of a cancellation, a cancelled search is over. */
  lemma CancelledIsOver(steps: seq<Step>, q: Search)
    requires q.maxResults > 0 && Run(steps, q).cancelled
    requires Run(steps, q).casPending == 0 && !Run(steps, q).producer.CasCancelled?
    ensures !Run(steps, q).runState.Running?
  {
    RunKeepsInv(steps, q);
  }

  /** The search is cancelled, and its producer has not passed its last look at the flag. */
  predicate Doomed(s: State) {
    s.cancelled && !s.producer.CasCompleted? && !s.runState.Completed?
  }

  lemma StepKeepsDoomed(s: State, step: Step, q: Search)
    requires Doomed(s)
    ensures Doomed(Next(s, step, q))
  {}

  /** Such a search never reads as completed. */
  lemma {:induction false} CancelledNeverCompletes(steps: seq<Step>, more: seq<Step>, q: Search)
    requires Doomed(Run(steps, q))
    ensures Doomed(Run(steps + more, q)) && !Run(steps + more, q).runState.Completed?
    decreases |more|
  {
    if more == [] {
      assert steps + more == steps;
    } else {
      CancelledNeverCompletes(steps, more[..|more| - 1], q);
      RunOneMore(steps, more, q);
      StepKeepsDoomed(Run(steps + more[..|more| - 1], q), more[|more| - 1], q);
    }
  }

  // ---------- One operation at a time ----------

  /** While a reader holds the gate the other threads can only end the search; they cannot
      touch the queue or its counter. */
  lemma OthersRespectGate(s: State, step: Step, q: Search)
    requires Inv(s, q) && s.gate.HeldByReader? && !step.Read?
    ensures var t := Next(s, step, q);
            && t.gate == s.gate && t.channel == s.channel && t.queued == s.queued && t.results == s.results
            && (s.cancelled ==> t.cancelled)
            && (!s.runState.Running? ==> t.runState == s.runState)
  {}

  /** A read of at most `max` items takes the head of the queue.  It reports the end only when
      the queue ran dry first and the search is over, and always when it was over before. */
  predicate ReadsHead(queue: seq<Item>, wasRunning: bool, max: nat, items: seq<Item>, done: bool,
                      left: seq<Item>, running: bool)
  {
    && items + left == queue
    && |items| == (if max < |queue| then max else |queue|)
    && (done ==> |queue| < max && !running)
    && (|queue| < max && !wasRunning ==> done)
  }

  /** A reader that found `start` when it entered the gate is still in it. */
  ghost predicate Reading(start: State, max: nat, s: State) {
    && s.gate.HeldByReader?
    && var r, n := s.gate.reader, |s.gate.reader.items|;
    && n <= max && r.items + s.channel == start.channel
    && s.queued == start.queued - n + (if r.CountReceived? then 1 else 0)
    && s.results == start.results
    && (!start.runState.Running? ==> !s.runState.Running?)
    && match r
       case Receive(m, _) => m == max
       case CountReceived(m, _) => m == max
       case LoadState(_, exhausted) => if exhausted then n < max && s.channel == [] else n == max
       case Leave(_, done) =>
         && (n == max || s.channel == [])
         && (done ==> n < max && !s.runState.Running?)
         && (n < max && !start.runState.Running? ==> done)
  }

  ghost predicate HasRead(start: State, max: nat, s: State) {
    && |s.results| == |start.results| + 1 && start.results <= s.results
    && var r := s.results[|start.results|];
    && ReadsHead(start.channel, start.runState.Running?, max, r.items, r.done, s.channel, s.runState.Running?)
    && s.queued == start.queued - |r.items|
  }

  lemma ReaderGoesOn(start: State, max: nat, s: State)
    requires Reading(start, max, s)
    ensures var t := NextReader(s); if s.gate.reader.Leave? then HasRead(start, max, t) else Reading(start, max, t)
  {
    if s.gate.reader.Receive? && |s.gate.reader.items| < max && s.channel != [] {
      assert s.gate.reader.items + [s.channel[0]] + s.channel[1..] == s.gate.reader.items + s.channel;
    }
  }

  lemma ReadingGoesOn(start: State, max: nat, s: State, step: Step, q: Search)
    requires Inv(s, q) && Reading(start, max, s)
    ensures var t := Next(s, step, q);
            if t.gate.HeldByReader? then Reading(start, max, t) else t.gate.Free? && HasRead(start, max, t)
  {
    if step.Read? {
      ReaderGoesOn(start, max, s);
    } else {
      OthersRespectGate(s, step, q);
    }
  }

  /** A reader holds the gate after `steps` and until the last of `more`. */
  ghost predicate GateHeld(steps: seq<Step>, more: seq<Step>, q: Search)
    decreases |more|
  {
    more == [] || (GateHeld(steps, more[..|more| - 1], q) && Run(steps + more[..|more| - 1], q).gate.HeldByReader?)
  }

  lemma RunOneMore(steps: seq<Step>, more: seq<Step>, q: Search)
    requires more != []
    ensures Run(steps + more, q) == Next(Run(steps + more[..|more| - 1], q), more[|more| - 1], q)
  {
    assert steps + more == steps + more[..|more| - 1] + [more[|more| - 1]];
    RunStep(steps + more[..|more| - 1], more[|more| - 1], q);
  }

  lemma {:induction false} ReadingLasts(start: State, max: nat, steps: seq<Step>, more: seq<Step>, q: Search)
    requires q.maxResults > 0 && Reading(start, max, Run(steps, q)) && GateHeld(steps, more, q)
    ensures var t := Run(steps + more, q);
            if t.gate.HeldByReader? then Reading(start, max, t) else HasRead(start, max, t)
    decreases |more|
  {
    if more == [] {
      assert steps + more == steps;
    } else {
      var front := more[..|more| - 1];
      ReadingLasts(start, max, steps, front, q);
      RunOneMore(steps, more, q);
      RunKeepsInv(steps + front, q);
      ReadingGoesOn(start, max, Run(steps + front, q), more[|more| - 1], q);
    }
  }

  /** Reads are atomic: whatever other threads do between the entry of a reader into the gate and
      its return, it takes the head of the queue it found when it entered. */
  lemma ReadTakesTheHead(steps: seq<Step>, max: nat, more: seq<Step>, q: Search)
    requires q.maxResults > 0 && Run(steps, q).gate.Free? && GateHeld(steps + [EnterRead(max)], more, q)
    requires !Run(steps + [EnterRead(max)] + more, q).gate.HeldByReader?
    ensures HasRead(Run(steps, q), max, Run(steps + [EnterRead(max)] + more, q))
  {
    RunStep(steps, EnterRead(max), q);
    ReadingLasts(Run(steps, q), max, steps + [EnterRead(max)], more, q);
  }

  /** A read of a search whose producer is gone reports the end whenever it asks for more than
      there is, and returns what there is. */
  lemma ReadAfterExitIsDone(steps: seq<Step>, max: nat, more: seq<Step>, q: Search)
    requires q.maxResults > 0 && Run(steps, q).gate.Free? && GateHeld(steps + [EnterRead(max)], more, q)
    requires !Run(steps + [EnterRead(max)] + more, q).gate.HeldByReader?
    requires Run(steps, q).producer.Exited? && max > |Run(steps, q).channel|
    ensures Run(steps + [EnterRead(max)] + more, q).results
         == Run(steps, q).results + [ReadResult(Run(steps, q).channel, true)]
  {
    ReadTakesTheHead(steps, max, more, q);
    ExitedIsOver(steps, q);
    var s, t := Run(steps, q), Run(steps + [EnterRead(max)] + more, q);
    var r := t.results[|s.results|];
    assert t.channel == [] && r.items == r.items + t.channel == s.channel;
    assert t.results == s.results + [r] && r == ReadResult(s.channel, true);
  }

  datatype Sending = Sent | Full | Refused

  /** A turn of the sending loop during which readers took `taken` items: the item is queued if
      there is room, unless the search is cancelled. */
  predicate SendsTail(queue: seq<Item>, wasCancelled: bool, item: Item, capacity: nat, r: Sending, taken: nat,
                      left: seq<Item>, cancelled: bool)
  {
    && taken <= |queue|
    && left == queue[taken..] + (if r == Sent then [item] else [])
    && (wasCancelled ==> r == Refused) && (r == Refused ==> cancelled)
    && (r != Refused ==> (r == Full <==> |queue| - taken >= capacity))
  }

  ghost predicate HasSent(start: State, s: State, q: Search) {
    |start.sent| < |q.candidates| && s.sent == start.sent + [q.candidates[|start.sent|]] && s.channel != []
  }

  /** The producer began a turn of the loop at `start` and is still in it. */
  ghost predicate InTurn(start: State, s: State, q: Search) {
    && start.received <= s.received
    && (start.cancelled ==> s.cancelled && s.producer.OuterCheck?)
    && match s.producer
       case OuterCheck => s.sent == start.sent
       case WaitGate => s.sent == start.sent
       case InnerCheck => s.sent == start.sent
       case TrySend => s.sent == start.sent
       case ReleaseFull => s.sent == start.sent && |s.channel| >= q.capacity
       case ReleaseRefused => s.sent == start.sent && s.cancelled
       case CountSent => HasSent(start, s, q)
       case ReleaseSent => HasSent(start, s, q)
       case _ => false
  }

  /** How the turn ends with this step, if it does. */
  function EndsTurn(s: State, step: Step): Option<Sending> {
    if !step.Produce? then None
    else
      match s.producer
      case OuterCheck => if s.cancelled then Some(Refused) else None
      case ReleaseRefused => Some(Refused)
      case ReleaseFull => Some(Full)
      case ReleaseSent => Some(Sent)
      case _ => None
  }

  lemma TurnGoesOn(start: State, s: State, step: Step, q: Search)
    requires Inv(s, q) && InTurn(start, s, q) && EndsTurn(s, step).None?
    ensures InTurn(start, Next(s, step, q), q)
  {}

  lemma RestOfQueue(received: seq<Item>, channel: seq<Item>, later: seq<Item>, left: seq<Item>)
    requires received + channel == later + left && received <= later
    ensures |later| - |received| <= |channel| && left == channel[|later| - |received|..]
  {
    var taken := |later| - |received|;
    assert forall i | 0 <= i < |left| :: left[i] == (later + left)[|later| + i] == channel[taken + i];
  }

  lemma AllButLast(received: seq<Item>, channel: seq<Item>, sent: seq<Item>, item: Item)
    requires received + channel == sent + [item] && channel != []
    ensures channel == channel[..|channel| - 1] + [item] && received + channel[..|channel| - 1] == sent
  {
    assert (received + channel)[|received| + |channel| - 1] == item;
    assert (received + channel)[..|sent|] == sent;
  }

  lemma SentBehindTheRest(start: State, s: State, q: Search)
    requires Conserved(start, q) && Conserved(s, q) && start.received <= s.received && HasSent(start, s, q)
    ensures var taken := |s.received| - |start.received|;
            && taken <= |start.channel| && |start.channel| - taken < q.capacity
            && s.channel == start.channel[taken..] + [q.candidates[|start.sent|]]
  {
    var front := s.channel[..|s.channel| - 1];
    AllButLast(s.received, s.channel, start.sent, q.candidates[|start.sent|]);
    RestOfQueue(start.received, start.channel, s.received, front);
    assert |s.channel| == |front| + 1;
  }

  /** A turn that began at `start` has ended so at `t`: it was about the first match not yet sent. */
  ghost predicate HasTurned(start: State, t: State, r: Sending, q: Search) {
    && |start.sent| < |q.candidates| && |start.received| <= |t.received|
    && SendsTail(start.channel, start.cancelled, q.candidates[|start.sent|], q.capacity, r,
                 |t.received| - |start.received|, t.channel, t.cancelled)
  }

  lemma EndsSent(start: State, s: State, q: Search)
    requires Conserved(start, q) && Conserved(s, q) && s.producer.ReleaseSent? && InTurn(start, s, q)
    ensures HasTurned(start, s, Sent, q)
  {
    SentBehindTheRest(start, s, q);
  }

  lemma EndsUnsent(start: State, s: State, r: Sending, q: Search)
    requires Conserved(start, q) && Conserved(s, q) && s.sent == start.sent && start.received <= s.received
    requires |start.sent| < |q.candidates|
    requires if r == Full then |s.channel| >= q.capacity && !start.cancelled else r == Refused && s.cancelled
    ensures HasTurned(start, s, r, q)
  {
    RestOfQueue(start.received, start.channel, s.received, s.channel);
    assert s.channel + [] == s.channel;
  }

  lemma TurnEnds(start: State, s: State, step: Step, q: Search)
    requires Conserved(start, q) && Progress(start, q) && start.producer.OuterCheck?
    requires Conserved(s, q) && InTurn(start, s, q) && EndsTurn(s, step).Some?
    ensures HasTurned(start, s, EndsTurn(s, step).value, q)
  {
    match EndsTurn(s, step).value {
      case Sent => EndsSent(start, s, q);
      case Full => EndsUnsent(start, s, Full, q);
      case Refused => EndsUnsent(start, s, Refused, q);
    }
  }

  /** After its turn the producer goes on to the next match, tries again, or gives up. */
  predicate GoesOn(t: State, r: Sending, q: Search) {
    match r
    case Sent => if |t.sent| >= q.maxResults then t.producer.CheckFinish? else t.producer.Visit?
    case Full => t.producer.OuterCheck?
    case Refused => t.producer.StoreCancelled?
  }

  /** The step with which a turn ends only moves the producer and releases the gate. */
  lemma LastStepOfTurn(start: State, s: State, step: Step, q: Search)
    requires EndsTurn(s, step).Some? && HasTurned(start, s, EndsTurn(s, step).value, q)
    ensures HasTurned(start, Next(s, step, q), EndsTurn(s, step).value, q)
    ensures GoesOn(Next(s, step, q), EndsTurn(s, step).value, q)
  {
    var t := Next(s, step, q);
    assert t.channel == s.channel && t.received == s.received && t.cancelled == s.cancelled;
  }

  /** The turn of the sending loop that the producer is in after `steps` goes on throughout `more`. */
  predicate SameTurn(steps: seq<Step>, more: seq<Step>, q: Search)
    decreases |more|
  {
    more == []
    || (SameTurn(steps, more[..|more| - 1], q)
        && EndsTurn(Run(steps + more[..|more| - 1], q), more[|more| - 1]).None?)
  }

  lemma {:induction false} TurnLasts(steps: seq<Step>, more: seq<Step>, q: Search)
    requires q.maxResults > 0 && Run(steps, q).producer.OuterCheck? && SameTurn(steps, more, q)
    ensures InTurn(Run(steps, q), Run(steps + more, q), q)
    decreases |more|
  {
    if more == [] {
      assert steps + more == steps;
    } else {
      var front := more[..|more| - 1];
      TurnLasts(steps, front, q);
      RunOneMore(steps, more, q);
      RunKeepsInv(steps + front, q);
      TurnGoesOn(Run(steps, q), Run(steps + front, q), more[|more| - 1], q);
    }
  }

  /** Sends are atomic: whatever readers and cancellers do during a turn of the sending loop, the
      match is queued behind what they left of the queue the turn began with, or not at all. */
  lemma SendAddsAtTheTail(steps: seq<Step>, more: seq<Step>, step: Step, q: Search)
    requires q.maxResults > 0 && Run(steps, q).producer.OuterCheck? && SameTurn(steps, more, q)
    requires EndsTurn(Run(steps + more, q), step).Some?
    ensures HasTurned(Run(steps, q), Run(steps + more + [step], q), EndsTurn(Run(steps + more, q), step).value, q)
    ensures GoesOn(Run(steps + more + [step], q), EndsTurn(Run(steps + more, q), step).value, q)
  {
    RunKeepsInv(steps, q);
    TurnLasts(steps, more, q);
    RunKeepsInv(steps + more, q);
    TurnEnds(Run(steps, q), Run(steps + more, q), step, q);
    LastStepOfTurn(Run(steps, q), Run(steps + more, q), step, q);
    RunStep(steps + more, step, q);
  }

  class SearchSession {
    const queueCapacity: nat
    var queue: seq<Item>
    var queued: nat
    var state: RunState
    var cancelled: bool

    ghost predicate Valid()
      reads this
    {
      queued == |queue| <= queueCapacity && (state.Cancelled? ==> cancelled)
    }

    constructor (queueCapacity: nat)
      ensures Valid() && queue == [] && state == Running && !cancelled
      ensures this.queueCapacity == queueCapacity
    {
      this.queueCapacity := queueCapacity;
      queue, queued, state, cancelled := [], 0, Running, false;
    }

    /** What other threads may do at any moment to a thread that holds the gate. */
    method Interfere()
      modifies this`state, this`cancelled
      ensures old(cancelled) ==> cancelled
      ensures !old(state).Running? ==> state == old(state)
      ensures (old(state).Cancelled? ==> old(cancelled)) ==> (state.Cancelled? ==> cancelled)
    {
      var cancel, complete: bool := *, *;
      if cancel {
        cancelled := true;
        var exchanged: bool := *;
        if exchanged && state == Running {
          state := Cancelled;
        }
      }
      if complete && state == Running {
        state := Completed;
      }
    }

    method MarkCompleted()
      requires Valid()
      modifies this`state
      ensures Valid() && state == if old(state).Running? then Completed else old(state)
    {
      if state == Running {
        state := Completed;
      }
    }

    method Cancel()
      requires Valid()
      modifies this`state, this`cancelled
      ensures Valid() && cancelled && !state.Running?
      ensures !old(state).Running? ==> state == old(state)
    {
      cancelled := true;
      Interfere();
      if state == Running {
        state := Cancelled;
      }
    }

    /** What readers may do to a producer that does not hold the gate yet. */
    method InterfereUngated() returns (taken: nat)
      requires Valid()
      modifies this
      ensures Valid() && taken <= |old(queue)| && queue == old(queue)[taken..]
      ensures old(cancelled) ==> cancelled
    {
      taken :| 0 <= taken <= |queue|;
      queue := queue[taken..];
      queued := queued - taken;
      Interfere();
    }

    /** One turn of the retry loop in `send_bounded`; `Full` means the caller sleeps and tries
        again.  Readers took `taken` items before the gate was entered. */
    method SendOnce(item: Item) returns (r: Sending, taken: nat)
      requires Valid()
      modifies this
      ensures Valid() && (old(cancelled) ==> queue == old(queue))
      ensures SendsTail(old(queue), old(cancelled), item, queueCapacity, r, taken, queue, cancelled)
    {
      if cancelled {
        return Refused, 0;
      }
      taken := InterfereUngated();
      if cancelled {
        return Refused, taken;
      }
      Interfere();
      if |queue| >= queueCapacity {
        return Full, taken;
      }
      queue := queue + [item];
      Interfere();
      queued := queued + 1;
      return Sent, taken;
    }

    method ReadUnseen(maxItems: nat) returns (items: seq<Item>, done: bool)
      requires Valid()
      modifies this
      ensures Valid()
      ensures ReadsHead(old(queue), old(state).Running?, maxItems, items, done, queue, state.Running?)
      ensures done <==> !state.Running? && |old(queue)| < maxItems
    {
      items := [];
      var exhausted := false;
      var i := 0;
      while i < maxItems && !exhausted
        invariant 0 <= i <= maxItems && Valid()
        invariant items + queue == old(queue)
        invariant |items| == if exhausted then i - 1 else i
        invariant exhausted ==> queue == []
        invariant !old(state).Running? ==> !state.Running?
        decreases maxItems - i
      {
        if queue == [] {
          exhausted := true;
        } else {
          items, queue := items + [queue[0]], queue[1..];
          queued := queued - 1;
        }
        Interfere();
        i := i + 1;
      }
      Interfere();
      done := state != Running && exhausted;
    }
  }
}
