/** The verified-action engine: browser/bridge/src/action.ts.

    The page, the ownership authorizer and the driver are an adversary: turn `i` of `turns` says
    what they answer while the i-th action is attempted, and nothing is assumed of it.
 */
module VerifiedAction {
  import opened Wrappers
  import opened Semantic

  datatype Revision = NoRevision | Text(text: string) | Number(number: real)

  datatype ObservedState = ObservedState(
    url: string,
    semanticRevision: int,
    resourceRevision: Revision,
    nodes: seq<BackendNode>,
    validationMessages: seq<string>,
    toasts: seq<string>)

  datatype Change = Click | Fill(value: string) | Select(value: string) | Check(checked: bool)

  datatype SemanticAction = Navigate(url: string) | On(target: Reference, change: Change)

  datatype ResolvedAction = Goto(url: string) | Perform(backendId: string, change: Change)

  datatype Expectation =
    | Url(equals: string)
    | Value(target: Reference, value: string)
    | ValidationAbsent
    | ValidationPresent
    | Toast(includes: string)
    | TextPresent(includes: string, present: Option<bool>)
    | Enabled(target: Reference, enabled: bool)
    | ResourceRevisionChanged(from: Revision)

  /** What was thrown: a stale reference, an error with a code, or something else. */
  datatype Thrown = Stale(reference: StaleReference) | Coded(code: string) | Other

  datatype State = Verified | ExecutedUnverified | PreconditionFailed | Conflict | Failed

  datatype ActionResult = ActionResult(
    state: State,
    beforeRevision: int,
    afterRevision: int,
    resourceRevision: Revision,
    validationMessages: seq<string>,
    toasts: seq<string>,
    error: Option<string>)

  /** The adversary's answers to one action. */
  datatype Turn = Turn(
    deniesNavigate: Option<Thrown>,
    deniesAct: Option<Thrown>,
    performThrows: Option<Thrown>,
    settles: Result<ObservedState, Thrown>)

  // ---------- Resolving an action ----------

  function Resolve(action: SemanticAction, nodes: seq<BackendNode>): Result<ResolvedAction, Thrown> {
    match action
    case Navigate(url) => Ok(Goto(url))
    case On(target, change) =>
      var found := Reacquire(target, nodes);
      if found.Err? then Err(Stale(found.error)) else Ok(Perform(found.value.backendId, change))
  }

  /** A resolved action does what was asked, to the one visible node its reference matches. */
  lemma ResolvedActsOnUniqueMatch(action: SemanticAction, nodes: seq<BackendNode>)
    requires action.On?
    ensures Resolve(action, nodes).Ok? <==> exists i: nat :: OnlyMatch(action.target, nodes, i)
    ensures forall i: nat | OnlyMatch(action.target, nodes, i) ::
              Resolve(action, nodes) == Ok(Perform(nodes[i].backendId, action.change))
  {
    forall i: nat | OnlyMatch(action.target, nodes, i)
      ensures Resolve(action, nodes) == Ok(Perform(nodes[i].backendId, action.change))
    {
      OnlyMatchIsTheOne(action.target, nodes, i);
    }
    if Resolve(action, nodes).Ok? {
      var i := OneMatchIsOnly(action.target, nodes);
    }
  }

  // ---------- Expectations ----------

  predicate Includes(s: string, part: string) {
    exists i | 0 <= i <= |s| :: part <= s[i..]
  }

  predicate Mentions(node: BackendNode, part: string) {
    || Includes(node.name, part)
    || (node.value.Some? && Includes(node.value.value, part))
    || (node.description.Some? && Includes(node.description.value, part))
  }

  function Satisfied(expectation: Expectation, observed: ObservedState): Result<bool, Thrown> {
    match expectation
    case Url(equals) => Ok(observed.url == equals)
    case Value(target, value) =>
      var found := Reacquire(target, observed.nodes);
      if found.Err? then Err(Stale(found.error)) else Ok(found.value.value == Some(value))
    case ValidationAbsent => Ok(observed.validationMessages == [])
    case ValidationPresent => Ok(observed.validationMessages != [])
    case Toast(part) => Ok(exists toast | toast in observed.toasts :: Includes(toast, part))
    case TextPresent(part, present) =>
      var found := exists node | node in observed.nodes :: Mentions(node, part);
      Ok(found == (present.None? || present.value))
    case Enabled(target, enabled) =>
      var found := Reacquire(target, observed.nodes);
      if found.Err? then Err(Stale(found.error))
      else Ok((found.value.disabled != Some(true)) == enabled)
    case ResourceRevisionChanged(from) => Ok(observed.resourceRevision != from)
  }

  /** The text occurs in the string. */
  ghost predicate Within(text: string, s: string) {
    exists before, after :: s == before + text + after
  }

  lemma WithinIsIncluded(text: string, s: string)
    ensures Within(text, s) <==> Includes(s, text)
  {
    if Within(text, s) {
      var before, after :| s == before + text + after;
      assert s[|before|..] == text + after;
    }
    if Includes(s, text) {
      var i :| 0 <= i <= |s| && text <= s[i..];
      assert s == s[..i] + text + s[i + |text|..];
    }
  }

  ghost predicate Tells(node: BackendNode, text: string) {
    || Within(text, node.name)
    || (node.value.Some? && Within(text, node.value.value))
    || (node.description.Some? && Within(text, node.description.value))
  }

  /** The state of the page is as expected; a target must be the only node its reference matches. */
  ghost predicate Met(e: Expectation, s: ObservedState) {
    match e
    case Url(url) => s.url == url
    case ResourceRevisionChanged(from) => s.resourceRevision != from
    case Value(target, value) => exists i: nat :: OnlyMatch(target, s.nodes, i) && s.nodes[i].value == Some(value)
    case Enabled(target, enabled) =>
      exists i: nat :: OnlyMatch(target, s.nodes, i) && (s.nodes[i].disabled == Some(true) <==> !enabled)
    case Toast(text) => exists toast :: toast in s.toasts && Within(text, toast)
    case TextPresent(text, present) =>
      (exists node :: node in s.nodes && Tells(node, text)) <==> present != Some(false)
    case ValidationAbsent => |s.validationMessages| == 0
    case ValidationPresent => |s.validationMessages| > 0
  }

  lemma TargetMeans(target: Reference, nodes: seq<BackendNode>)
    ensures Reacquire(target, nodes).Ok? <==> exists i: nat :: OnlyMatch(target, nodes, i)
    ensures forall i: nat | OnlyMatch(target, nodes, i) :: Reacquire(target, nodes) == Ok(nodes[i])
  {
    forall i: nat | OnlyMatch(target, nodes, i) ensures Reacquire(target, nodes) == Ok(nodes[i]) {
      OnlyMatchIsTheOne(target, nodes, i);
    }
    if Reacquire(target, nodes).Ok? {
      var i := OneMatchIsOnly(target, nodes);
    }
  }

  lemma TellsIsMentions(node: BackendNode, text: string)
    ensures Tells(node, text) <==> Mentions(node, text)
  {
    WithinIsIncluded(text, node.name);
    if node.value.Some? {
      WithinIsIncluded(text, node.value.value);
    }
    if node.description.Some? {
      WithinIsIncluded(text, node.description.value);
    }
  }

  lemma SatisfiedMeansMet(e: Expectation, s: ObservedState)
    ensures Satisfied(e, s) == Ok(true) <==> Met(e, s)
    ensures Satisfied(e, s).Err? <==> (e.Value? || e.Enabled?) && !exists i: nat :: OnlyMatch(e.target, s.nodes, i)
  {
    match e {
      case Value(target, _) => TargetMeans(target, s.nodes);
      case Enabled(target, _) => TargetMeans(target, s.nodes);
      case Toast(text) =>
        forall toast ensures Within(text, toast) <==> Includes(toast, text) {
          WithinIsIncluded(text, toast);
        }
      case TextPresent(text, _) =>
        forall node ensures Tells(node, text) <==> Mentions(node, text) {
          TellsIsMentions(node, text);
        }
      case _ =>
    }
  }

  /** In order; the first that is not satisfied, or throws, decides. */
  function Evaluate(expectations: seq<Expectation>, observed: ObservedState): Result<bool, Thrown> {
    if expectations == [] then Ok(true)
    else
      var first := Satisfied(expectations[0], observed);
      if first == Ok(true) then Evaluate(expectations[1..], observed) else first
  }

  ghost predicate Hold(expectations: seq<Expectation>, s: ObservedState) {
    forall e | e in expectations :: Met(e, s)
  }

  /** The expectation is about no node, or about one that its reference finds. */
  ghost predicate Decidable(e: Expectation, s: ObservedState) {
    e.Value? || e.Enabled? ==> exists i: nat :: OnlyMatch(e.target, s.nodes, i)
  }

  ghost predicate FirstUnmet(expectations: seq<Expectation>, s: ObservedState, k: nat) {
    k < |expectations| && Hold(expectations[..k], s) && !Met(expectations[k], s)
  }

  /** The first expectation that is not met is decidably not met. */
  ghost predicate Refuted(expectations: seq<Expectation>, s: ObservedState) {
    exists k: nat :: FirstUnmet(expectations, s, k) && Decidable(expectations[k], s)
  }

  /** The first expectation that is not met is about a node that cannot be told. */
  ghost predicate Undecided(expectations: seq<Expectation>, s: ObservedState) {
    exists k: nat :: FirstUnmet(expectations, s, k) && !Decidable(expectations[k], s)
  }

  lemma UnmetBefore(expectations: seq<Expectation>, s: ObservedState, j: nat, k: nat)
    requires FirstUnmet(expectations, s, j) && j < k <= |expectations|
    ensures !Hold(expectations[..k], s)
  {
    assert expectations[..k][j] == expectations[j];
  }

  lemma FirstUnmetIsUnique(expectations: seq<Expectation>, s: ObservedState, k: nat)
    requires FirstUnmet(expectations, s, k)
    ensures forall j: nat | FirstUnmet(expectations, s, j) :: j == k
    ensures !Hold(expectations, s)
  {
    forall j: nat | FirstUnmet(expectations, s, j) ensures j == k {
      if j < k {
        UnmetBefore(expectations, s, j, k);
      } else if k < j {
        UnmetBefore(expectations, s, k, j);
      }
    }
    assert expectations[k] in expectations;
  }

  lemma FirstUnmetDecides(expectations: seq<Expectation>, s: ObservedState, k: nat)
    requires FirstUnmet(expectations, s, k)
    ensures !Hold(expectations, s)
    ensures Refuted(expectations, s) <==> Decidable(expectations[k], s)
    ensures Undecided(expectations, s) <==> !Decidable(expectations[k], s)
  {
    FirstUnmetIsUnique(expectations, s, k);
  }

  lemma NothingUnmet(expectations: seq<Expectation>, s: ObservedState)
    requires Hold(expectations, s)
    ensures !Refuted(expectations, s) && !Undecided(expectations, s)
  {
    forall j: nat ensures !FirstUnmet(expectations, s, j) {
      assert j < |expectations| ==> expectations[j] in expectations;
    }
  }

  lemma FirstUnmetInTail(expectations: seq<Expectation>, s: ObservedState, k: nat)
    requires expectations != [] && Met(expectations[0], s) && FirstUnmet(expectations[1..], s, k)
    ensures FirstUnmet(expectations, s, k + 1)
  {
    assert expectations[..k + 1] == [expectations[0]] + expectations[1..][..k];
  }

  lemma {:induction false} EvaluateDecides(expectations: seq<Expectation>, s: ObservedState) returns (k: nat)
    ensures Evaluate(expectations, s) == Ok(true) ==> Hold(expectations, s)
    ensures Evaluate(expectations, s) != Ok(true) ==>
      && FirstUnmet(expectations, s, k)
      && (Evaluate(expectations, s) == Ok(false) <==> Decidable(expectations[k], s))
    ensures Evaluate(expectations, s).Err? ==> Evaluate(expectations, s).error.Stale?
  {
    k := 0;
    if expectations != [] {
      SatisfiedMeansMet(expectations[0], s);
      if Met(expectations[0], s) {
        k := EvaluateDecides(expectations[1..], s);
        assert forall e :: e in expectations <==> e == expectations[0] || e in expectations[1..];
        if Evaluate(expectations[1..], s) != Ok(true) {
          FirstUnmetInTail(expectations, s, k);
          k := k + 1;
        }
      } else {
        assert expectations[..0] == [];
      }
    }
  }

  lemma OutcomeMeans(expectations: seq<Expectation>, s: ObservedState, outcome: Result<bool, Thrown>, k: nat)
    requires outcome == Ok(true) ==> Hold(expectations, s)
    requires outcome != Ok(true) ==>
      FirstUnmet(expectations, s, k) && (outcome == Ok(false) <==> Decidable(expectations[k], s))
    ensures outcome == Ok(true) <==> Hold(expectations, s)
    ensures outcome == Ok(false) <==> Refuted(expectations, s)
    ensures outcome.Err? <==> Undecided(expectations, s)
  {
    assert outcome.Ok? ==> outcome == Ok(if outcome.value then true else false);
    if outcome == Ok(true) {
      NothingUnmet(expectations, s);
    } else {
      FirstUnmetDecides(expectations, s, k);
    }
  }

  /** Evaluation succeeds exactly when every expectation is met; otherwise the first that is not
      decides whether it fails or throws. */
  lemma EvaluateMeaning(expectations: seq<Expectation>, s: ObservedState)
    ensures Evaluate(expectations, s) == Ok(true) <==> Hold(expectations, s)
    ensures Evaluate(expectations, s) == Ok(false) <==> Refuted(expectations, s)
    ensures Evaluate(expectations, s).Err? <==> Undecided(expectations, s)
    ensures Evaluate(expectations, s).Err? ==> Evaluate(expectations, s).error.Stale?
  {
    var k := EvaluateDecides(expectations, s);
    OutcomeMeans(expectations, s, Evaluate(expectations, s), k);
  }

  // ---------- Executing ----------

  /** The last observation when the i-th action is attempted. */
  ghost function StateBefore(first: ObservedState, turns: nat -> Turn, i: nat): (s: ObservedState)
    ensures i == 0 ==> s == first
    ensures i > 0 && turns(i - 1).settles.Ok? ==> turns(i - 1).settles == Ok(s)
  {
    if i == 0 || turns(i - 1).settles.Err? then first else turns(i - 1).settles.value
  }

  function Denial(action: SemanticAction, turn: Turn): Option<Thrown> {
    if action.Navigate? then turn.deniesNavigate else turn.deniesAct
  }

  /** One attempt: what was last seen, and what the driver was told to do. */
  datatype Attempt = Attempt(seen: ObservedState, resolved: ResolvedAction)

  predicate Allowed(action: SemanticAction, turn: Turn) {
    match action
    case Navigate(_) => turn.deniesNavigate == None
    case On(_, _) => turn.deniesAct == None
  }

  /** The driver is told to go where the action says, or to do what it says to the one visible node
      that its reference matches. */
  ghost predicate Does(action: SemanticAction, seen: ObservedState, resolved: ResolvedAction) {
    match action
    case Navigate(url) => resolved == Goto(url)
    case On(target, change) =>
      exists k: nat :: OnlyMatch(target, seen.nodes, k) && resolved == Perform(seen.nodes[k].backendId, change)
  }

  ghost predicate Feasible(action: SemanticAction, seen: ObservedState) {
    action.On? ==> exists k: nat :: OnlyMatch(action.target, seen.nodes, k)
  }

  /** Resolving an action finds what it is to do, exactly if that can be told. */
  lemma ResolvedIsWhatToDo(action: SemanticAction, seen: ObservedState)
    ensures Resolve(action, seen.nodes).Ok? <==> Feasible(action, seen)
    ensures Resolve(action, seen.nodes).Ok? ==> Does(action, seen, Resolve(action, seen.nodes).value)
    ensures Resolve(action, seen.nodes).Err? ==> Resolve(action, seen.nodes).error.Stale?
  {
    if action.On? {
      ResolvedActsOnUniqueMatch(action, seen.nodes);
    }
  }

  /** The i-th attempt follows an authorization and does the i-th action to what was observed last. */
  ghost predicate Justified(log: seq<Attempt>, actions: seq<SemanticAction>, turns: nat -> Turn, first: ObservedState,
                            i: nat)
    requires i < |log| <= |actions|
  {
    && Allowed(actions[i], turns(i))
    && (if i == 0 then log[i].seen == first else turns(i - 1).settles == Ok(log[i].seen))
    && Does(actions[i], log[i].seen, log[i].resolved)
  }

  /** The i-th action was authorized, resolved, performed and followed by a new observation. */
  ghost predicate Completes(actions: seq<SemanticAction>, turns: nat -> Turn, first: ObservedState, i: nat)
    requires i < |actions|
  {
    && Allowed(actions[i], turns(i)) && Feasible(actions[i], StateBefore(first, turns, i))
    && turns(i).performThrows.None? && turns(i).settles.Ok?
  }

  /** What is thrown is the first thing that went wrong with the i-th action. */
  ghost predicate Stopped(actions: seq<SemanticAction>, turns: nat -> Turn, first: ObservedState, i: nat,
                          thrown: Thrown)
    requires i < |actions|
  {
    if !Allowed(actions[i], turns(i)) then
      Some(thrown) == if actions[i].Navigate? then turns(i).deniesNavigate else turns(i).deniesAct
    else if !Feasible(actions[i], StateBefore(first, turns, i)) then thrown.Stale?
    else if turns(i).performThrows.Some? then turns(i).performThrows == Some(thrown)
    else turns(i).settles == Err(thrown)
  }

  ghost predicate CompletesUpTo(actions: seq<SemanticAction>, turns: nat -> Turn, first: ObservedState, n: nat) {
    n <= |actions| && forall i: nat | i < n :: Completes(actions, turns, first, i)
  }

  ghost predicate AllJustified(log: seq<Attempt>, actions: seq<SemanticAction>, turns: nat -> Turn,
                               first: ObservedState)
  {
    |log| <= |actions| && forall i: nat | i < |log| :: Justified(log, actions, turns, first, i)
  }

  function CodeOf(thrown: Thrown): string {
    match thrown
    case Stale(_) => "stale_reference"
    case Coded(code) => code
    case Other => "provider_failure"
  }

  function ResultOf(state: State, before: ObservedState, after: ObservedState, error: Option<string>): ActionResult {
    ActionResult(state, before.semanticRevision, after.semanticRevision, after.resourceRevision,
                 after.validationMessages, after.toasts, error)
  }

  /** The result describes this state of the page. */
  predicate Reports(r: ActionResult, before: ObservedState, after: ObservedState) {
    && r.beforeRevision == before.semanticRevision
    && r.afterRevision == after.semanticRevision
    && r.resourceRevision == after.resourceRevision
    && r.validationMessages == after.validationMessages
    && r.toasts == after.toasts
    && (r.error.Some? <==> r.state in {Failed, Conflict, PreconditionFailed})
  }

  /** The error is the thrown one's own code, if it has one. */
  predicate SaysThrown(r: ActionResult, thrown: Thrown) {
    && (thrown.Coded? ==> r.error == Some(thrown.code))
    && (thrown.Stale? ==> r.error == Some("stale_reference"))
    && (thrown.Other? ==> r.error == Some("provider_failure"))
  }

  /** The error is that of the application's own validation, if it complains. */
  predicate SaysUnmet(r: ActionResult, state: ObservedState, otherwise: string) {
    && (|state.validationMessages| > 0 ==> r.error == Some("validation_failed"))
    && (|state.validationMessages| == 0 ==> r.error == Some(otherwise))
  }

  datatype Request = Request(
    actions: seq<SemanticAction>,
    preconditions: Option<seq<Expectation>>,
    expectations: Option<seq<Expectation>>,
    expectedResourceRevision: Option<Revision>,
    timeoutMs: Option<real>)

  predicate TimeoutIsValid(timeoutMs: Option<real>) {
    timeoutMs.None? || timeoutMs.value > 0.0
  }

  ghost predicate RevisionConflict(request: Request, before: ObservedState) {
    exists revision :: request.expectedResourceRevision == Some(revision) && revision != before.resourceRevision
  }

  /** No preconditions are as good as met ones. */
  ghost predicate PreconditionsHold(request: Request, before: ObservedState) {
    forall list | request.preconditions == Some(list) :: Hold(list, before)
  }

  /** The loop of `execute`: up to the first action that does not complete, if any. */
  method PerformAll(actions: seq<SemanticAction>, before: ObservedState, turns: nat -> Turn)
    returns (log: seq<Attempt>, done: nat, current: ObservedState, obstacle: Option<Thrown>)
    ensures AllJustified(log, actions, turns, before)
    ensures CompletesUpTo(actions, turns, before, done)
    ensures done <= |log| <= done + 1
    ensures if done == 0 then current == before else turns(done - 1).settles == Ok(current)
    ensures obstacle.None? <==> done == |actions|
    ensures obstacle.Some? ==>
              && !Completes(actions, turns, before, done)
              && Stopped(actions, turns, before, done, obstacle.value)
  {
    log, done, current, obstacle := [], 0, before, None;
    while done < |actions|
      invariant done <= |actions| && |log| == done
      invariant current == StateBefore(before, turns, done)
      invariant if done == 0 then current == before else turns(done - 1).settles == Ok(current)
      invariant CompletesUpTo(actions, turns, before, done)
      invariant AllJustified(log, actions, turns, before)
    {
      var action, turn := actions[done], turns(done);
      ResolvedIsWhatToDo(action, current);
      var denied := Denial(action, turn);
      if denied.Some? {
        obstacle := denied;
        return;
      }
      var resolved := Resolve(action, current.nodes);
      if resolved.Err? {
        obstacle := Some(resolved.error);
        return;
      }
      ghost var logged := log;
      log := log + [Attempt(current, resolved.value)];
      forall i: nat | i < |log| ensures Justified(log, actions, turns, before, i) {
        assert i < |logged| ==> Justified(logged, actions, turns, before, i);
      }
      if turn.performThrows.Some? {
        obstacle := turn.performThrows;
        return;
      }
      if turn.settles.Err? {
        obstacle := Some(turn.settles.error);
        return;
      }
      current := turn.settles.value;
      done := done + 1;
    }
  }

  /** `execute`. `log` lists the actions the driver was told to perform; `done` of them completed;
      `final` is the last observation. */
  method Execute(request: Request, observed: Result<ObservedState, Thrown>, turns: nat -> Turn)
    returns (r: Result<ActionResult, ()>, log: seq<Attempt>, done: nat, final: Option<ObservedState>)
    ensures r.Err? <==> (exists t :: request.timeoutMs == Some(t) && t <= 0.0) || observed.Err?
    ensures r.Err? ==> log == [] && done == 0 && final == None
    // What is performed is a prefix of what was asked, each action authorized and aimed by the latest observation.
    ensures observed.Ok? ==> AllJustified(log, request.actions, turns, observed.value)
    ensures observed.Ok? ==> CompletesUpTo(request.actions, turns, observed.value, done)
    ensures done <= |log| <= done + 1
    ensures r.Ok? ==> final.Some? && Reports(r.value, observed.value, final.value)
    ensures r.Ok? ==> if done == 0 then final == Some(observed.value) else turns(done - 1).settles == Ok(final.value)
    // Refusals come before any action.
    ensures r.Ok? ==> (r.value.state.Conflict? <==> RevisionConflict(request, observed.value))
    ensures r.Ok? ==> (r.value.state.PreconditionFailed? <==>
                       && !RevisionConflict(request, observed.value)
                       && exists list :: request.preconditions == Some(list) && Refuted(list, observed.value))
    ensures r.Ok? && r.value.state in {Conflict, PreconditionFailed} ==> log == []
    ensures r.Ok? && r.value.state.Conflict? ==> r.value.error == Some("resource_conflict")
    ensures r.Ok? && r.value.state.PreconditionFailed? ==> r.value.error == Some("precondition_failed")
    // Success means that everything was done, and verified in the state reported.
    ensures r.Ok? && r.value.state in {ExecutedUnverified, Verified} ==> done == |log| == |request.actions|
    ensures r.Ok? ==> (r.value.state.ExecutedUnverified? <==>
                       && !RevisionConflict(request, observed.value) && PreconditionsHold(request, observed.value)
                       && CompletesUpTo(request.actions, turns, observed.value, |request.actions|)
                       && request.expectations in {None, Some([])})
    ensures r.Ok? ==> (r.value.state.Verified? <==>
                       && !RevisionConflict(request, observed.value) && PreconditionsHold(request, observed.value)
                       && CompletesUpTo(request.actions, turns, observed.value, |request.actions|)
                       && request.expectations !in {None, Some([])}
                       && Hold(request.expectations.value, final.value))
    // A failure says what stopped it: a precondition that cannot be told, an action, or the expectations.
    ensures r.Ok? && !RevisionConflict(request, observed.value) ==>
              forall list | request.preconditions == Some(list) && Undecided(list, observed.value) ::
                r.value.state == Failed && r.value.error == Some("stale_reference") && log == []
    ensures r.Ok? && r.value.state.Failed? && PreconditionsHold(request, observed.value)
            && done < |request.actions| ==>
              exists thrown ::
                && Stopped(request.actions, turns, observed.value, done, thrown) && SaysThrown(r.value, thrown)
                && !Completes(request.actions, turns, observed.value, done)
    ensures r.Ok? && r.value.state.Failed? && PreconditionsHold(request, observed.value)
            && done == |request.actions| ==>
              && request.expectations.Some?
              && (if Undecided(request.expectations.value, final.value) then r.value.error == Some("stale_reference")
                  else SaysUnmet(r.value, final.value, "verification_failed"))
  {
    log, done, final := [], 0, None;
    if !TimeoutIsValid(request.timeoutMs) || observed.Err? {
      assert !TimeoutIsValid(request.timeoutMs) ==> request.timeoutMs == Some(request.timeoutMs.value);
      r := Err(());
      return;
    }
    var before := observed.value;
    var current := before;
    final := Some(before);

    if request.expectedResourceRevision.Some? && request.expectedResourceRevision.value != before.resourceRevision {
      r := Ok(ResultOf(Conflict, before, before, Some("resource_conflict")));
      return;
    }

    if request.preconditions.Some? {
      EvaluateMeaning(request.preconditions.value, before);
      var satisfied := Evaluate(request.preconditions.value, current);
      if satisfied.Err? {
        r := Ok(ResultOf(Failed, before, current, Some(CodeOf(satisfied.error))));
        return;
      }
      if !satisfied.value {
        r := Ok(ResultOf(PreconditionFailed, before, current, Some("precondition_failed")));
        return;
      }
    }

    var obstacle: Option<Thrown>;
    log, done, current, obstacle := PerformAll(request.actions, before, turns);
    final := Some(current);
    if obstacle.Some? {
      r := Ok(ResultOf(Failed, before, current, Some(CodeOf(obstacle.value))));
      return;
    }

    if request.expectations.None? || request.expectations.value == [] {
      r := Ok(ResultOf(ExecutedUnverified, before, current, None));
      return;
    }
    EvaluateMeaning(request.expectations.value, current);
    var satisfied := Evaluate(request.expectations.value, current);
    if satisfied.Err? {
      r := Ok(ResultOf(Failed, before, current, Some(CodeOf(satisfied.error))));
      return;
    }
    if satisfied.value {
      r := Ok(ResultOf(Verified, before, current, None));
      return;
    }
    if current.validationMessages != [] {
      r := Ok(ResultOf(Failed, before, current, Some("validation_failed")));
    } else {
      r := Ok(ResultOf(Failed, before, current, Some("verification_failed")));
    }
  }

  // ---------- Waiting ----------

  const WAIT_ATTEMPTS: nat := 20

  /** The i-th observation of a wait. */
  ghost function Observation(first: ObservedState, settles: nat -> Result<ObservedState, Thrown>, i: nat)
    : (s: ObservedState)
    ensures i == 0 ==> s == first
    ensures i > 0 && settles(i - 1).Ok? ==> settles(i - 1) == Ok(s)
  {
    if i == 0 || settles(i - 1).Err? then first else settles(i - 1).value
  }

  predicate Unchanged(next: ObservedState, current: ObservedState) {
    && next.semanticRevision == current.semanticRevision
    && next.resourceRevision == current.resourceRevision
    && next.url == current.url
  }

  /** The i-th observation does not meet the expectations, and the next differs in revision, resource or url. */
  ghost predicate Passed(expectations: seq<Expectation>, first: ObservedState,
                   settles: nat -> Result<ObservedState, Thrown>, i: nat)
  {
    && settles(i).Ok?
    && Refuted(expectations, Observation(first, settles, i))
    && !Unchanged(Observation(first, settles, i + 1), Observation(first, settles, i))
  }

  /** The n-th observation is examined: it is among the first 20, and all before it were passed over. */
  ghost predicate Examined(expectations: seq<Expectation>, first: ObservedState,
                           settles: nat -> Result<ObservedState, Thrown>, n: nat)
  {
    n < WAIT_ATTEMPTS && forall i: nat | i < n :: Passed(expectations, first, settles, i)
  }

  ghost predicate LastExamined(expectations: seq<Expectation>, first: ObservedState,
                               settles: nat -> Result<ObservedState, Thrown>, n: nat)
  {
    Examined(expectations, first, settles, n) && (n + 1 == WAIT_ATTEMPTS || !Passed(expectations, first, settles, n))
  }

  /** After its last examined observation `n`, a wait fails on that the next one brings what
      was expected: it reports this next one without examining it, because it was the last of
      the twenty or because it looks unchanged. */
  ghost predicate Missed(expectations: seq<Expectation>, first: ObservedState,
                         settles: nat -> Result<ObservedState, Thrown>, n: nat)
  {
    var seen, next := Observation(first, settles, n), Observation(first, settles, n + 1);
    && LastExamined(expectations, first, settles, n)
    && Refuted(expectations, seen) && settles(n).Ok? && Hold(expectations, next)
    && (n + 1 == WAIT_ATTEMPTS || Unchanged(next, seen))
  }

  /** `wait`: `last` is the last observation examined, `reported` the one the result describes. */
  method Wait(expectations: seq<Expectation>, timeoutMs: Option<real>, observed: Result<ObservedState, Thrown>,
              settles: nat -> Result<ObservedState, Thrown>)
    returns (r: Result<ActionResult, ()>, last: nat, reported: Option<ObservedState>)
    ensures (exists t :: timeoutMs == Some(t) && t <= 0.0) || observed.Err? ==> r.Err?
    ensures r.Ok? <==> reported.Some?
    ensures (forall t | timeoutMs == Some(t) :: t > 0.0) && observed.Ok? ==>
              var first := observed.value;
              var seen := Observation(first, settles, last);
              && LastExamined(expectations, first, settles, last)
              && (r.Err? ==> Refuted(expectations, seen) && settles(last).Err?)
              && (r.Ok? ==> r.value.state in {Verified, Failed} && Reports(r.value, first, reported.value))
              && (r.Ok? && r.value.state.Verified? <==> Hold(expectations, seen))
              && (r.Ok? && r.value.state.Verified? ==> reported.value == seen)
              && (Undecided(expectations, seen) ==>
                    r.Ok? && reported.value == seen && r.value.error == Some("stale_reference"))
              && (r.Ok? && Refuted(expectations, seen) ==>
                    && settles(last) == Ok(reported.value)
                    && (last + 1 == WAIT_ATTEMPTS || Unchanged(reported.value, seen))
                    && SaysUnmet(r.value, reported.value, "semantic_wait_timeout"))
    // Failure together with a state that meets the expectations.
    ensures (forall t | timeoutMs == Some(t) :: t > 0.0) && observed.Ok? ==>
              (r.Ok? && r.value.state.Failed? && Hold(expectations, reported.value)
               <==> Missed(expectations, observed.value, settles, last))
  {
    last := 0;
    if !TimeoutIsValid(timeoutMs) || observed.Err? {
      assert !TimeoutIsValid(timeoutMs) ==> timeoutMs == Some(timeoutMs.value);
      return Err(()), 0, None;
    }
    var before := observed.value;
    var current := before;
    var attempt := 0;
    while attempt < 20
      invariant attempt <= WAIT_ATTEMPTS
      invariant attempt < WAIT_ATTEMPTS ==> Examined(expectations, before, settles, attempt)
      invariant current == Observation(before, settles, attempt)
      invariant attempt == WAIT_ATTEMPTS ==>
          && last + 1 == attempt
          && Examined(expectations, before, settles, last)
          && Refuted(expectations, Observation(before, settles, last))
          && settles(last) == Ok(current)
    {
      last := attempt;
      EvaluateMeaning(expectations, current);
      var satisfied := Evaluate(expectations, current);
      if satisfied.Err? {
        return Ok(ResultOf(Failed, before, current, Some(CodeOf(satisfied.error)))), last, Some(current);
      }
      if satisfied.value {
        return Ok(ResultOf(Verified, before, current, None)), last, Some(current);
      }
      var next := settles(attempt);
      if next.Err? {
        return Err(()), last, None;
      }
      var isUnchanged :=
        && next.value.semanticRevision == current.semanticRevision
        && next.value.resourceRevision == current.resourceRevision
        && next.value.url == current.url;
      current := next.value;
      if isUnchanged {
        break;
      }
      attempt := attempt + 1;
    }
    EvaluateMeaning(expectations, Observation(before, settles, last));
    if current.validationMessages != [] {
      return Ok(ResultOf(Failed, before, current, Some("validation_failed"))), last, Some(current);
    }
    return Ok(ResultOf(Failed, before, current, Some("semantic_wait_timeout"))), last, Some(current);
  }

  /** However a page behaves, at most one observation of a wait is the last examined. */
  lemma LastExaminedIsUnique(expectations: seq<Expectation>, first: ObservedState,
                             settles: nat -> Result<ObservedState, Thrown>, m: nat, n: nat)
    requires LastExamined(expectations, first, settles, m) && LastExamined(expectations, first, settles, n)
    ensures m == n
  {
    assert m < n ==> Passed(expectations, first, settles, m);
    assert n < m ==> Passed(expectations, first, settles, n);
  }

  /** A wait is verified exactly when some observation it examines meets every expectation. */
  lemma LastExaminedDecides(expectations: seq<Expectation>, first: ObservedState,
                            settles: nat -> Result<ObservedState, Thrown>, last: nat)
    requires LastExamined(expectations, first, settles, last)
    ensures Hold(expectations, Observation(first, settles, last))
       <==> exists n: nat ::
              Examined(expectations, first, settles, n) && Hold(expectations, Observation(first, settles, n))
  {
    forall n: nat | Examined(expectations, first, settles, n) && Hold(expectations, Observation(first, settles, n))
      ensures n == last
    {
      EvaluateMeaning(expectations, Observation(first, settles, n));
      assert n < last ==> Passed(expectations, first, settles, n);
      assert last < n ==> Passed(expectations, first, settles, last);
    }
  }

  // ---------- Which expectations a wait can miss ----------

  /** One observation fails the expectations, the next one meets them. */
  ghost predicate Turns(expectations: seq<Expectation>, seen: ObservedState, next: ObservedState) {
    Refuted(expectations, seen) && Hold(expectations, next)
  }

  lemma {:induction false} RevisionIsNotExpected(expectations: seq<Expectation>, observed: ObservedState, revision: int)
    ensures Evaluate(expectations, observed.(semanticRevision := revision)) == Evaluate(expectations, observed)
  {
    if expectations != [] {
      RevisionIsNotExpected(expectations[1..], observed, revision);
    }
  }

  /** The page that keeps changing for nineteen observations and turns on the twentieth. */
  function TurnsAtTheEnd(seen: ObservedState, next: ObservedState): nat -> Result<ObservedState, Thrown> {
    i => if i < WAIT_ATTEMPTS - 1 then Ok(seen.(semanticRevision := seen.semanticRevision + i + 1)) else Ok(next)
  }

  lemma StillRefuted(expectations: seq<Expectation>, seen: ObservedState, later: ObservedState)
    requires Refuted(expectations, seen) && later == seen.(semanticRevision := later.semanticRevision)
    ensures Refuted(expectations, later)
  {
    RevisionIsNotExpected(expectations, seen, later.semanticRevision);
    EvaluateMeaning(expectations, seen);
    EvaluateMeaning(expectations, later);
  }

  lemma ObservedBeforeTheEnd(seen: ObservedState, next: ObservedState, i: nat)
    requires i < WAIT_ATTEMPTS
    ensures Observation(seen, TurnsAtTheEnd(seen, next), i) == seen.(semanticRevision := seen.semanticRevision + i)
  {}

  lemma SeenBeforeTheEnd(expectations: seq<Expectation>, seen: ObservedState, next: ObservedState, i: nat)
    requires Refuted(expectations, seen) && i < WAIT_ATTEMPTS
    ensures Observation(seen, TurnsAtTheEnd(seen, next), i) == seen.(semanticRevision := seen.semanticRevision + i)
    ensures Refuted(expectations, Observation(seen, TurnsAtTheEnd(seen, next), i))
  {
    ObservedBeforeTheEnd(seen, next, i);
    StillRefuted(expectations, seen, Observation(seen, TurnsAtTheEnd(seen, next), i));
  }

  lemma LimitMisses(expectations: seq<Expectation>, seen: ObservedState, next: ObservedState)
    requires Turns(expectations, seen, next)
    ensures Missed(expectations, seen, TurnsAtTheEnd(seen, next), WAIT_ATTEMPTS - 1)
    ensures Observation(seen, TurnsAtTheEnd(seen, next), WAIT_ATTEMPTS) == next
  {
    var settles := TurnsAtTheEnd(seen, next);
    forall i: nat | i < WAIT_ATTEMPTS - 1 ensures Passed(expectations, seen, settles, i) {
      SeenBeforeTheEnd(expectations, seen, next, i);
      SeenBeforeTheEnd(expectations, seen, next, i + 1);
    }
    SeenBeforeTheEnd(expectations, seen, next, WAIT_ATTEMPTS - 1);
  }

  lemma UnchangedMisses(expectations: seq<Expectation>, seen: ObservedState, next: ObservedState)
    requires Turns(expectations, seen, next) && Unchanged(next, seen)
    ensures Missed(expectations, seen, (_: nat) => Ok(next), 0)
    ensures Observation(seen, (_: nat) => Ok(next), 1) == next
  {}

  /** A page can make a wait miss expectations exactly if it can turn from failing to meeting them. */
  lemma WaitCanMiss(expectations: seq<Expectation>)
    ensures (exists first, settles, n: nat :: Missed(expectations, first, settles, n))
       <==> exists seen, next :: Turns(expectations, seen, next)
  {
    if exists first, settles, n: nat :: Missed(expectations, first, settles, n) {
      var first, settles, n: nat :| Missed(expectations, first, settles, n);
      assert Turns(expectations, Observation(first, settles, n), Observation(first, settles, n + 1));
    }
    if exists seen, next :: Turns(expectations, seen, next) {
      var seen, next :| Turns(expectations, seen, next);
      LimitMisses(expectations, seen, next);
    }
  }

  /** A page can make a wait miss expectations before the limit exactly if it can turn from failing
      to meeting them without a change of revision, resource revision or url. */
  lemma WaitCanMissUnnoticed(expectations: seq<Expectation>)
    ensures (exists first, settles, n: nat :: Missed(expectations, first, settles, n) && n + 1 < WAIT_ATTEMPTS)
       <==> exists seen, next :: Turns(expectations, seen, next) && Unchanged(next, seen)
  {
    if exists first, settles, n: nat :: Missed(expectations, first, settles, n) && n + 1 < WAIT_ATTEMPTS {
      var first, settles, n: nat :| Missed(expectations, first, settles, n) && n + 1 < WAIT_ATTEMPTS;
      var seen, next := Observation(first, settles, n), Observation(first, settles, n + 1);
      assert Turns(expectations, seen, next) && Unchanged(next, seen);
    }
    if exists seen, next :: Turns(expectations, seen, next) && Unchanged(next, seen) {
      var seen, next :| Turns(expectations, seen, next) && Unchanged(next, seen);
      UnchangedMisses(expectations, seen, next);
    }
  }

  /** An expectation about what `Unchanged` compares. */
  predicate Noticed(expectation: Expectation) {
    expectation.Url? || expectation.ResourceRevisionChanged?
  }

  lemma {:induction false} NoticedSurviveUnchanged(expectations: seq<Expectation>, seen: ObservedState,
                                                   next: ObservedState)
    requires Unchanged(next, seen) && forall e | e in expectations :: Noticed(e)
    ensures Evaluate(expectations, next) == Evaluate(expectations, seen)
  {
    if expectations != [] {
      assert Noticed(expectations[0]);
      NoticedSurviveUnchanged(expectations[1..], seen, next);
    }
  }

  /** With expectations about url and resource revision only, a wait misses nothing but what
      comes with the last observation of all: within nineteen attempts it misses nothing. */
  lemma NoticedAreMissedOnlyAtTheLimit(expectations: seq<Expectation>, first: ObservedState,
                                       settles: nat -> Result<ObservedState, Thrown>, n: nat)
    requires (forall e | e in expectations :: Noticed(e)) && Missed(expectations, first, settles, n)
    ensures n + 1 == WAIT_ATTEMPTS
  {
    var seen, next := Observation(first, settles, n), Observation(first, settles, n + 1);
    EvaluateMeaning(expectations, next);
    EvaluateMeaning(expectations, seen);
    if Unchanged(next, seen) {
      NoticedSurviveUnchanged(expectations, seen, next);
    }
  }

  const BLANK := ObservedState("", 0, NoRevision, [], [], [])

  function NodeOf(target: Reference, value: Option<string>, disabled: Option<bool>): BackendNode {
    BackendNode("", target.key.role, target.key.name, Some(target.key.ancestry), target.key.documentId,
                target.key.frameId, value, None, disabled, None, None, false, false)
  }

  /** A state in which the expectation fails and one in which it holds that look the same to a wait. */
  function Pair(e: Expectation): (ObservedState, ObservedState)
    requires !Noticed(e)
  {
    match e
    case Value(target, value) =>
      (BLANK.(nodes := [NodeOf(target, None, None)]), BLANK.(nodes := [NodeOf(target, Some(value), None)]))
    case ValidationAbsent => (BLANK.(validationMessages := [""]), BLANK)
    case ValidationPresent => (BLANK, BLANK.(validationMessages := [""]))
    case Toast(part) => (BLANK, BLANK.(toasts := [part]))
    case TextPresent(part, present) =>
      var node := BackendNode("", "", part, None, "", "", None, None, None, None, None, false, false);
      var shown := BLANK.(nodes := [node]);
      if present.None? || present.value then (BLANK, shown) else (shown, BLANK)
    case Enabled(target, enabled) =>
      (BLANK.(nodes := [NodeOf(target, None, Some(enabled))]), BLANK.(nodes := [NodeOf(target, None, Some(!enabled))]))
  }

  lemma EvaluateOne(e: Expectation, observed: ObservedState)
    ensures Evaluate([e], observed) == Satisfied(e, observed)
    ensures Hold([e], observed) <==> Satisfied(e, observed) == Ok(true)
    ensures Refuted([e], observed) <==> Satisfied(e, observed) == Ok(false)
  {
    EvaluateMeaning([e], observed);
    assert [e][1..] == [];
  }

  lemma OneNode(target: Reference, node: BackendNode)
    requires IsMatch(target, node)
    ensures Reacquire(target, [node]) == Ok(node)
  {
    assert OnlyMatch(target, [node], 0);
    OnlyMatchIsTheOne(target, [node], 0);
  }

  lemma IncludesItself(s: string)
    ensures Includes(s, s)
  {
    assert s <= s[0..];
  }

  lemma PairTurns(e: Expectation)
    requires !Noticed(e)
    ensures Turns([e], Pair(e).0, Pair(e).1) && Unchanged(Pair(e).1, Pair(e).0)
  {
    var (seen, next) := Pair(e);
    EvaluateOne(e, seen);
    EvaluateOne(e, next);
    match e {
      case Value(target, _) =>
        OneNode(target, seen.nodes[0]);
        OneNode(target, next.nodes[0]);
      case Enabled(target, _) =>
        OneNode(target, seen.nodes[0]);
        OneNode(target, next.nodes[0]);
      case Toast(part) =>
        IncludesItself(part);
        assert part in next.toasts;
      case TextPresent(part, present) =>
        IncludesItself(part);
        var shown := if present.None? || present.value then next else seen;
        assert shown.nodes[0] in shown.nodes && Mentions(shown.nodes[0], part);
      case _ =>
    }
  }

  /** One expectation can be missed before the limit, for want of a noticeable change, exactly if
      it is about neither url nor resource revision. */
  lemma MissedUnnoticedExactlyUnlessNoticed(e: Expectation)
    ensures (exists first, settles, n: nat :: Missed([e], first, settles, n) && n + 1 < WAIT_ATTEMPTS) <==> !Noticed(e)
  {
    if Noticed(e) {
      forall first, settles, n: nat | Missed([e], first, settles, n) ensures n + 1 == WAIT_ATTEMPTS {
        NoticedAreMissedOnlyAtTheLimit([e], first, settles, n);
      }
    } else {
      PairTurns(e);
      UnchangedMisses([e], Pair(e).0, Pair(e).1);
    }
  }

  /** A toast that comes without a new revision: the wait fails and reports the state with the toast. */
  lemma WaitMissesUnnoticedToast(first: ObservedState, toast: string)
    requires first.toasts == []
    ensures var next := first.(toasts := [toast]);
            && Missed([Toast(toast)], first, (_: nat) => Ok(next), 0)
            && Observation(first, (_: nat) => Ok(next), 1) == next
  {
    var next := first.(toasts := [toast]);
    EvaluateOne(Toast(toast), first);
    EvaluateOne(Toast(toast), next);
    IncludesItself(toast);
    assert toast in next.toasts;
    UnchangedMisses([Toast(toast)], first, next);
  }

  /** A resource that changes with the last observation: the wait fails and reports the changed one. */
  lemma WaitMissesLateChange(first: ObservedState, late: Revision)
    requires late != first.resourceRevision
    ensures var next := first.(resourceRevision := late);
            Missed([ResourceRevisionChanged(first.resourceRevision)], first, TurnsAtTheEnd(first, next),
                   WAIT_ATTEMPTS - 1)
  {
    var expectation := ResourceRevisionChanged(first.resourceRevision);
    EvaluateOne(expectation, first);
    EvaluateOne(expectation, first.(resourceRevision := late));
    LimitMisses([expectation], first, first.(resourceRevision := late));
  }
}
