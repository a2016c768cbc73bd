/** Semantic snapshots and references that survive a rerender: browser/bridge/src/semantic.ts. */
module Semantic {
  import opened Wrappers

  datatype Ancestor = Ancestor(role: string, name: string)

  /** What a reference identifies a node by; the signature is a digest of exactly this. */
  datatype Key = Key(role: string, name: string, ancestry: seq<Ancestor>, documentId: string, frameId: string)

  datatype BackendNode = BackendNode(
    backendId: string,
    role: string,
    name: string,
    ancestry: Option<seq<Ancestor>>,
    documentId: string,
    frameId: string,
    value: Option<string>,
    description: Option<string>,
    disabled: Option<bool>,
    checked: Option<bool>,
    selected: Option<bool>,
    sensitive: bool,
    hidden: bool)

  datatype Reference = Reference(refId: string, key: Key, revision: int)

  datatype SnapshotNode = SnapshotNode(
    ref: Reference,
    value: Option<string>,
    description: Option<string>,
    disabled: Option<bool>,
    checked: Option<bool>,
    selected: Option<bool>)

  datatype Snapshot = Snapshot(revision: int, nodes: seq<SnapshotNode>, truncated: bool, omitted: nat)

  function NormalizedAncestry(node: BackendNode): seq<Ancestor> {
    if node.ancestry.None? then [] else node.ancestry.value
  }

  function KeyOf(node: BackendNode): Key {
    Key(node.role, node.name, NormalizedAncestry(node), node.documentId, node.frameId)
  }

  /** Nothing that a reference goes by tells the two apart. */
  predicate SameElement(a: BackendNode, b: BackendNode) {
    && a.role == b.role && a.name == b.name && a.documentId == b.documentId && a.frameId == b.frameId
    && (a.ancestry == b.ancestry
        || (a.ancestry in {None, Some([])} && b.ancestry in {None, Some([])}))
  }

  lemma KeyIdentifies(a: BackendNode, b: BackendNode)
    ensures KeyOf(a) == KeyOf(b) <==> SameElement(a, b)
  {}

  /** The filter that both operations start from. */
  function Visible(nodes: seq<BackendNode>): seq<BackendNode> {
    if nodes == [] then []
    else (if nodes[0].hidden then [] else [nodes[0]]) + Visible(nodes[1..])
  }

  // ---------- Decimal suffixes ----------

  function Digit(d: nat): char
    requires d < 10
  {
    '0' + d as char
  }

  function Decimal(n: nat): (s: string)
    ensures s != [] && forall c | c in s :: '0' <= c <= '9'
  {
    if n < 10 then [Digit(n)] else Decimal(n / 10) + [Digit(n % 10)]
  }

  /** The number a string of decimal digits denotes. */
  function Denoted(s: string): int {
    if s == [] then 0 else 10 * Denoted(s[..|s| - 1]) + (s[|s| - 1] as int - '0' as int)
  }

  /** Printing is undone by reading, and writes no leading zero. */
  lemma {:induction false} DecimalDenotes(n: nat)
    ensures Denoted(Decimal(n)) == n
    ensures n > 0 ==> Decimal(n)[0] != '0'
  {
    if n >= 10 {
      DecimalDenotes(n / 10);
      assert Decimal(n)[..|Decimal(n)| - 1] == Decimal(n / 10);
    } else {
      assert Decimal(n)[..0] == [];
    }
  }

  lemma DecimalIsInjective(a: nat, b: nat)
    requires Decimal(a) == Decimal(b)
    ensures a == b
  {
    DecimalDenotes(a);
    DecimalDenotes(b);
  }

  // ---------- The snapshot ----------

  function RefId(signature: string, occurrence: nat): string {
    "ref_" + signature + "_" + Decimal(occurrence)
  }

  /** A ref_id determines its signature and occurrence, whatever the digest looks like: what
      follows the last underscore is the occurrence. */
  lemma RefIdIsInjective(a: string, i: nat, b: string, j: nat)
    requires RefId(a, i) == RefId(b, j)
    ensures a == b && i == j
  {
    var s, di, dj := RefId(a, i), Decimal(i), Decimal(j);
    var p, q := 4 + |a|, 4 + |b|;
    assert s[p] == '_' && s[q] == '_';
    assert s[p + 1..] == di && s[q + 1..] == dj;
    assert '_' !in di && '_' !in dj;
    assert s[4..p] == a && s[4..q] == b;
    DecimalIsInjective(i, j);
  }

  /** How many of the first `n` nodes have this signature. */
  function Count(nodes: seq<BackendNode>, signature: Key -> string, n: nat, s: string): (c: nat)
    requires n <= |nodes|
    ensures c <= n
  {
    if n == 0 then 0
    else Count(nodes, signature, n - 1, s) + (if signature(KeyOf(nodes[n - 1])) == s then 1 else 0)
  }

  lemma {:induction false} CountGrows(nodes: seq<BackendNode>, signature: Key -> string, m: nat, n: nat, s: string)
    requires m <= n <= |nodes|
    ensures Count(nodes, signature, m, s) <= Count(nodes, signature, n, s)
    decreases n - m
  {
    if m < n {
      CountGrows(nodes, signature, m, n - 1, s);
    }
  }

  function RefAt(nodes: seq<BackendNode>, signature: Key -> string, revision: int, i: nat): Reference
    requires i < |nodes|
  {
    var s := signature(KeyOf(nodes[i]));
    Reference(RefId(s, Count(nodes, signature, i + 1, s)), KeyOf(nodes[i]), revision)
  }

  function SnapshotNodeAt(nodes: seq<BackendNode>, signature: Key -> string, revision: int, i: nat): SnapshotNode
    requires i < |nodes|
  {
    var node := nodes[i];
    SnapshotNode(
      RefAt(nodes, signature, revision, i),
      if node.sensitive then None else node.value,
      if node.sensitive then None else node.description,
      node.disabled, node.checked, node.selected)
  }

  /** 200 nodes unless asked otherwise, at most 2000; only a positive integer may be asked for. */
  function MaxNodes(value: Option<real>): (r: Result<nat, ()>)
    ensures value.None? ==> r == Ok(200)
    ensures r.Err? <==> value.Some? && !(value.value > 0.0 && value.value.Floor as real == value.value)
    ensures r.Ok? ==> 0 < r.value <= 2000
    ensures r.Ok? && value.Some? ==> r.value as real == value.value || (r.value == 2000 && value.value > 2000.0)
  {
    if value.None? then Ok(200)
    else if value.value.Floor as real != value.value || value.value <= 0.0 then Err(())
    else Ok(if value.value.Floor < 2000 then value.value.Floor else 2000)
  }

  function Shown(nodes: seq<BackendNode>, max: nat): seq<BackendNode> {
    var visible := Visible(nodes);
    if max < |visible| then visible[..max] else visible
  }

  function SnapshotOf(nodes: seq<BackendNode>, signature: Key -> string, revision: int, max: nat): Snapshot {
    var shown := Shown(nodes, max);
    Snapshot(revision, seq(|shown|, i requires 0 <= i < |shown| => SnapshotNodeAt(shown, signature, revision, i)),
             |Visible(nodes)| > |shown|, |Visible(nodes)| - |shown|)
  }

  function Tally(m: map<string, nat>, s: string): nat {
    if s in m then m[s] else 0
  }

  ghost predicate Tallied(m: map<string, nat>, nodes: seq<BackendNode>, signature: Key -> string, n: nat)
    requires n <= |nodes|
  {
    forall s :: Tally(m, s) == Count(nodes, signature, n, s)
  }

  lemma TallyOneMore(m: map<string, nat>, nodes: seq<BackendNode>, signature: Key -> string, n: nat)
    requires n < |nodes| && Tallied(m, nodes, signature, n)
    ensures var s := signature(KeyOf(nodes[n]));
            Tallied(m[s := Tally(m, s) + 1], nodes, signature, n + 1)
  {
    var s := signature(KeyOf(nodes[n]));
    var more := m[s := Tally(m, s) + 1];
    forall t ensures Tally(more, t) == Count(nodes, signature, n + 1, t) {
      assert Tally(m, t) == Count(nodes, signature, n, t);
    }
  }

  method TakeSnapshot(backendNodes: seq<BackendNode>, signature: Key -> string, revision: int, maxNodes: Option<real>)
    returns (r: Result<Snapshot, ()>)
    ensures r.Err? <==> MaxNodes(maxNodes).Err?
    ensures r.Ok? ==> r.value == SnapshotOf(backendNodes, signature, revision, MaxNodes(maxNodes).value)
  {
    var max := MaxNodes(maxNodes);
    if max.Err? {
      return Err(());
    }
    var visible := Visible(backendNodes);
    var selected := Shown(backendNodes, max.value);
    var occurrenceBySignature: map<string, nat> := map[];
    var nodes: seq<SnapshotNode> := [];
    for i := 0 to |selected|
      invariant |nodes| == i
      invariant forall j: nat | j < i :: nodes[j] == SnapshotNodeAt(selected, signature, revision, j)
      invariant Tallied(occurrenceBySignature, selected, signature, i)
    {
      var node := selected[i];
      var s := signature(KeyOf(node));
      TallyOneMore(occurrenceBySignature, selected, signature, i);
      var occurrence := (if s in occurrenceBySignature then occurrenceBySignature[s] else 0) + 1;
      occurrenceBySignature := occurrenceBySignature[s := occurrence];
      assert occurrence == Tally(occurrenceBySignature, s);
      var ref := Reference(RefId(s, occurrence), KeyOf(node), revision);
      var snapshotNode := SnapshotNode(ref, None, None, node.disabled, node.checked, node.selected);
      if !node.sensitive {
        snapshotNode := snapshotNode.(value := node.value, description := node.description);
      }
      assert snapshotNode == SnapshotNodeAt(selected, signature, revision, i);
      nodes := nodes + [snapshotNode];
    }
    assert nodes == SnapshotOf(backendNodes, signature, revision, max.value).nodes;
    return Ok(Snapshot(revision, nodes, |visible| > |nodes|, |visible| - |nodes|));
  }

  /** No two nodes of a snapshot share a ref_id, for any signature function, collisions included. */
  lemma RefIdsAreDistinct(nodes: seq<BackendNode>, signature: Key -> string, revision: int, max: nat, i: nat, j: nat)
    requires i < j < |SnapshotOf(nodes, signature, revision, max).nodes|
    ensures var snapshot := SnapshotOf(nodes, signature, revision, max);
            snapshot.nodes[i].ref.refId != snapshot.nodes[j].ref.refId
  {
    var shown := Shown(nodes, max);
    var a, b := signature(KeyOf(shown[i])), signature(KeyOf(shown[j]));
    var m, n := Count(shown, signature, i + 1, a), Count(shown, signature, j + 1, b);
    if RefId(a, m) == RefId(b, n) {
      RefIdIsInjective(a, m, b, n);
      CountGrows(shown, signature, i + 1, j, a);
    }
  }

  // ---------- What a snapshot shows ----------

  function Sharing(nodes: seq<BackendNode>, signature: Key -> string, n: nat, s: string): set<nat>
    requires n <= |nodes|
  {
    set j: nat | j < n && signature(KeyOf(nodes[j])) == s
  }

  lemma SharingOneMore(nodes: seq<BackendNode>, signature: Key -> string, n: nat, s: string)
    requires 0 < n <= |nodes|
    ensures Sharing(nodes, signature, n, s)
         == Sharing(nodes, signature, n - 1, s) + if signature(KeyOf(nodes[n - 1])) == s then {n - 1} else {}
  {}

  lemma {:induction false} CountIsCardinality(nodes: seq<BackendNode>, signature: Key -> string, n: nat, s: string)
    requires n <= |nodes|
    ensures Count(nodes, signature, n, s) == |Sharing(nodes, signature, n, s)|
    decreases n
  {
    if n > 0 {
      CountIsCardinality(nodes, signature, n - 1, s);
      SharingOneMore(nodes, signature, n, s);
    }
  }

  /** Positions in ascending order, of exactly the nodes that are not hidden. */
  ghost predicate ArePositions(at: seq<nat>, nodes: seq<BackendNode>) {
    && (forall k | 0 <= k < |at| :: at[k] < |nodes|)
    && (forall j, k | 0 <= j < k < |at| :: at[j] < at[k])
    && (forall i: nat | i < |nodes| :: !nodes[i].hidden <==> i in at)
  }

  function Shifted(at: seq<nat>): seq<nat> {
    seq(|at|, k requires 0 <= k < |at| => at[k] + 1)
  }

  lemma InShifted(at: seq<nat>, i: nat)
    ensures i in Shifted(at) <==> i > 0 && i - 1 in at
  {
    if i > 0 && i - 1 in at {
      var k :| 0 <= k < |at| && at[k] == i - 1;
      assert Shifted(at)[k] == i;
    }
  }

  lemma PositionsOfTail(at: seq<nat>, nodes: seq<BackendNode>)
    requires nodes != [] && ArePositions(at, nodes[1..])
    ensures ArePositions((if nodes[0].hidden then [] else [0]) + Shifted(at), nodes)
  {
    var all := (if nodes[0].hidden then [] else [0]) + Shifted(at);
    forall i: nat | i < |nodes| ensures !nodes[i].hidden <==> i in all {
      InShifted(at, i);
      assert i in all <==> i in Shifted(at) || (i == 0 && !nodes[0].hidden);
      assert i > 0 ==> nodes[i] == nodes[1..][i - 1];
    }
  }

  predicate Picks(at: seq<nat>, nodes: seq<BackendNode>, picked: seq<BackendNode>) {
    |at| == |picked| && forall k | 0 <= k < |at| :: at[k] < |nodes| && picked[k] == nodes[at[k]]
  }

  lemma PicksOfTail(at: seq<nat>, nodes: seq<BackendNode>, picked: seq<BackendNode>)
    requires nodes != [] && Picks(at, nodes[1..], picked)
    ensures Picks(Shifted(at), nodes, picked) && Picks([0] + Shifted(at), nodes, [nodes[0]] + picked)
  {}

  lemma {:induction false} VisiblePositions(nodes: seq<BackendNode>) returns (at: seq<nat>)
    ensures ArePositions(at, nodes) && Picks(at, nodes, Visible(nodes))
  {
    if nodes == [] {
      at := [];
    } else {
      var rest := VisiblePositions(nodes[1..]);
      PositionsOfTail(rest, nodes);
      PicksOfTail(rest, nodes, Visible(nodes[1..]));
      at := (if nodes[0].hidden then [] else [0]) + Shifted(rest);
      assert nodes[0].hidden ==> at == Shifted(rest) && Visible(nodes) == Visible(nodes[1..]);
    }
  }

  /** The snapshot node gives the node's own data, a sensitive one's value and description excepted. */
  predicate Describes(shown: SnapshotNode, node: BackendNode, revision: int) {
    && Shows(node, shown.ref) && shown.ref.revision == revision
    && shown.value == (if node.sensitive then None else node.value)
    && shown.description == (if node.sensitive then None else node.description)
    && shown.disabled == node.disabled && shown.checked == node.checked && shown.selected == node.selected
  }

  /** The `k`-th node's reference is numbered among those shown so far that share its signature. */
  predicate Numbered(shown: seq<SnapshotNode>, signature: Key -> string, k: nat)
    requires k < |shown|
  {
    var s := signature(shown[k].ref.key);
    shown[k].ref.refId == "ref_" + s + "_" + Decimal(|set j: nat | j <= k && signature(shown[j].ref.key) == s|)
  }

  lemma NodeIsNumbered(nodes: seq<BackendNode>, signature: Key -> string, revision: int, max: nat, k: nat)
    requires k < |SnapshotOf(nodes, signature, revision, max).nodes|
    ensures Numbered(SnapshotOf(nodes, signature, revision, max).nodes, signature, k)
  {
    var shown, snapshot := Shown(nodes, max), SnapshotOf(nodes, signature, revision, max);
    var s := signature(KeyOf(shown[k]));
    CountIsCardinality(shown, signature, k + 1, s);
    assert Sharing(shown, signature, k + 1, s)
        == (set j: nat | j <= k && signature(snapshot.nodes[j].ref.key) == s);
  }

  /** A snapshot has, in order, one node for every node that is not hidden, as many as the limit
      allows, and says how many it left out. */
  lemma SnapshotShowsWhatIsVisible(nodes: seq<BackendNode>, signature: Key -> string, revision: int, max: nat)
    returns (at: seq<nat>)
    ensures ArePositions(at, nodes)
    ensures var snapshot := SnapshotOf(nodes, signature, revision, max);
            && snapshot.revision == revision
            && |snapshot.nodes| == (if max < |at| then max else |at|)
            && (snapshot.truncated <==> max < |at|) && snapshot.omitted == |at| - |snapshot.nodes|
            && (forall k: nat | k < |snapshot.nodes| :: Describes(snapshot.nodes[k], nodes[at[k]], revision))
            && (forall k: nat | k < |snapshot.nodes| :: Numbered(snapshot.nodes, signature, k))
  {
    at := VisiblePositions(nodes);
    var shown, snapshot := Shown(nodes, max), SnapshotOf(nodes, signature, revision, max);
    forall k: nat | k < |snapshot.nodes| ensures Numbered(snapshot.nodes, signature, k) {
      NodeIsNumbered(nodes, signature, revision, max, k);
    }
    forall k: nat | k < |snapshot.nodes| ensures Describes(snapshot.nodes[k], nodes[at[k]], revision) {
      assert shown[k] == nodes[at[k]] && at[k] in at;
      assert snapshot.nodes[k] == SnapshotNodeAt(shown, signature, revision, k);
    }
  }

  // ---------- What a snapshot gives away ----------

  /** A node without what a snapshot of it must not depend on. */
  function Redacted(node: BackendNode): BackendNode {
    var anonymous := node.(backendId := "");
    if node.sensitive then anonymous.(value := None, description := None) else anonymous
  }

  function RedactedVisible(nodes: seq<BackendNode>): seq<BackendNode> {
    var visible := Visible(nodes);
    seq(|visible|, i requires 0 <= i < |visible| => Redacted(visible[i]))
  }

  lemma {:induction false} VisibleKeepsAll(nodes: seq<BackendNode>)
    requires forall i | 0 <= i < |nodes| :: !nodes[i].hidden
    ensures Visible(nodes) == nodes
  {
    if nodes != [] {
      VisibleKeepsAll(nodes[1..]);
    }
  }

  lemma RedactedIsVisible(nodes: seq<BackendNode>)
    ensures Visible(RedactedVisible(nodes)) == RedactedVisible(nodes)
  {
    forall k | 0 <= k < |Visible(nodes)| ensures !RedactedVisible(nodes)[k].hidden {
      var _ := VisibleIsFrom(nodes, k);
    }
    VisibleKeepsAll(RedactedVisible(nodes));
  }

  lemma {:induction false} CountOfRedacted(nodes: seq<BackendNode>, redacted: seq<BackendNode>,
                                           signature: Key -> string, n: nat, s: string)
    requires |redacted| == |nodes| && forall i | 0 <= i < |nodes| :: redacted[i] == Redacted(nodes[i])
    requires n <= |nodes|
    ensures Count(redacted, signature, n, s) == Count(nodes, signature, n, s)
    decreases n
  {
    if n > 0 {
      CountOfRedacted(nodes, redacted, signature, n - 1, s);
      assert KeyOf(redacted[n - 1]) == KeyOf(nodes[n - 1]);
    }
  }

  lemma RedactionIsNotSeen(nodes: seq<BackendNode>, redacted: seq<BackendNode>,
                           signature: Key -> string, revision: int, i: nat)
    requires |redacted| == |nodes| && forall i | 0 <= i < |nodes| :: redacted[i] == Redacted(nodes[i])
    requires i < |nodes|
    ensures SnapshotNodeAt(redacted, signature, revision, i) == SnapshotNodeAt(nodes, signature, revision, i)
  {
    CountOfRedacted(nodes, redacted, signature, i + 1, signature(KeyOf(nodes[i])));
  }

  /** Hidden nodes, backend ids, and the values and descriptions of sensitive nodes do not
      influence a snapshot: without them it is the same. */
  lemma SnapshotHidesSecrets(nodes: seq<BackendNode>, signature: Key -> string, revision: int, max: nat)
    ensures SnapshotOf(RedactedVisible(nodes), signature, revision, max) == SnapshotOf(nodes, signature, revision, max)
  {
    RedactedIsVisible(nodes);
    var shown, redacted := Shown(nodes, max), Shown(RedactedVisible(nodes), max);
    forall i: nat | i < |shown|
      ensures SnapshotNodeAt(redacted, signature, revision, i) == SnapshotNodeAt(shown, signature, revision, i)
    {
      RedactionIsNotSeen(shown, redacted, signature, revision, i);
    }
  }

  // ---------- Reacquiring ----------

  predicate IsMatch(ref: Reference, node: BackendNode) {
    !node.hidden && KeyOf(node) == ref.key
  }

  function Matching(ref: Reference, nodes: seq<BackendNode>): seq<BackendNode> {
    if nodes == [] then []
    else (if IsMatch(ref, nodes[0]) then [nodes[0]] else []) + Matching(ref, nodes[1..])
  }

  /** A stale reference carries its match count. */
  datatype StaleReference = StaleReference(matchCount: nat)

  function Reacquire(ref: Reference, nodes: seq<BackendNode>): Result<BackendNode, StaleReference> {
    var matches := Matching(ref, nodes);
    if |matches| != 1 then Err(StaleReference(|matches|)) else Ok(matches[0])
  }

  lemma {:induction false} NoMatch(ref: Reference, nodes: seq<BackendNode>)
    ensures Matching(ref, nodes) == [] <==> forall i | 0 <= i < |nodes| :: !IsMatch(ref, nodes[i])
  {
    if nodes != [] {
      NoMatch(ref, nodes[1..]);
      if Matching(ref, nodes) == [] {
        assert forall i | 1 <= i < |nodes| :: nodes[i] == nodes[1..][i - 1];
      } else if Matching(ref, nodes[1..]) != [] {
        var i :| 0 <= i < |nodes[1..]| && IsMatch(ref, nodes[1..][i]);
        assert IsMatch(ref, nodes[i + 1]);
      }
    }
  }

  /** The node can be seen and is what the reference describes; no ancestry is the same as an empty one. */
  predicate Shows(node: BackendNode, ref: Reference) {
    && !node.hidden
    && node.role == ref.key.role && node.name == ref.key.name
    && (if node.ancestry.Some? then ref.key.ancestry == node.ancestry.value else ref.key.ancestry == [])
    && node.documentId == ref.key.documentId && node.frameId == ref.key.frameId
  }

  ghost predicate OnlyMatch(ref: Reference, nodes: seq<BackendNode>, i: nat) {
    i < |nodes| && Shows(nodes[i], ref) && forall j | 0 <= j < |nodes| && j != i :: !Shows(nodes[j], ref)
  }

  lemma {:induction false} OnlyMatchIsTheOne(ref: Reference, nodes: seq<BackendNode>, i: nat)
    requires OnlyMatch(ref, nodes, i)
    ensures Matching(ref, nodes) == [nodes[i]]
  {
    NoMatch(ref, nodes[1..]);
    if i > 0 {
      assert OnlyMatch(ref, nodes[1..], i - 1);
      OnlyMatchIsTheOne(ref, nodes[1..], i - 1);
    }
  }

  lemma {:induction false} OneMatchIsOnly(ref: Reference, nodes: seq<BackendNode>) returns (i: nat)
    requires |Matching(ref, nodes)| == 1
    ensures OnlyMatch(ref, nodes, i)
  {
    NoMatch(ref, nodes[1..]);
    if IsMatch(ref, nodes[0]) {
      i := 0;
      assert forall j | 1 <= j < |nodes| :: nodes[j] == nodes[1..][j - 1];
    } else {
      i := OneMatchIsOnly(ref, nodes[1..]);
      assert forall j | 1 <= j < |nodes| :: nodes[j] == nodes[1..][j - 1];
      i := i + 1;
    }
  }

  /** A reference finds a node exactly when that node is the only match. */
  lemma ReacquireFindsTheOnlyMatch(ref: Reference, nodes: seq<BackendNode>, i: nat)
    requires i < |nodes| && Shows(nodes[i], ref)
    ensures Reacquire(ref, nodes) == Ok(nodes[i]) <==> OnlyMatch(ref, nodes, i)
    ensures !OnlyMatch(ref, nodes, i) ==> Reacquire(ref, nodes).Err? && Reacquire(ref, nodes).error.matchCount >= 2
  {
    NoMatch(ref, nodes);
    if OnlyMatch(ref, nodes, i) {
      OnlyMatchIsTheOne(ref, nodes, i);
    } else if |Matching(ref, nodes)| == 1 {
      var _ := OneMatchIsOnly(ref, nodes);
    }
  }

  // ---------- Partial inverses ----------

  lemma {:induction false} VisibleIsFrom(nodes: seq<BackendNode>, k: nat) returns (i: nat)
    requires k < |Visible(nodes)|
    ensures i < |nodes| && nodes[i] == Visible(nodes)[k] && !nodes[i].hidden
  {
    if nodes[0].hidden {
      i := VisibleIsFrom(nodes[1..], k);
      i := i + 1;
    } else if k == 0 {
      i := 0;
    } else {
      assert Visible(nodes)[k] == Visible(nodes[1..])[k - 1];
      i := VisibleIsFrom(nodes[1..], k - 1);
      i := i + 1;
    }
  }

  /** A reference taken from a snapshot reacquires its own node exactly when no other visible
      node has the same role, name, ancestry, document and frame; otherwise it is ambiguous. */
  lemma SnapshotThenReacquire(nodes: seq<BackendNode>, signature: Key -> string, revision: int, max: nat, k: nat)
    returns (i: nat)
    requires k < |SnapshotOf(nodes, signature, revision, max).nodes|
    ensures i < |nodes| && !nodes[i].hidden && nodes[i] == Shown(nodes, max)[k]
    ensures var ref := SnapshotOf(nodes, signature, revision, max).nodes[k].ref;
            && (Reacquire(ref, nodes) == Ok(nodes[i])
                <==> forall j | 0 <= j < |nodes| && j != i && !nodes[j].hidden :: !SameElement(nodes[j], nodes[i]))
            && (Reacquire(ref, nodes).Ok? || Reacquire(ref, nodes).error.matchCount >= 2)
  {
    i := VisibleIsFrom(nodes, k);
    var ref := SnapshotOf(nodes, signature, revision, max).nodes[k].ref;
    assert ref.key == KeyOf(nodes[i]);
    ReacquireFindsTheOnlyMatch(ref, nodes, i);
  }

  function VisibleKeys(nodes: seq<BackendNode>): seq<Key> {
    if nodes == [] then []
    else (if nodes[0].hidden then [] else [KeyOf(nodes[0])]) + VisibleKeys(nodes[1..])
  }

  lemma {:induction false} MatchCountIsMultiplicity(ref: Reference, nodes: seq<BackendNode>)
    ensures |Matching(ref, nodes)| == multiset(VisibleKeys(nodes))[ref.key]
  {
    if nodes != [] {
      MatchCountIsMultiplicity(ref, nodes[1..]);
    }
  }

  /** What is reacquired is one of the nodes, visible, and of the key asked for. */
  lemma ReacquiredMatches(ref: Reference, nodes: seq<BackendNode>)
    requires Reacquire(ref, nodes).Ok?
    ensures Reacquire(ref, nodes).value in nodes && Shows(Reacquire(ref, nodes).value, ref)
  {
    var i := OneMatchIsOnly(ref, nodes);
    OnlyMatchIsTheOne(ref, nodes, i);
  }

  /** Reordering the nodes, renumbering the backend and changing values leave every reference
      with the same outcome: the same match count if stale, the node of the same key if not. */
  lemma RerenderKeepsReferences(ref: Reference, before: seq<BackendNode>, after: seq<BackendNode>)
    requires multiset(VisibleKeys(before)) == multiset(VisibleKeys(after))
    ensures Reacquire(ref, before).Ok? <==> Reacquire(ref, after).Ok?
    ensures Reacquire(ref, before).Err? ==> Reacquire(ref, before).error == Reacquire(ref, after).error
    ensures Reacquire(ref, after).Ok? ==>
              && Shows(Reacquire(ref, after).value, ref)
              && SameElement(Reacquire(ref, after).value, Reacquire(ref, before).value)
  {
    MatchCountIsMultiplicity(ref, before);
    MatchCountIsMultiplicity(ref, after);
    if Reacquire(ref, after).Ok? {
      ReacquiredMatches(ref, before);
      ReacquiredMatches(ref, after);
    }
  }
}
