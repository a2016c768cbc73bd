/** Response budgets: agent/tether-core/src/budget.rs.

    Text is a byte sequence that is well-formed UTF-8, as a Rust string always is.
 */
module TextBudget {
  import opened Wrappers
  import opened Utf8

  datatype ResponseMode = Compact | Normal | Debug

  datatype ResponseBudget = ResponseBudget(maxBytes: nat, maxItems: nat)

  function ForMode(mode: ResponseMode): ResponseBudget {
    match mode
    case Compact => ResponseBudget(16 * 1024, 100)
    case Normal => ResponseBudget(64 * 1024, 500)
    case Debug => ResponseBudget(256 * 1024, 2_000)
  }

  /** One page: what is returned, and where the next one starts if there is more. */
  datatype Page<T> = Page(content: seq<T>, continuation: Option<nat>)

  // ---------- Text ----------

  /** The last boundary in `start..end`. */
  function LastBoundary(s: seq<byte>, start: nat, end: nat): (b: nat)
    requires start <= end
    ensures start <= b <= end
    ensures b == start || IsCharBoundary(s, b)
    ensures forall i | b < i <= end :: !IsCharBoundary(s, i)
    decreases end - start
  {
    if end == start || IsCharBoundary(s, end) then end else LastBoundary(s, start, end - 1)
  }

  function TextPage(budget: ResponseBudget, input: seq<byte>, start: nat): Page<byte>
    requires start <= |input|
  {
    if |input| - start <= budget.maxBytes then Page(input[start..], None)
    else
      var end := LastBoundary(input, start, start + budget.maxBytes);
      Page(input[start..end], Some(end))
  }

  method ApplyText(budget: ResponseBudget, input: seq<byte>, start: nat) returns (r: Result<Page<byte>, ()>)
    requires WellFormed(input)
    ensures r.Err? <==> start > |input| || !IsCharBoundary(input, start)
    ensures r.Ok? ==> r.value == TextPage(budget, input, start)
  {
    if start > |input| || !IsCharBoundary(input, start) {
      return Err(());
    }
    var remaining := |input| - start;
    if remaining <= budget.maxBytes {
      return Ok(Page(input[start..], None));
    }
    var end := start + budget.maxBytes;
    while end > start && !IsCharBoundary(input, end)
      invariant start <= end <= start + budget.maxBytes
      invariant LastBoundary(input, start, end) == LastBoundary(input, start, start + budget.maxBytes)
    {
      end := end - 1;
    }
    return Ok(Page(input[start..end], Some(end)));
  }

  /** A page is the longest well-formed piece within the budget, and the next one starts where
      it ends, at a boundary. */
  lemma TextPageIsWellFormed(budget: ResponseBudget, input: seq<byte>, start: nat)
    requires WellFormed(input) && start <= |input| && IsCharBoundary(input, start)
    ensures var p := TextPage(budget, input, start);
            && WellFormed(p.content) && |p.content| <= budget.maxBytes
            && (p.continuation.None? ==> p.content == input[start..])
            && (p.continuation.Some? ==>
                  && start <= p.continuation.value < |input| && IsCharBoundary(input, p.continuation.value)
                  && p.content == input[start..p.continuation.value]
                  && forall i | p.continuation.value < i <= start + budget.maxBytes :: !IsCharBoundary(input, i))
  {
    var p := TextPage(budget, input, start);
    var end := if p.continuation.Some? then p.continuation.value else |input|;
    SliceWellFormed(input, start, end);
    assert p.content == input[start..end];
  }

  /** A page makes no progress exactly when the next character is longer than the budget; with
      four bytes or more that never happens. */
  lemma TextPageStalls(budget: ResponseBudget, input: seq<byte>, start: nat)
    requires WellFormed(input) && start <= |input| && IsCharBoundary(input, start)
    ensures TextPage(budget, input, start).continuation == Some(start)
       <==> CharLen(input[start..]) > budget.maxBytes
    ensures budget.maxBytes >= 4 ==> TextPage(budget, input, start).continuation != Some(start)
  {
    if start < |input| {
      NextBoundary(input, start);
    }
  }

  /** A hand-made budget of one byte never gets past a character of two. */
  lemma OneByteStalls()
    ensures WellFormed([0xC3, 0xA9])
    ensures TextPage(ResponseBudget(1, 1), [0xC3, 0xA9], 0) == Page([], Some(0))
  {
    assert CharLen([0xC3, 0xA9]) == 2 && [0xC3, 0xA9][2..] == [];
    TextPageStalls(ResponseBudget(1, 1), [0xC3, 0xA9], 0);
  }

  /** The pages a client gets by following continuations. */
  function TextPages(budget: ResponseBudget, input: seq<byte>, start: nat): (pages: seq<seq<byte>>)
    requires WellFormed(input) && start <= |input| && IsCharBoundary(input, start) && budget.maxBytes >= 4
    decreases |input| - start
  {
    var p := TextPage(budget, input, start);
    if p.continuation.None? then [p.content]
    else
      TextPageIsWellFormed(budget, input, start);
      TextPageStalls(budget, input, start);
      [p.content] + TextPages(budget, input, p.continuation.value)
  }

  function Concat<T>(pages: seq<seq<T>>): seq<T> {
    if pages == [] then [] else pages[0] + Concat(pages[1..])
  }

  lemma ConcatContinues<T>(s: seq<T>, start: nat, next: nat, rest: seq<seq<T>>)
    requires start <= next <= |s| && Concat(rest) == s[next..]
    ensures Concat([s[start..next]] + rest) == s[start..]
  {}

  ghost predicate GoodPage(budget: ResponseBudget, page: seq<byte>) {
    WellFormed(page) && |page| <= budget.maxBytes
  }

  /** Following continuations from any boundary ends, and the pages make up exactly the rest of the input. */
  lemma {:induction false} TextPagesReproduceInput(budget: ResponseBudget, input: seq<byte>, start: nat)
    requires WellFormed(input) && start <= |input| && IsCharBoundary(input, start) && budget.maxBytes >= 4
    ensures Concat(TextPages(budget, input, start)) == input[start..]
    decreases |input| - start
  {
    var p := TextPage(budget, input, start);
    TextPageIsWellFormed(budget, input, start);
    if p.continuation.Some? {
      var next := p.continuation.value;
      TextPageStalls(budget, input, start);
      TextPagesReproduceInput(budget, input, next);
      ConcatContinues(input, start, next, TextPages(budget, input, next));
    } else {
      ConcatContinues(input, start, |input|, []);
    }
  }

  /** Every page on the way is well-formed and within the budget, and only the one page of an
      exhausted input is empty. */
  lemma {:induction false} TextPagesAreGood(budget: ResponseBudget, input: seq<byte>, start: nat)
    requires WellFormed(input) && start <= |input| && IsCharBoundary(input, start) && budget.maxBytes >= 4
    ensures forall page | page in TextPages(budget, input, start) :: GoodPage(budget, page)
    ensures start < |input| ==> [] !in TextPages(budget, input, start)
    decreases |input| - start
  {
    var p := TextPage(budget, input, start);
    TextPageIsWellFormed(budget, input, start);
    assert GoodPage(budget, p.content);
    if p.continuation.Some? {
      TextPageStalls(budget, input, start);
      TextPagesAreGood(budget, input, p.continuation.value);
    }
  }

  // ---------- Items ----------

  function ApplyItems<T>(budget: ResponseBudget, items: seq<T>, start: nat): Result<Page<T>, ()> {
    if start > |items| then Err(())
    else
      var end := if start + budget.maxItems < |items| then start + budget.maxItems else |items|;
      Ok(Page(items[start..end], if end < |items| then Some(end) else None))
  }

  function ItemPages<T>(budget: ResponseBudget, items: seq<T>, start: nat): seq<seq<T>>
    requires start <= |items| && budget.maxItems > 0
    decreases |items| - start
  {
    var p := ApplyItems(budget, items, start).value;
    if p.continuation.None? then [p.content] else [p.content] + ItemPages(budget, items, p.continuation.value)
  }

  /** The same law for items; an item page stalls only under a budget of none. */
  lemma {:induction false} ItemPagesReproduceInput<T>(budget: ResponseBudget, items: seq<T>, start: nat)
    requires start <= |items| && budget.maxItems > 0
    ensures Concat(ItemPages(budget, items, start)) == items[start..]
    ensures forall page | page in ItemPages(budget, items, start) :: |page| <= budget.maxItems
    decreases |items| - start
  {
    var p := ApplyItems(budget, items, start).value;
    if p.continuation.Some? {
      var next := p.continuation.value;
      ItemPagesReproduceInput(budget, items, next);
      ConcatContinues(items, start, next, ItemPages(budget, items, next));
    } else {
      ConcatContinues(items, start, |items|, []);
    }
  }

  lemma ItemPageStalls<T>(budget: ResponseBudget, items: seq<T>, start: nat)
    requires start <= |items|
    ensures ApplyItems(budget, items, start).value.continuation == Some(start)
       <==> budget.maxItems == 0 && start < |items|
  {}

  /** An item page has as many items as the budget allows, and is refused only past the end. */
  lemma ItemPageMeans<T>(budget: ResponseBudget, items: seq<T>, start: nat)
    ensures ApplyItems(budget, items, start).Err? <==> start > |items|
    ensures start <= |items| ==>
              var p := ApplyItems(budget, items, start).value;
              var left := |items| - start;
              if left <= budget.maxItems then p == Page(items[start..], None)
              else p == Page(items[start..start + budget.maxItems], Some(start + budget.maxItems))
  {}

  /** Every response mode's budget is large enough for its pages to advance; each mode allows four
      times the bytes of the one before, starting with 16 KiB. */
  lemma ModesAdvance(mode: ResponseMode)
    ensures ForMode(mode).maxBytes >= 4 && ForMode(mode).maxItems > 0
    ensures ForMode(Compact).maxBytes == 16384
    ensures ForMode(Normal).maxBytes == 4 * ForMode(Compact).maxBytes
    ensures ForMode(Debug).maxBytes == 4 * ForMode(Normal).maxBytes
    ensures ForMode(mode).maxItems == (match mode case Compact => 100 case Normal => 500 case Debug => 2000)
  {}
}
