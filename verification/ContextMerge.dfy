/** Analytics contexts and their layered merge. */
module ContextMerge {
  import opened Common
  import opened Payloads

  type Attributes = map<string, Json>

  datatype AnalyticsContext = AnalyticsContext(userID: string, anonymousID: string, attributes: Attributes)

  const EMPTY := AnalyticsContext("", "", map[])

  function Prefer(base: string, override: string): string {
    if override != "" then override else base
  }

  function Merge(base: AnalyticsContext, override: AnalyticsContext): AnalyticsContext {
    AnalyticsContext(
      Prefer(base.userID, override.userID),
      Prefer(base.anonymousID, override.anonymousID),
      base.attributes + override.attributes)
  }

  // -------------------------------------------------------- the source's loops

  /** Copies `from` into `into`, key by key in whatever order the keys come. */
  method CopyInto(into: Attributes, from: Attributes) returns (r: Attributes)
    ensures r == into + from
  {
    r := into;
    var todo := from.Keys;
    while todo != {}
      invariant todo <= from.Keys
      invariant r.Keys == into.Keys + (from.Keys - todo)
      invariant forall k :: k in r ==> r[k] == if k in from && k !in todo then from[k] else into[k]
      decreases |todo|
    {
      var k :| k in todo;
      r := r[k := from[k]];
      todo := todo - {k};
    }
  }

  method MergeAttributes(base: Attributes, override: Attributes) returns (r: Attributes)
    ensures r == base + override
  {
    r := CopyInto(map[], base);
    assert map[] + base == base;
    r := CopyInto(r, override);
  }

  method MergeContexts(base: AnalyticsContext, override: AnalyticsContext) returns (result: AnalyticsContext)
    ensures result == Merge(base, override)
  {
    result := AnalyticsContext(base.userID, base.anonymousID, map[]);
    assert |base.attributes| == 0 && |override.attributes| == 0 ==> base.attributes + override.attributes == map[];
    if override.userID != "" {
      result := result.(userID := override.userID);
    }
    if override.anonymousID != "" {
      result := result.(anonymousID := override.anonymousID);
    }
    if |base.attributes| > 0 || |override.attributes| > 0 {
      var merged := MergeAttributes(base.attributes, override.attributes);
      result := result.(attributes := merged);
    }
  }

  /** The server's merge of a batch context and a per-item context. */
  method MergeEventContext(base: AnalyticsContext, override: AnalyticsContext) returns (result: AnalyticsContext)
    ensures result == Merge(base, override)
  {
    result := base;
    assert |override.attributes| == 0 ==> base.attributes + override.attributes == base.attributes;
    if override.userID != "" {
      result := result.(userID := override.userID);
    }
    if override.anonymousID != "" {
      result := result.(anonymousID := override.anonymousID);
    }
    if |override.attributes| > 0 {
      var merged := MergeAttributes(base.attributes, override.attributes);
      result := result.(attributes := merged);
    }
  }

  // ------------------------------------------------------------------- monoid

  lemma MergeIsAMonoid(a: AnalyticsContext, b: AnalyticsContext, c: AnalyticsContext)
    ensures Merge(Merge(a, b), c) == Merge(a, Merge(b, c))
    ensures Merge(EMPTY, a) == a && Merge(a, EMPTY) == a
  {
    assert (a.attributes + b.attributes) + c.attributes == a.attributes + (b.attributes + c.attributes);
  }

  /** A chain of contexts, lowest precedence first. */
  function MergeAll(levels: seq<AnalyticsContext>): AnalyticsContext {
    if levels == [] then EMPTY else Merge(MergeAll(levels[..|levels| - 1]), levels[|levels| - 1])
  }

  lemma {:induction false} MergeAllJoins(a: seq<AnalyticsContext>, b: seq<AnalyticsContext>)
    ensures MergeAll(a + b) == Merge(MergeAll(a), MergeAll(b))
    decreases |b|
  {
    if b == [] {
      assert a + b == a;
      MergeIsAMonoid(MergeAll(a), EMPTY, EMPTY);
    } else {
      var front, last := b[..|b| - 1], b[|b| - 1];
      assert (a + b)[..|a + b| - 1] == a + front;
      MergeAllJoins(a, front);
      MergeIsAMonoid(MergeAll(a), MergeAll(front), last);
    }
  }

  // ------------------------------------------------- the meaning of a chain

  /** x is the last non-empty of the ids, or empty when all of them are. */
  ghost predicate LastNonEmpty(ids: seq<string>, x: string) {
    if x == "" then forall i :: 0 <= i < |ids| ==> ids[i] == ""
    else exists i :: 0 <= i < |ids| && ids[i] == x && forall j :: i < j < |ids| ==> ids[j] == ""
  }

  ghost predicate BoundAt(levels: seq<AnalyticsContext>, i: int, k: string) {
    0 <= i < |levels| && k in levels[i].attributes
  }

  /** v is what the last level that binds k gives it. */
  ghost predicate LastBinding(levels: seq<AnalyticsContext>, k: string, v: Json) {
    exists i :: BoundAt(levels, i, k) && levels[i].attributes[k] == v && forall j :: i < j ==> !BoundAt(levels, j, k)
  }

  function UserIDs(levels: seq<AnalyticsContext>): seq<string> {
    seq(|levels|, i requires 0 <= i < |levels| => levels[i].userID)
  }

  function AnonymousIDs(levels: seq<AnalyticsContext>): seq<string> {
    seq(|levels|, i requires 0 <= i < |levels| => levels[i].anonymousID)
  }

  lemma LastNonEmptySnoc(ids: seq<string>, x: string, id: string)
    requires LastNonEmpty(ids, x)
    ensures LastNonEmpty(ids + [id], Prefer(x, id))
  {
    var all := ids + [id];
    if id != "" {
      assert all[|ids|] == id;
    } else if x != "" {
      var i :| 0 <= i < |ids| && ids[i] == x && forall j :: i < j < |ids| ==> ids[j] == "";
      assert all[i] == x;
    }
  }

  lemma LastBindingSnoc(levels: seq<AnalyticsContext>, last: AnalyticsContext, k: string, v: Json)
    requires k in last.attributes ==> v == last.attributes[k]
    requires k !in last.attributes ==> LastBinding(levels, k, v)
    ensures LastBinding(levels + [last], k, v)
  {
    var all := levels + [last];
    if k in last.attributes {
      assert BoundAt(all, |levels|, k) && forall j :: |levels| < j ==> !BoundAt(all, j, k);
    } else {
      var i :| BoundAt(levels, i, k) && levels[i].attributes[k] == v && forall j :: i < j ==> !BoundAt(levels, j, k);
      assert forall j :: BoundAt(all, j, k) <==> BoundAt(levels, j, k);
      assert BoundAt(all, i, k) && all[i].attributes[k] == v;
    }
  }

  lemma UnboundSnoc(levels: seq<AnalyticsContext>, last: AnalyticsContext, k: string)
    requires k !in last.attributes && forall i :: !BoundAt(levels, i, k)
    ensures forall i :: !BoundAt(levels + [last], i, k)
  {
    forall i ensures !BoundAt(levels + [last], i, k) {
      assert !BoundAt(levels, i, k);
    }
  }

  /** A chain of any length: per id the last non-empty wins; per attribute key the
      last level that has it. */
  lemma {:induction false} ChainMeaning(levels: seq<AnalyticsContext>)
    ensures LastNonEmpty(UserIDs(levels), MergeAll(levels).userID)
    ensures LastNonEmpty(AnonymousIDs(levels), MergeAll(levels).anonymousID)
    ensures forall k :: k in MergeAll(levels).attributes ==> LastBinding(levels, k, MergeAll(levels).attributes[k])
    ensures forall k, i :: k !in MergeAll(levels).attributes ==> !BoundAt(levels, i, k)
    decreases |levels|
  {
    if levels != [] {
      var front, last := levels[..|levels| - 1], levels[|levels| - 1];
      assert levels == front + [last];
      ChainMeaning(front);
      var m := MergeAll(front);
      assert UserIDs(levels) == UserIDs(front) + [last.userID];
      LastNonEmptySnoc(UserIDs(front), m.userID, last.userID);
      assert AnonymousIDs(levels) == AnonymousIDs(front) + [last.anonymousID];
      LastNonEmptySnoc(AnonymousIDs(front), m.anonymousID, last.anonymousID);
      var all := MergeAll(levels).attributes;
      forall k | k in all ensures LastBinding(levels, k, all[k]) {
        LastBindingSnoc(front, last, k, all[k]);
      }
      forall k | k !in all ensures forall i :: !BoundAt(levels, i, k) {
        UnboundSnoc(front, last, k);
      }
    }
  }

  // ------------------------------------------------------- the client's chain

  function Present(level: Option<AnalyticsContext>): seq<AnalyticsContext> {
    if level.Some? then [level.value] else []
  }

  /** The levels of one dispatch, lowest precedence first: global, request
      transaction, explicit transaction, client, invocation. */
  function Levels(
    global: AnalyticsContext, request: Option<AnalyticsContext>, transaction: Option<AnalyticsContext>,
    client: AnalyticsContext, invocation: Option<AnalyticsContext>
  ): seq<AnalyticsContext> {
    [global] + Present(request) + Present(transaction) + [client] + Present(invocation)
  }

  method MergeContextChain(
    global: AnalyticsContext, request: Option<AnalyticsContext>, transaction: Option<AnalyticsContext>,
    client: AnalyticsContext, invocation: Option<AnalyticsContext>
  ) returns (result: AnalyticsContext)
    ensures result == MergeAll(Levels(global, request, transaction, client, invocation))
  {
    result := global;
    ghost var done := [global];
    MergeIsAMonoid(global, EMPTY, EMPTY);
    MergeSnoc([], global);
    assert [] + [global] == done;
    MergePresent(done, request);
    if request.Some? {
      result := MergeContexts(result, request.value);
    }
    done := done + Present(request);
    MergePresent(done, transaction);
    if transaction.Some? {
      result := MergeContexts(result, transaction.value);
    }
    done := done + Present(transaction);
    MergeSnoc(done, client);
    result := MergeContexts(result, client);
    done := done + [client];
    MergePresent(done, invocation);
    if invocation.Some? {
      result := MergeContexts(result, invocation.value);
    }
  }

  lemma MergePresent(levels: seq<AnalyticsContext>, level: Option<AnalyticsContext>)
    ensures MergeAll(levels + Present(level)) ==
      if level.Some? then Merge(MergeAll(levels), level.value) else MergeAll(levels)
  {
    if level.Some? {
      MergeSnoc(levels, level.value);
    } else {
      assert levels + [] == levels;
    }
  }

  lemma MergeSnoc(levels: seq<AnalyticsContext>, last: AnalyticsContext)
    ensures MergeAll(levels + [last]) == Merge(MergeAll(levels), last)
  {
    assert (levels + [last])[..|levels|] == levels;
  }

  /** Merging batch and item first and overriding with the result is adding the batch
      and the item as two successive levels. */
  lemma BatchIsTwoLevels(
    global: AnalyticsContext, request: Option<AnalyticsContext>, transaction: Option<AnalyticsContext>,
    client: AnalyticsContext, batch: AnalyticsContext, item: AnalyticsContext)
    ensures MergeAll(Levels(global, request, transaction, client, Some(Merge(batch, item))))
      == MergeAll(Levels(global, request, transaction, client, None) + [batch, item])
  {
    var base := Levels(global, request, transaction, client, None);
    assert Levels(global, request, transaction, client, Some(Merge(batch, item))) == base + [Merge(batch, item)];
    MergeSnoc(base, Merge(batch, item));
    assert base + [batch, item] == (base + [batch]) + [item];
    MergeSnoc(base + [batch], item);
    MergeSnoc(base, batch);
    MergeIsAMonoid(MergeAll(base), batch, item);
  }

  /** The precedence of one dispatch, level by level: invocation over client over explicit
      transaction over request transaction over global. */
  lemma FiveLevels(
    global: AnalyticsContext, request: AnalyticsContext, transaction: AnalyticsContext,
    client: AnalyticsContext, invocation: AnalyticsContext, k: string)
    ensures var m := MergeAll(Levels(global, Some(request), Some(transaction), client, Some(invocation)));
      && m.userID == (if invocation.userID != "" then invocation.userID
                      else if client.userID != "" then client.userID
                      else if transaction.userID != "" then transaction.userID
                      else if request.userID != "" then request.userID
                      else global.userID)
      && m.anonymousID == (if invocation.anonymousID != "" then invocation.anonymousID
                           else if client.anonymousID != "" then client.anonymousID
                           else if transaction.anonymousID != "" then transaction.anonymousID
                           else if request.anonymousID != "" then request.anonymousID
                           else global.anonymousID)
      && (k in invocation.attributes ==> Bound(m, k, invocation.attributes[k]))
      && (k !in invocation.attributes && k in client.attributes ==> Bound(m, k, client.attributes[k]))
      && (k !in invocation.attributes && k !in client.attributes ==>
            && (k in transaction.attributes ==> Bound(m, k, transaction.attributes[k]))
            && (k !in transaction.attributes && k in request.attributes ==> Bound(m, k, request.attributes[k]))
            && (k !in transaction.attributes && k !in request.attributes ==>
                  if k in global.attributes then Bound(m, k, global.attributes[k]) else k !in m.attributes))
  {
    MergeIsAMonoid(global, EMPTY, EMPTY);
    MergeSnoc([], global);
    MergeSnoc([global], request);
    MergeSnoc([global, request], transaction);
    MergeSnoc([global, request, transaction], client);
    MergeSnoc([global, request, transaction, client], invocation);
    assert [] + [global] == [global] && [global] + [request] == [global, request];
    assert Levels(global, Some(request), Some(transaction), client, Some(invocation))
      == [global, request, transaction, client] + [invocation];
  }

  /** A level that is absent changes nothing: it is as if it were there and empty. */
  lemma AbsentLevels(
    global: AnalyticsContext, request: Option<AnalyticsContext>, transaction: Option<AnalyticsContext>,
    client: AnalyticsContext, invocation: Option<AnalyticsContext>)
    ensures MergeAll(Levels(global, request, transaction, client, invocation))
      == MergeAll(Levels(global, Some(OrEmpty(request)), Some(OrEmpty(transaction)), client, Some(OrEmpty(invocation))))
  {
    SameWithEmpty([global], request, [global]);
    SameWithEmpty([global] + Present(request), transaction, [global] + [OrEmpty(request)]);
    var a := [global] + Present(request) + Present(transaction);
    var b := [global] + [OrEmpty(request)] + [OrEmpty(transaction)];
    MergeSnoc(a, client);
    MergeSnoc(b, client);
    SameWithEmpty(a + [client], invocation, b + [client]);
  }

  function OrEmpty(level: Option<AnalyticsContext>): AnalyticsContext {
    if level.Some? then level.value else EMPTY
  }

  lemma SameWithEmpty(a: seq<AnalyticsContext>, level: Option<AnalyticsContext>, b: seq<AnalyticsContext>)
    requires MergeAll(a) == MergeAll(b)
    ensures MergeAll(a + Present(level)) == MergeAll(b + [OrEmpty(level)])
  {
    MergePresent(a, level);
    MergeSnoc(b, OrEmpty(level));
    MergeIsAMonoid(MergeAll(b), EMPTY, EMPTY);
  }

  predicate Bound(m: AnalyticsContext, k: string, v: Json) {
    k in m.attributes && m.attributes[k] == v
  }
}
