/** The feed manager, its own list of assets, its order book store and its client. */
module FeedManager {
  import opened Text
  import opened SubscriptionPlan
  import opened WsSession

  /** The manager's list, the assets its store has books for, and the client's desired set. */
  datatype Feed = Feed(assetIds: seq<string>, books: set<string>, desired: seq<string>)

  function Reconfigured(c: Config, f: Feed, assetIds: seq<string>): Feed {
    var desired := Collect(assetIds);
    var next := Assigned(desired, c);
    if Elems(f.assetIds) == Elems(next) then f
    else Feed(next, f.books - (Elems(f.assetIds) - Elems(next)), desired)
  }

  function InitialFeed(c: Config, assetIds: seq<string>): Feed {
    Feed(Assigned(Collect(assetIds), c), {}, Collect(assetIds))
  }

  /** A message stores a book for any asset. */
  datatype Event = Reconfigure(assetIds: seq<string>) | Book(assetId: string)

  function Happened(c: Config, f: Feed, e: Event): Feed {
    match e
    case Reconfigure(assetIds) => Reconfigured(c, f, assetIds)
    case Book(assetId) => f.(books := f.books + {assetId})
  }

  function After(c: Config, f: Feed, es: seq<Event>): Feed {
    if es == [] then f else Happened(c, After(c, f, es[..|es| - 1]), es[|es| - 1])
  }

  /** The set most recently asked for. */
  function Asked(first: seq<string>, es: seq<Event>): seq<string> {
    if es == [] then Collect(first)
    else if es[|es| - 1].Reconfigure? then Collect(es[|es| - 1].assetIds)
    else Asked(first, es[..|es| - 1])
  }

  /** Over any sequence of reconfigurations the manager's list is the client's assigned list and
      is the shard of what was last asked for, even though a request that leaves the shard alone
      never reaches the client. */
  lemma {:induction false} ManagerAgreesWithClient(c: Config, first: seq<string>, es: seq<Event>)
    ensures var f := After(c, InitialFeed(c, first), es);
            && f.assetIds == Assigned(f.desired, c)
            && f.assetIds == Assigned(Asked(first, es), c)
            && Ascending(f.desired)
  {
    hide Assigned, Ascending;
    CollectAscends(first);
    if es != [] {
      var n := |es| - 1;
      ManagerAgreesWithClient(c, first, es[..n]);
      if es[n].Reconfigure? {
        var f, desired := After(c, InitialFeed(c, first), es[..n]), Collect(es[n].assetIds);
        CollectAscends(es[n].assetIds);
        AssignedAscends(f.desired, c);
        AssignedAscends(desired, c);
        if Elems(f.assetIds) == Elems(Assigned(desired, c)) {
          SameElems(f.assetIds, Assigned(desired, c));
        }
      }
    }
  }

  lemma SameElems(a: seq<string>, b: seq<string>)
    requires Ascending(a) && Ascending(b) && Elems(a) == Elems(b)
    ensures a == b
  {
    assert forall x :: x in a <==> x in Elems(a);
    assert forall x :: x in b <==> x in Elems(b);
    AscendingUnique(a, b);
  }

  /** The event at a position is a request that removes an asset from the shard. */
  predicate Removes(c: Config, first: seq<string>, es: seq<Event>, j: nat, x: string)
    requires j < |es|
  {
    && es[j].Reconfigure?
    && x in Assigned(Asked(first, es[..j]), c) && x !in Assigned(Collect(es[j].assetIds), c)
  }

  /** A book stored at a position and not removed since. */
  ghost predicate StoredAt(c: Config, first: seq<string>, es: seq<Event>, i: nat, x: string)
    requires i < |es|
  {
    es[i] == Book(x) && forall j | i < j < |es| :: !Removes(c, first, es, j, x)
  }

  lemma StoredAtPrefix(c: Config, first: seq<string>, es: seq<Event>, i: nat, x: string)
    requires i < |es| - 1
    ensures StoredAt(c, first, es, i, x) <==>
            StoredAt(c, first, es[..|es| - 1], i, x) && !Removes(c, first, es, |es| - 1, x)
  {
    hide Assigned, Asked;
    var before := es[..|es| - 1];
    forall j | i < j < |before| ensures Removes(c, first, before, j, x) <==> Removes(c, first, es, j, x) {
      assert before[..j] == es[..j];
    }
  }

  /** Over any run a book stands exactly when it was stored after its asset was last removed. */
  lemma {:induction false} BooksOutliveRemovals(c: Config, first: seq<string>, es: seq<Event>, x: string)
    ensures x in After(c, InitialFeed(c, first), es).books <==>
            exists i :: 0 <= i < |es| && StoredAt(c, first, es, i, x)
  {
    hide StoredAt, Removes, Happened, After;
    if es == [] {
      NothingStored(c, first);
    } else {
      var n := |es| - 1;
      BooksOutliveRemovals(c, first, es[..n], x);
      LastEvent(c, first, es, x);
      if i :| 0 <= i < n && StoredAt(c, first, es[..n], i, x) { StoredAtPrefix(c, first, es, i, x); }
      if i :| 0 <= i < |es| && StoredAt(c, first, es, i, x) {
        if i < n { StoredAtPrefix(c, first, es, i, x); } else { StoredLast(c, first, es, x); }
      }
      StoredLast(c, first, es, x);
    }
  }

  lemma NothingStored(c: Config, first: seq<string>)
    ensures After(c, InitialFeed(c, first), []).books == {}
  {
  }

  lemma StoredLast(c: Config, first: seq<string>, es: seq<Event>, x: string)
    requires es != []
    ensures StoredAt(c, first, es, |es| - 1, x) <==> es[|es| - 1] == Book(x)
  {
    hide Assigned, Asked;
  }

  lemma LastEvent(c: Config, first: seq<string>, es: seq<Event>, x: string)
    requires es != []
    ensures var before := After(c, InitialFeed(c, first), es[..|es| - 1]);
            x in After(c, InitialFeed(c, first), es).books <==>
            es[|es| - 1] == Book(x) || (x in before.books && !Removes(c, first, es, |es| - 1, x))
  {
    hide Assigned, Ascending, Asked;
    ManagerAgreesWithClient(c, first, es[..|es| - 1]);
  }

  class PolymarketFeedManager {
    const planner: Config
    const wsClient: WsClient
    var assetIds: seq<string>
    var books: set<string>

    ghost predicate Valid()
      reads this, wsClient
    {
      wsClient.Valid() && wsClient.config == planner
    }

    function View(): Feed
      reads this, wsClient
    {
      Feed(assetIds, books, wsClient.desiredAssetIds)
    }

    constructor (ids: seq<string>, planner: Config)
      ensures Valid() && fresh(wsClient) && this.planner == planner
      ensures View() == InitialFeed(planner, ids)
    {
      var desired := Collect(ids);
      var next := AssignedAssetIds(desired, planner);
      var client := new WsClient(desired, planner);
      CollectAgain(ids);
      this.planner, wsClient, assetIds, books := planner, client, next, {};
    }

    method ReconfigureAssets(ids: seq<string>) returns (changed: bool)
      requires Valid()
      modifies this, wsClient
      ensures Valid()
      ensures View() == Reconfigured(planner, old(View()), ids)
      ensures changed <==> Elems(old(assetIds)) != Elems(assetIds)
      ensures !changed ==> unchanged(wsClient)
    {
      hide Plan, Assigned, Ascending, Lt, Minus, Collect;
      var desired := Collect(ids);
      var next := AssignedAssetIds(desired, planner);
      if Elems(assetIds) == Elems(next) { return false; }
      var removes := PlanDiff(assetIds, next).removes;
      for i := 0 to |removes|
        invariant books == old(books) - Elems(removes[..i])
        invariant assetIds == old(assetIds) && unchanged(wsClient)
      {
        assert removes[..i + 1] == removes[..i] + [removes[i]];
        books := books - {removes[i]};
      }
      assert removes[..|removes|] == removes;
      assert Elems(removes) == Elems(assetIds) - Elems(next);
      assetIds := next;
      CollectAgain(ids);
      var commands := wsClient.ReconfigureAssets(desired);
      changed := true;
    }
  }

  /** The manager hands its client the already ordered set; collecting it again is harmless. */
  lemma CollectAgain(v: seq<string>)
    ensures Collect(Collect(v)) == Collect(v)
  {
    AscendingUnique(Collect(Collect(v)), Collect(v));
  }
}
