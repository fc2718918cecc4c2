/** What a plan says, in numbers and commands: which quotes are replaced, which desired quote
    counts, and in which order. */
module PlanMeaning {
  import opened Text
  import opened Units
  import opened Words
  import opened WorkingQuotes
  import opened OrderManager
  import opened PlanProperties

  /** At least the threshold apart, in either direction. */
  predicate FarApart(x: nat, y: nat, threshold: nat) {
    x + threshold <= y || y + threshold <= x
  }

  /** The terms differ enough to matter. */
  predicate Differs(p: Policy, working: DesiredQuote, desired: DesiredQuote) {
    || working.assetId != desired.assetId || working.side != desired.side || working.orderType != desired.orderType
    || FarApart(UnitsOf(working.price), UnitsOf(desired.price), p.minPriceChangeUnits)
    || FarApart(UnitsOf(working.size), UnitsOf(desired.size), p.minSizeChangeUnits)
  }

  /** No command was sent, or the last one is at least a cooldown old; a clock that runs behind
      it counts as no time. */
  predicate Rested(p: Policy, lastCommandMs: Option<nat>, nowMs: nat) {
    lastCommandMs == None || p.replaceCooldownMs == 0 || lastCommandMs.value + p.replaceCooldownMs <= nowMs
  }

  lemma ReplacedExactly(p: Policy, q: Quote, d: DesiredQuote, nowMs: nat)
    ensures NeedsReplace(p, q, d, nowMs) <==> Differs(p, q.terms, d) && Rested(p, q.lastCommandMs, nowMs)
  {
    hide UnitsOf;
  }

  /** The last of several desired quotes with an id, and the last of several working ones. */
  predicate LastDesired(ds: seq<DesiredQuote>, i: nat) {
    i < |ds| && forall j | i < j < |ds| :: ds[j].quoteId != ds[i].quoteId
  }

  predicate LastWorking(ws: seq<Quote>, i: nat) {
    i < |ws| && forall j | i < j < |ws| :: ws[j].Id() != ws[i].Id()
  }

  lemma {:induction false} LastDesiredCounts(ds: seq<DesiredQuote>, i: nat)
    requires LastDesired(ds, i)
    ensures ds[i].quoteId in DesiredById(ds).at && DesiredById(ds).at[ds[i].quoteId] == ds[i]
  {
    var n := |ds| - 1;
    if i < n { LastDesiredCounts(ds[..n], i); }
  }

  lemma {:induction false} LastWorkingCounts(ws: seq<Quote>, i: nat)
    requires LastWorking(ws, i)
    ensures ws[i].Id() in WorkingById(ws).at && WorkingById(ws).at[ws[i].Id()] == ws[i]
  {
    var n := |ws| - 1;
    if i < n { LastWorkingCounts(ws[..n], i); }
  }

  /** A cancelable quote that stays desired is canceled and placed anew exactly when the terms
      differ enough and it has rested; otherwise the plan does not mention it. */
  lemma KeptOrReplaced(p: Policy, ds: seq<DesiredQuote>, ws: seq<Quote>, nowMs: nat, i: nat, k: nat)
    requires Trusted(ws) && LastWorking(ws, i) && LastDesired(ds, k) && ws[i].Id() == ds[k].quoteId
    requires ws[i].Cancelable()
    ensures For(Plan(p, ds, ws, nowMs), ws[i].Id()) ==
            if Differs(p, ws[i].terms, ds[k]) && Rested(p, ws[i].lastCommandMs, nowMs)
            then [Cancel(ws[i].Id()), Place(ds[k])] else []
  {
    hide NeedsReplace, Plan, For, Differs, Rested, WorkingById, DesiredById;
    LastWorkingCounts(ws, i);
    LastDesiredCounts(ds, k);
    PlanForOne(p, ds, ws, nowMs, ws[i].Id());
    ReplacedExactly(p, ws[i], ds[k], nowMs);
  }

  /** A desired quote with no cancelable quote of its id is placed, as it was desired last. */
  lemma PlacedWhenMissing(p: Policy, ds: seq<DesiredQuote>, ws: seq<Quote>, nowMs: nat, k: nat)
    requires Trusted(ws) && LastDesired(ds, k)
    requires forall i: nat | LastWorking(ws, i) && ws[i].Id() == ds[k].quoteId :: !ws[i].Cancelable()
    ensures For(Plan(p, ds, ws, nowMs), ds[k].quoteId) == [Place(ds[k])]
  {
    hide NeedsReplace, Plan, For, WorkingById, DesiredById;
    var id := ds[k].quoteId;
    LastDesiredCounts(ds, k);
    PlanForOne(p, ds, ws, nowMs, id);
    if id in WorkingById(ws).at {
      var i := FindLast(ws, id);
      LastWorkingCounts(ws, i);
    }
  }

  lemma FindLast(ws: seq<Quote>, id: string) returns (i: nat)
    requires id in WorkingById(ws).at
    ensures LastWorking(ws, i) && ws[i].Id() == id
  {
    hide WorkingById;
    WorkingByIdHas(ws, id);
    var k :| 0 <= k < |ws| && ws[k].Id() == id;
    i := LastFrom(ws, k);
  }

  lemma {:induction false} LastFrom(ws: seq<Quote>, k: nat) returns (i: nat)
    requires k < |ws|
    ensures LastWorking(ws, i) && ws[i].Id() == ws[k].Id()
    decreases |ws| - k
  {
    i := k;
    if j: nat :| k < j < |ws| && ws[j].Id() == ws[k].Id() { i := LastFrom(ws, j); }
  }

  /** A quote no longer desired is canceled exactly when it is cancelable: on its own, or with
      everything else when nothing at all is desired. */
  lemma CanceledWhenUnwanted(p: Policy, ds: seq<DesiredQuote>, ws: seq<Quote>, nowMs: nat, i: nat)
    requires Trusted(ws) && LastWorking(ws, i) && forall k | 0 <= k < |ds| :: ds[k].quoteId != ws[i].Id()
    ensures var f := For(Plan(p, ds, ws, nowMs), ws[i].Id());
            if ds == [] && (exists j :: 0 <= j < |ws| && ws[j].Cancelable()) then f == [CancelAll]
            else f == if ws[i].Cancelable() then [Cancel(ws[i].Id())] else []
  {
    hide NeedsReplace, Plan, For, WorkingById, DesiredById;
    LastWorkingCounts(ws, i);
    PlanForOne(p, ds, ws, nowMs, ws[i].Id());
    DesiredByIdHas(ds, ws[i].Id());
  }

  /** With a quote in doubt nothing is planned, whatever is desired. */
  lemma NothingInDoubt(p: Policy, ds: seq<DesiredQuote>, ws: seq<Quote>, nowMs: nat)
    ensures (exists i :: 0 <= i < |ws| && ws[i].state.UnknownOrStale?) ==> Plan(p, ds, ws, nowMs) == []
  {
    hide Cancels, Places;
  }

  // ---- order ----

  function Canceled(cs: seq<Command>): seq<string> {
    if cs == [] then []
    else Canceled(cs[..|cs| - 1]) + if cs[|cs| - 1].Cancel? then [cs[|cs| - 1].quoteId] else []
  }

  function Placed(cs: seq<Command>): seq<string> {
    if cs == [] then []
    else Placed(cs[..|cs| - 1]) + if cs[|cs| - 1].Place? then [cs[|cs| - 1].quote.quoteId] else []
  }

  /** All cancels come before all places. */
  predicate CancelsFirst(cs: seq<Command>) {
    forall i, j | 0 <= i < j < |cs| :: cs[i].Place? ==> cs[j].Place?
  }

  lemma OneMoreNamed(cs: seq<Command>, c: Command)
    ensures Canceled(cs + [c]) == if c.Cancel? then Canceled(cs) + [c.quoteId] else Canceled(cs)
    ensures Placed(cs + [c]) == if c.Place? then Placed(cs) + [c.quote.quoteId] else Placed(cs)
  {
    assert (cs + [c])[..|cs|] == cs;
  }

  /** Names taken from all but the last of an ascending list, and then the last. */
  lemma NextAscends(ids: seq<string>, names: seq<string>)
    requires ids != [] && Ascending(ids) && Ascending(names)
    requires forall x | x in names :: x in ids[..|ids| - 1]
    ensures Ascending(ids[..|ids| - 1]) && Ascending(names + [ids[|ids| - 1]])
    ensures forall x | x in names + [ids[|ids| - 1]] :: x in ids
  {
    hide Lt;
    var n := |ids| - 1;
    forall x | x in names ensures Lt(x, ids[n]) && x in ids {
      var i :| 0 <= i < n && ids[..n][i] == x;
      assert ids[i] == x;
    }
    AppendAscends(names, ids[n]);
  }

  lemma AppendAscends(s: seq<string>, x: string)
    requires Ascending(s) && forall y | y in s :: Lt(y, x)
    ensures Ascending(s + [x])
  {
    hide Lt;
    var r := s + [x];
    forall i, j | 0 <= i < j < |r| ensures Lt(r[i], r[j]) {
      assert r[i] == s[i] && s[i] in s;
      if j < |s| { assert r[j] == s[j]; }
    }
  }

  lemma ButLastAscends(ids: seq<string>)
    requires ids != [] && Ascending(ids)
    ensures Ascending(ids[..|ids| - 1])
  {
    hide Lt;
  }

  lemma {:induction false} CancelsAreOrdered(ids: seq<string>, due: set<string>)
    requires Ascending(ids)
    ensures var cs := Cancels(ids, due);
            && (forall i | 0 <= i < |cs| :: cs[i].Cancel?)
            && Ascending(Canceled(cs)) && Placed(cs) == [] && (forall x | x in Canceled(cs) :: x in ids)
  {
    hide Ascending, Canceled, Placed;
    if ids == [] {
      NothingOrdered();
    } else {
      var n := |ids| - 1;
      ButLastAscends(ids);
      CancelsAreOrdered(ids[..n], due);
      var before := Cancels(ids[..n], due);
      if ids[n] in due {
        OneMoreNamed(before, Cancel(ids[n]));
        assert Cancels(ids, due) == before + [Cancel(ids[n])];
      } else {
        assert Cancels(ids, due) == before + [] == before;
      }
      NextAscends(ids, Canceled(before));
      assert forall x | x in ids[..n] :: x in ids;
    }
  }

  lemma {:induction false} PlacesAreOrdered(ids: seq<string>, due: set<string>, d: map<string, DesiredQuote>)
    requires Ascending(ids) && due <= d.Keys && forall k | k in d :: d[k].quoteId == k
    ensures var cs := Places(ids, due, d);
            && (forall i | 0 <= i < |cs| :: cs[i].Place?)
            && Ascending(Placed(cs)) && Canceled(cs) == [] && (forall x | x in Placed(cs) :: x in ids)
  {
    hide Ascending, Canceled, Placed;
    if ids == [] {
      NothingOrdered();
    } else {
      var n := |ids| - 1;
      ButLastAscends(ids);
      PlacesAreOrdered(ids[..n], due, d);
      var before := Places(ids[..n], due, d);
      if ids[n] in due {
        OneMoreNamed(before, Place(d[ids[n]]));
        assert Places(ids, due, d) == before + [Place(d[ids[n]])];
      } else {
        assert Places(ids, due, d) == before + [] == before;
      }
      NextAscends(ids, Placed(before));
      assert forall x | x in ids[..n] :: x in ids;
    }
  }

  lemma {:induction false} NamedAppend(a: seq<Command>, b: seq<Command>)
    ensures Canceled(a + b) == Canceled(a) + Canceled(b) && Placed(a + b) == Placed(a) + Placed(b)
  {
    hide Canceled, Placed;
    if b == [] {
      NothingOrdered();
      assert a + b == a;
    } else {
      var n := |b| - 1;
      NamedAppend(a, b[..n]);
      OneMoreNamed(a + b[..n], b[n]);
      OneMoreNamed(b[..n], b[n]);
      assert a + b == (a + b[..n]) + [b[n]] && b == b[..n] + [b[n]];
    }
  }

  /** Cancels come first and then places, each once per quote and in ascending order of ids. */
  lemma PlanIsOrdered(p: Policy, ds: seq<DesiredQuote>, ws: seq<Quote>, nowMs: nat)
    ensures var cs := Plan(p, ds, ws, nowMs);
            CancelsFirst(cs) && Ascending(Canceled(cs)) && Ascending(Placed(cs))
  {
    hide NeedsReplace, Ascending, Cancels, Places, Canceled, Placed, WorkingById, DesiredById;
    var w, d := WorkingById(ws), DesiredById(ds);
    NothingOrdered();
    if BlockedIds(ws) == [] && !(ds == [] && AnyCancelable(ws)) {
      var cancels := Cancels(w.keys, CancelSet(p, w.at, d.at, nowMs));
      var places := Places(d.keys, PlaceSet(p, w.at, d.at, nowMs), d.at);
      CancelsAreOrdered(w.keys, CancelSet(p, w.at, d.at, nowMs));
      PlacesAreOrdered(d.keys, PlaceSet(p, w.at, d.at, nowMs), d.at);
      NamedAppend(cancels, places);
      BothOrdered(cancels, places);
    }
  }

  lemma BothOrdered(cancels: seq<Command>, places: seq<Command>)
    requires forall i | 0 <= i < |cancels| :: cancels[i].Cancel?
    requires forall i | 0 <= i < |places| :: places[i].Place?
    requires Canceled(cancels + places) == Canceled(cancels) + Canceled(places) && Canceled(places) == []
    requires Placed(cancels + places) == Placed(cancels) + Placed(places) && Placed(cancels) == []
    ensures CancelsFirst(cancels + places)
    ensures Canceled(cancels + places) == Canceled(cancels) && Placed(cancels + places) == Placed(places)
  {
    hide Canceled, Placed;
  }

  lemma NothingOrdered()
    ensures Canceled([]) == [] && Placed([]) == [] && Ascending([])
    ensures Canceled([CancelAll]) == [] && Placed([CancelAll]) == []
  {
    assert [CancelAll][..0] == [];
  }
}
