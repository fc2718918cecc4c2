/** What a command plan does to each quote: which commands concern it, where the plan leads,
    and when planning again has nothing left to say. */
module PlanProperties {
  import opened Text
  import opened Units
  import opened WorkingQuotes
  import opened OrderManager

  ghost predicate Unique(ws: seq<Quote>) {
    forall i, j | 0 <= i < j < |ws| :: ws[i].Id() != ws[j].Id()
  }

  ghost predicate Trusted(ws: seq<Quote>) {
    forall i | 0 <= i < |ws| :: !ws[i].Blocks()
  }

  /** The working quote with an id. */
  function Mine(ws: seq<Quote>, id: string): Option<Quote> {
    var w := WorkingById(ws).at;
    if id in w then Some(w[id]) else None
  }

  lemma {:induction false} MineAt(ws: seq<Quote>, i: nat)
    requires Unique(ws) && i < |ws|
    ensures Mine(ws, ws[i].Id()) == Some(ws[i])
  {
    var n := |ws| - 1;
    if i < n { MineAt(ws[..n], i); }
  }

  lemma MineFrom(ws: seq<Quote>, id: string) returns (i: nat)
    requires Mine(ws, id).Some?
    ensures i < |ws| && ws[i].Id() == id && Mine(ws, id) == Some(ws[i])
  {
    WorkingByIdHas(ws, id);
    i :| 0 <= i < |ws| && ws[i] == WorkingById(ws).at[id] && ws[i].Id() == id;
  }

  // ---- the commands that concern one quote ----

  predicate Concerns(c: Command, id: string) {
    match c
    case Place(d) => d.quoteId == id
    case Cancel(x) => x == id
    case CancelAll => true
  }

  function For(cs: seq<Command>, id: string): seq<Command> {
    if cs == [] then []
    else if Concerns(cs[|cs| - 1], id) then For(cs[..|cs| - 1], id) + [cs[|cs| - 1]]
    else For(cs[..|cs| - 1], id)
  }

  lemma {:induction false} ForAppend(a: seq<Command>, b: seq<Command>, id: string)
    ensures For(a + b, id) == For(a, id) + For(b, id)
  {
    if b == [] {
      assert a + b == a;
    } else {
      var n := |b| - 1;
      ForAppend(a, b[..n], id);
      assert (a + b)[..|a + b| - 1] == a + b[..n];
    }
  }

  ghost predicate NoRepeats(ids: seq<string>) {
    forall i, j | 0 <= i < j < |ids| :: ids[i] != ids[j]
  }

  lemma AscendingNoRepeats(ids: seq<string>)
    requires Ascending(ids)
    ensures NoRepeats(ids)
  {
  }

  lemma {:induction false} ForCancels(ids: seq<string>, due: set<string>, id: string)
    requires NoRepeats(ids)
    ensures For(Cancels(ids, due), id) == if id in ids && id in due then [Cancel(id)] else []
  {
    hide For;
    if ids == [] {
      ForSingle([], id);
    } else {
      var n := |ids| - 1;
      ForCancels(ids[..n], due, id);
      assert ids == ids[..n] + [ids[n]];
      var last := if ids[n] in due then [Cancel(ids[n])] else [];
      ForAppend(Cancels(ids[..n], due), last, id);
      ForSingle(last, id);
    }
  }

  lemma {:induction false} ForPlaces(ids: seq<string>, due: set<string>, d: map<string, DesiredQuote>, id: string)
    requires NoRepeats(ids) && due <= d.Keys
    requires forall k | k in d :: d[k].quoteId == k
    ensures For(Places(ids, due, d), id) == if id in ids && id in due then [Place(d[id])] else []
  {
    hide For;
    if ids == [] {
      ForSingle([], id);
    } else {
      var n := |ids| - 1;
      ForPlaces(ids[..n], due, d, id);
      assert ids == ids[..n] + [ids[n]];
      var last := if ids[n] in due then [Place(d[ids[n]])] else [];
      ForAppend(Places(ids[..n], due, d), last, id);
      ForSingle(last, id);
    }
  }

  lemma ForSingle(cs: seq<Command>, id: string)
    requires |cs| <= 1
    ensures For(cs, id) == if |cs| == 1 && Concerns(cs[0], id) then cs else []
  {
    if |cs| == 1 {
      assert cs[..0] == [] && cs == [cs[0]];
    }
  }

  /** The whole plan, seen from one quote: nothing while any quote is in doubt, one cancel-all
      when nothing is desired, and otherwise at most a cancel followed by a place. */
  lemma PlanForOne(p: Policy, ds: seq<DesiredQuote>, ws: seq<Quote>, nowMs: nat, id: string)
    ensures var w, d, cs := WorkingById(ws).at, DesiredById(ds).at, For(Plan(p, ds, ws, nowMs), id);
            if !Trusted(ws) then cs == []
            else if ds == [] && AnyCancelable(ws) then cs == [CancelAll]
            else cs == (if CancelDue(p, id, w, d, nowMs) then [Cancel(id)] else [])
                     + (if PlaceDue(p, id, w, d, nowMs) then [Place(d[id])] else [])
  {
    hide For, Cancels, Places, NeedsReplace, WorkingById, DesiredById;
    ForSingle([], id);
    var w, d := WorkingById(ws), DesiredById(ds);
    assert BlockedIds(ws) == [] <==> Trusted(ws);
    if Trusted(ws) && !(ds == [] && AnyCancelable(ws)) {
      var cancels, places := CancelSet(p, w.at, d.at, nowMs), PlaceSet(p, w.at, d.at, nowMs);
      ForAppend(Cancels(w.keys, cancels), Places(d.keys, places, d.at), id);
      AscendingNoRepeats(w.keys);
      AscendingNoRepeats(d.keys);
      ForCancels(w.keys, cancels, id);
      ForPlaces(d.keys, places, d.at, id);
    } else if Trusted(ws) {
      ForSingle([CancelAll], id);
    }
  }

  // ---- where the plan leads ----

  /** The exchange's view of confirmed commands: which quote rests under which id. */
  function Applied(m: map<string, DesiredQuote>, cs: seq<Command>): map<string, DesiredQuote> {
    if cs == [] then m else Apply(Applied(m, cs[..|cs| - 1]), cs[|cs| - 1])
  }

  function Apply(m: map<string, DesiredQuote>, c: Command): map<string, DesiredQuote> {
    match c
    case Place(d) => m[d.quoteId := d]
    case Cancel(id) => m - {id}
    case CancelAll => map[]
  }

  function Resting(m: map<string, DesiredQuote>, id: string): Option<DesiredQuote> {
    if id in m then Some(m[id]) else None
  }

  function Effect(before: Option<DesiredQuote>, c: Command, id: string): Option<DesiredQuote> {
    if !Concerns(c, id) then before else if c.Place? then Some(c.quote) else None
  }

  lemma ApplyForOne(m: map<string, DesiredQuote>, c: Command, id: string)
    ensures Resting(Apply(m, c), id) == Effect(Resting(m, id), c, id)
  {
  }

  /** Only the commands that concern a quote matter to it, and of those the last decides. */
  lemma {:induction false} AppliedForOne(m: map<string, DesiredQuote>, cs: seq<Command>, id: string)
    ensures var mine := For(cs, id);
            Resting(Applied(m, cs), id) ==
            if mine == [] then Resting(m, id) else Effect(None, mine[|mine| - 1], id)
  {
    if cs != [] {
      var n := |cs| - 1;
      AppliedForOne(m, cs[..n], id);
      ApplyForOne(Applied(m, cs[..n]), cs[n], id);
    }
  }

  function CancelableTerms(ws: seq<Quote>): map<string, DesiredQuote> {
    var w := WorkingById(ws).at;
    map id | id in w && w[id].Cancelable() :: w[id].terms
  }

  /** At its desired terms, or left alone because it is not materially different or still
      cooling down. */
  predicate AtRest(p: Policy, q: Option<Quote>, wanted: DesiredQuote, resting: DesiredQuote, nowMs: nat) {
    || resting == wanted
    || (q.Some? && q.value.Cancelable() && resting == q.value.terms && !NeedsReplace(p, q.value, wanted, nowMs))
  }

  /** An unblocked plan converges: exactly the desired ids remain, each at rest. */
  lemma PlanConverges(p: Policy, ds: seq<DesiredQuote>, ws: seq<Quote>, nowMs: nat)
    requires Trusted(ws)
    ensures Applied(CancelableTerms(ws), Plan(p, ds, ws, nowMs)).Keys == DesiredById(ds).at.Keys
    ensures forall id | id in Applied(CancelableTerms(ws), Plan(p, ds, ws, nowMs)) ::
              AtRest(p, Mine(ws, id), DesiredById(ds).at[id],
                     Applied(CancelableTerms(ws), Plan(p, ds, ws, nowMs))[id], nowMs)
  {
    var d, m := DesiredById(ds).at, CancelableTerms(ws);
    var after := Applied(m, Plan(p, ds, ws, nowMs));
    forall id
      ensures id in after <==> id in d
      ensures id in after ==> AtRest(p, Mine(ws, id), d[id], after[id], nowMs)
    {
      PlanConvergesForOne(p, ds, ws, nowMs, id);
    }
  }

  lemma PlanConvergesForOne(p: Policy, ds: seq<DesiredQuote>, ws: seq<Quote>, nowMs: nat, id: string)
    requires Trusted(ws)
    ensures var d, after := DesiredById(ds).at, Resting(Applied(CancelableTerms(ws), Plan(p, ds, ws, nowMs)), id);
            && (after.Some? <==> id in d)
            && (after.Some? ==> AtRest(p, Mine(ws, id), d[id], after.value, nowMs))
  {
    hide NeedsReplace, Plan, For, WorkingById, DesiredById, Applied;
    var plan := Plan(p, ds, ws, nowMs);
    PlanForOne(p, ds, ws, nowMs, id);
    DesiredByIdHas(ds, id);
    AppliedForOne(CancelableTerms(ws), plan, id);
  }

  // ---- carrying the plan out on the working set ----

  /** What sending one command does locally: a placed quote is tracked as a fresh submission,
      a canceled one waits for its confirmation. */
  function SentOne(q: Quote, c: Command, nowMs: nat): Quote {
    match c
    case Place(d) => if d.quoteId == q.Id() then Submitted(d, nowMs) else q
    case Cancel(x) => if x == q.Id() then CancelSent(q, nowMs) else q
    case CancelAll => if q.Cancelable() then CancelSent(q, nowMs) else q
  }

  function Send(ws: seq<Quote>, c: Command, nowMs: nat): (r: seq<Quote>)
    ensures |ws| <= |r| && forall i | 0 <= i < |ws| :: r[i] == SentOne(ws[i], c, nowMs)
  {
    var kept := seq(|ws|, i requires 0 <= i < |ws| => SentOne(ws[i], c, nowMs));
    if c.Place? && Mine(ws, c.quote.quoteId).None? then kept + [Submitted(c.quote, nowMs)] else kept
  }

  function SendAll(ws: seq<Quote>, cs: seq<Command>, nowMs: nat): seq<Quote> {
    if cs == [] then ws else Send(SendAll(ws, cs[..|cs| - 1], nowMs), cs[|cs| - 1], nowMs)
  }

  /** The same, seen from one id. */
  function SentFor(q: Option<Quote>, c: Command, nowMs: nat, id: string): Option<Quote> {
    if c.Place? && c.quote.quoteId == id then Some(Submitted(c.quote, nowMs))
    else if q.Some? then Some(SentOne(q.value, c, nowMs))
    else None
  }

  lemma MineNone(ws: seq<Quote>, id: string)
    ensures Mine(ws, id).None? <==> forall i | 0 <= i < |ws| :: ws[i].Id() != id
  {
    WorkingByIdHas(ws, id);
  }

  lemma SendKeepsUnique(ws: seq<Quote>, c: Command, nowMs: nat)
    requires Unique(ws)
    ensures Unique(Send(ws, c, nowMs))
  {
    if c.Place? { MineNone(ws, c.quote.quoteId); }
  }

  lemma SendForOne(ws: seq<Quote>, c: Command, nowMs: nat, id: string)
    requires Unique(ws)
    ensures Mine(Send(ws, c, nowMs), id) == SentFor(Mine(ws, id), c, nowMs, id)
  {
    var r := Send(ws, c, nowMs);
    SendKeepsUnique(ws, c, nowMs);
    MineNone(ws, id);
    MineNone(r, id);
    if Mine(ws, id).Some? {
      var i := MineFrom(ws, id);
      MineAt(r, i);
    } else if Mine(r, id).Some? {
      var i := MineFrom(r, id);
      assert i < |ws| ==> r[i].Id() == ws[i].Id();
    }
  }

  /** Commands about other quotes leave a quote alone; of its own, applied in order. */
  function SentAllFor(q: Option<Quote>, cs: seq<Command>, nowMs: nat, id: string): Option<Quote> {
    if cs == [] then q else SentFor(SentAllFor(q, cs[..|cs| - 1], nowMs, id), cs[|cs| - 1], nowMs, id)
  }

  lemma SentForOther(q: Option<Quote>, c: Command, nowMs: nat, id: string)
    requires q.Some? ==> q.value.Id() == id
    ensures !Concerns(c, id) ==> SentFor(q, c, nowMs, id) == q
    ensures SentFor(q, c, nowMs, id).Some? ==> SentFor(q, c, nowMs, id).value.Id() == id
  {
  }

  lemma SentAllSnoc(q: Option<Quote>, f: seq<Command>, c: Command, nowMs: nat, id: string)
    ensures SentAllFor(q, f + [c], nowMs, id) == SentFor(SentAllFor(q, f, nowMs, id), c, nowMs, id)
  {
    assert (f + [c])[..|f|] == f;
  }

  lemma {:induction false} SendAllKeepsUnique(ws: seq<Quote>, cs: seq<Command>, nowMs: nat)
    requires Unique(ws)
    ensures Unique(SendAll(ws, cs, nowMs))
  {
    if cs != [] {
      SendAllKeepsUnique(ws, cs[..|cs| - 1], nowMs);
      SendKeepsUnique(SendAll(ws, cs[..|cs| - 1], nowMs), cs[|cs| - 1], nowMs);
    }
  }

  /** Only the commands that concern a quote change it. */
  lemma {:induction false} SendAllForOne(ws: seq<Quote>, cs: seq<Command>, nowMs: nat, id: string)
    requires Unique(ws)
    ensures Mine(SendAll(ws, cs, nowMs), id) == SentAllFor(Mine(ws, id), For(cs, id), nowMs, id)
  {
    if cs != [] {
      var n := |cs| - 1;
      var before, f, c := SendAll(ws, cs[..n], nowMs), For(cs[..n], id), cs[n];
      SendAllForOne(ws, cs[..n], nowMs, id);
      SendAllKeepsUnique(ws, cs[..n], nowMs);
      SendForOne(before, c, nowMs, id);
      MineHasId(before, id);
      SentForOther(Mine(before, id), c, nowMs, id);
      SentAllSnoc(Mine(ws, id), f, c, nowMs, id);
    }
  }

  lemma MineHasId(ws: seq<Quote>, id: string)
    ensures Mine(ws, id).Some? ==> Mine(ws, id).value.Id() == id
  {
    if Mine(ws, id).Some? { var i := MineFrom(ws, id); }
  }
}
