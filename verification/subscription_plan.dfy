/** Planning websocket subscriptions: sharding, diffing and batching. Ordered sets are their
    ascending sequences. */
module SubscriptionPlan {
  import opened Rounds
  import opened Text

  datatype Operation = Subscribe | Unsubscribe

  datatype Command = Command(operation: Operation, assetIds: seq<string>, shardIndex: nat, pacingMs: nat)

  datatype Config = Config(maxBatchSize: nat, pacingMs: nat, shardCount: nat, shardIndex: nat) {
    function Shards(): (n: nat)
      ensures n >= 1
    {
      if shardCount >= 1 then shardCount else 1
    }

    function Shard(): (i: nat)
      ensures i < Shards()
    {
      if shardIndex < Shards() then shardIndex else Shards() - 1
    }

    function Batch(): (k: nat)
      ensures k >= 1
    {
      if maxBatchSize >= 1 then maxBatchSize else 1
    }
  }

  function Elems(s: seq<string>): set<string> {
    set x | x in s
  }

  // ---- diffs ----

  datatype Diff = Diff(adds: seq<string>, removes: seq<string>, kept: seq<string>)

  function Minus(a: seq<string>, b: seq<string>): (r: seq<string>)
    ensures forall x :: x in r <==> x in a && x !in b
  {
    if a == [] then []
    else
      assert a == a[..|a| - 1] + [a[|a| - 1]];
      Minus(a[..|a| - 1], b) + (if a[|a| - 1] in b then [] else [a[|a| - 1]])
  }

  function PlanDiff(current: seq<string>, desired: seq<string>): Diff {
    Diff(Minus(desired, current), Minus(current, desired), Minus(current, Minus(current, desired)))
  }

  /** What is new, what is gone and what stays, each in order. */
  lemma DiffExactly(current: seq<string>, desired: seq<string>, x: string)
    requires Ascending(current) && Ascending(desired)
    ensures var d := PlanDiff(current, desired);
            && (x in d.adds <==> x in desired && x !in current)
            && (x in d.removes <==> x in current && x !in desired)
            && (x in d.kept <==> x in current && x in desired)
            && Ascending(d.adds) && Ascending(d.removes) && Ascending(d.kept)
  {
    MinusAscends(desired, current);
    MinusAscends(current, desired);
    MinusAscends(current, Minus(current, desired));
  }

  lemma {:induction false} MinusAscends(a: seq<string>, b: seq<string>)
    requires Ascending(a)
    ensures Ascending(Minus(a, b))
  {
    hide Lt;
    if a != [] {
      var n := |a| - 1;
      MinusAscends(a[..n], b);
      var r := Minus(a[..n], b);
      forall i | 0 <= i < |r| ensures Lt(r[i], a[n]) {
        assert r[i] in r;
        var j :| 0 <= j < n && a[..n][j] == r[i];
        assert a[j] == r[i];
      }
    }
  }

  // ---- shards ----

  /** Every n-th id, starting with the i-th. */
  function Shard(s: seq<string>, n: nat, i: nat): seq<string>
    requires n >= 1
  {
    if s == [] then []
    else if (|s| - 1) % n == i then Shard(s[..|s| - 1], n, i) + [s[|s| - 1]]
    else Shard(s[..|s| - 1], n, i)
  }

  method AssignShards(desired: seq<string>, shardCount: nat) returns (shards: seq<seq<string>>)
    ensures var n := if shardCount >= 1 then shardCount else 1;
            |shards| == n && forall i | 0 <= i < n :: shards[i] == Shard(desired, n, i)
  {
    var n := if shardCount >= 1 then shardCount else 1;
    shards := seq(n, _ => []);
    for index := 0 to |desired|
      invariant |shards| == n
      invariant forall i | 0 <= i < n :: shards[i] == Shard(desired[..index], n, i)
    {
      var next := desired[..index + 1];
      assert next[..index] == desired[..index] && next[index] == desired[index];
      shards := shards[index % n := shards[index % n] + [desired[index]]];
    }
    assert desired[..|desired|] == desired;
  }

  function Assigned(desired: seq<string>, c: Config): seq<string> {
    Shard(desired, c.Shards(), c.Shard())
  }

  method AssignedAssetIds(desired: seq<string>, c: Config) returns (ids: seq<string>)
    ensures ids == Assigned(desired, c)
  {
    var shards := AssignShards(desired, c.Shards());
    ids := shards[c.Shard()];
  }

  /** A shard holds exactly the ids at its residues, in their order. */
  lemma {:induction false} ShardMembers(s: seq<string>, n: nat, i: nat, x: string)
    requires n >= 1
    ensures x in Shard(s, n, i) <==> exists k :: 0 <= k < |s| && k % n == i && s[k] == x
  {
    if s != [] {
      var m := |s| - 1;
      ShardMembers(s[..m], n, i, x);
      if k :| 0 <= k < m && k % n == i && s[k] == x { assert s[..m][k] == x; }
      if m % n == i && s[m] == x { assert Shard(s, n, i)[|Shard(s, n, i)| - 1] == x; }
      if k :| 0 <= k < m && k % n == i && s[..m][k] == x { assert s[k] == x; }
    }
  }

  lemma {:induction false} ShardAscends(s: seq<string>, n: nat, i: nat)
    requires n >= 1 && Ascending(s)
    ensures Ascending(Shard(s, n, i))
  {
    hide Lt;
    if s != [] {
      var m := |s| - 1;
      ShardAscends(s[..m], n, i);
      var r := Shard(s[..m], n, i);
      forall j | 0 <= j < |r| ensures Lt(r[j], s[m]) {
        assert r[j] in r;
        ShardMembers(s[..m], n, i, r[j]);
        var k :| 0 <= k < m && k % n == i && s[..m][k] == r[j];
        assert s[k] == r[j];
      }
    }
  }

  /** The size of a shard: the whole rounds, and one more for the first few shards. */
  lemma {:induction false} ShardSize(s: seq<string>, n: nat, i: nat)
    requires n >= 1 && i < n
    ensures |Shard(s, n, i)| == |s| / n + if i < |s| % n then 1 else 0
  {
    if s != [] {
      var m := |s| - 1;
      var before := Shard(s[..m], n, i);
      ShardSize(s[..m], n, i);
      NextRound(m, n);
      RoundCount(m / n, m % n, |s| / n, |s| % n, n, i, |before|);
    }
  }

  lemma RoundCount(q: nat, r: nat, q': nat, r': nat, n: nat, i: nat, size: nat)
    requires r < n && i < n && size == q + if i < r then 1 else 0
    requires if r == n - 1 then q' == q + 1 && r' == 0 else q' == q && r' == r + 1
    ensures (if r == i then size + 1 else size) == q' + if i < r' then 1 else 0
  {
  }

  ghost predicate InShard(s: seq<string>, n: nat, i: nat, x: string)
    requires n >= 1
  {
    x in Shard(s, n, i)
  }

  /** The shards partition any ordered set: every id is in exactly one of them ... */
  lemma ShardsPartition(s: seq<string>, n: nat, x: string)
    requires n >= 1 && Ascending(s)
    ensures x in s <==> exists i :: 0 <= i < n && InShard(s, n, i, x)
    ensures forall i, j | 0 <= i < n && 0 <= j < n && InShard(s, n, i, x) && InShard(s, n, j, x) :: i == j
  {
    hide Lt, Shard;
    AscendingDistinct(s);
    if x in s {
      var k :| 0 <= k < |s| && s[k] == x;
      ShardMembers(s, n, k % n, x);
      assert InShard(s, n, k % n, x);
    }
    forall i | 0 <= i < n && InShard(s, n, i, x)
      ensures exists k :: 0 <= k < |s| && k % n == i && s[k] == x
    {
      ShardMembers(s, n, i, x);
    }
  }

  /** ... and they are even: sizes differ by at most one. */
  lemma ShardsAreEven(s: seq<string>, n: nat, i: nat, j: nat)
    requires n >= 1 && i < n && j < n
    ensures |Shard(s, n, i)| <= |Shard(s, n, j)| + 1
  {
    ShardSize(s, n, i);
    ShardSize(s, n, j);
  }

  lemma AscendingDistinct(s: seq<string>)
    requires Ascending(s)
    ensures forall i, j | 0 <= i < |s| && 0 <= j < |s| && s[i] == s[j] :: i == j
  {
    hide Le;
  }

  // ---- commands ----

  /** The ids cut into batches; only the very first command of a plan is not paced. */
  function Batches(first: bool, op: Operation, ids: seq<string>, c: Config): seq<Command>
    decreases |ids|
  {
    if ids == [] then []
    else
      var k := if |ids| <= c.Batch() then |ids| else c.Batch();
      [Command(op, ids[..k], c.Shard(), if first then 0 else c.pacingMs)] + Batches(false, op, ids[k..], c)
  }

  function Plan(current: seq<string>, desired: seq<string>, c: Config): seq<Command> {
    var diff := PlanDiff(current, Assigned(desired, c));
    var removes := Batches(true, Unsubscribe, diff.removes, c);
    removes + Batches(removes == [], Subscribe, diff.adds, c)
  }

  method AppendBatched(before: seq<Command>, op: Operation, ids: seq<string>, c: Config)
    returns (commands: seq<Command>)
    ensures commands == before + Batches(before == [], op, ids, c)
  {
    commands := before;
    var rest := ids;
    while rest != []
      invariant commands + Batches(commands == [], op, rest, c) == before + Batches(before == [], op, ids, c)
      decreases |rest|
    {
      var k := if |rest| <= c.Batch() then |rest| else c.Batch();
      var batch := Command(op, rest[..k], c.Shard(), if commands == [] then 0 else c.pacingMs);
      var later := Batches(false, op, rest[k..], c);
      assert commands + ([batch] + later) == (commands + [batch]) + later;
      commands := commands + [batch];
      rest := rest[k..];
    }
  }

  method PlanCommands(current: seq<string>, desired: seq<string>, c: Config) returns (commands: seq<Command>)
    ensures commands == Plan(current, desired, c)
  {
    var mine := AssignedAssetIds(desired, c);
    var diff := PlanDiff(current, mine);
    commands := AppendBatched([], Unsubscribe, diff.removes, c);
    commands := AppendBatched(commands, Subscribe, diff.adds, c);
  }

  // ---- what a plan does ----

  /** The server's subscriptions after a command, and after several. */
  function Heard(subscribed: set<string>, c: Command): set<string> {
    match c.operation
    case Subscribe => subscribed + Elems(c.assetIds)
    case Unsubscribe => subscribed - Elems(c.assetIds)
  }

  function HeardAll(subscribed: set<string>, cs: seq<Command>): set<string>
    decreases |cs|
  {
    if cs == [] then subscribed else HeardAll(Heard(subscribed, cs[0]), cs[1..])
  }

  lemma {:induction false} HeardAppend(subscribed: set<string>, a: seq<Command>, b: seq<Command>)
    ensures HeardAll(subscribed, a + b) == HeardAll(HeardAll(subscribed, a), b)
    decreases |a|
  {
    if a == [] {
      assert a + b == b;
    } else {
      HeardAppend(Heard(subscribed, a[0]), a[1..], b);
      assert (a + b)[1..] == a[1..] + b;
    }
  }

  /** All ids named, in order. */
  function Named(cs: seq<Command>): seq<string> {
    if cs == [] then [] else cs[0].assetIds + Named(cs[1..])
  }

  lemma {:induction false} NamedAppend(a: seq<Command>, b: seq<Command>)
    ensures Named(a + b) == Named(a) + Named(b)
  {
    if a == [] {
      assert a + b == b;
    } else {
      NamedAppend(a[1..], b);
      assert (a + b)[1..] == a[1..] + b && (a + b)[0] == a[0];
      var first, middle, last := a[0].assetIds, Named(a[1..]), Named(b);
      assert first + (middle + last) == (first + middle) + last;
    }
  }

  lemma {:induction false} BatchesName(first: bool, op: Operation, ids: seq<string>, c: Config)
    ensures Named(Batches(first, op, ids, c)) == ids
    decreases |ids|
  {
    if ids != [] {
      var k := if |ids| <= c.Batch() then |ids| else c.Batch();
      BatchesName(false, op, ids[k..], c);
      assert Batches(first, op, ids, c)[1..] == Batches(false, op, ids[k..], c);
      assert ids == ids[..k] + ids[k..];
    }
  }

  lemma {:induction false} BatchesHeard(before: set<string>, first: bool, op: Operation, ids: seq<string>, c: Config)
    ensures HeardAll(before, Batches(first, op, ids, c)) == Heard(before, Command(op, ids, 0, 0))
    decreases |ids|
  {
    hide Heard, Elems;
    if ids != [] {
      var k := if |ids| <= c.Batch() then |ids| else c.Batch();
      var batches := Batches(first, op, ids, c);
      assert batches[1..] == Batches(false, op, ids[k..], c);
      BatchesHeard(Heard(before, batches[0]), false, op, ids[k..], c);
      HeardSplit(before, batches[0], Command(op, ids[k..], 0, 0));
      assert ids == ids[..k] + ids[k..];
    } else {
      HeardNothing(before, op);
    }
  }

  lemma HeardNothing(s: set<string>, op: Operation)
    ensures Heard(s, Command(op, [], 0, 0)) == s
  {
  }

  lemma HeardSplit(s: set<string>, a: Command, b: Command)
    requires a.operation == b.operation
    ensures Heard(Heard(s, a), b) == Heard(s, Command(a.operation, a.assetIds + b.assetIds, 0, 0))
  {
    assert Elems(a.assetIds + b.assetIds) == Elems(a.assetIds) + Elems(b.assetIds);
  }

  /** Applying the plan turns the current subscriptions into the assigned shard. */
  lemma PlanReachesShard(current: seq<string>, desired: seq<string>, c: Config)
    ensures HeardAll(Elems(current), Plan(current, desired, c)) == Elems(Assigned(desired, c))
  {
    var diff := PlanDiff(current, Assigned(desired, c));
    var removes := Batches(true, Unsubscribe, diff.removes, c);
    BatchesHeard(Elems(current), true, Unsubscribe, diff.removes, c);
    BatchesHeard(HeardAll(Elems(current), removes), removes == [], Subscribe, diff.adds, c);
    HeardAppend(Elems(current), removes, Batches(removes == [], Subscribe, diff.adds, c));
  }

  /** Nothing is named but what differs, and that exactly once. */
  lemma PlanIsMinimal(current: seq<string>, desired: seq<string>, c: Config)
    requires Ascending(current) && Ascending(desired)
    ensures var shard := Assigned(desired, c);
            Named(Plan(current, desired, c)) == Minus(current, shard) + Minus(shard, current)
    ensures forall x :: multiset(Named(Plan(current, desired, c)))[x] ==
              if (x in current) != (x in Assigned(desired, c)) then 1 else 0
  {
    var shard := Assigned(desired, c);
    var removes, adds := Minus(current, shard), Minus(shard, current);
    var batches := Batches(true, Unsubscribe, removes, c);
    BatchesName(true, Unsubscribe, removes, c);
    BatchesName(batches == [], Subscribe, adds, c);
    NamedAppend(batches, Batches(batches == [], Subscribe, adds, c));
    ShardAscends(desired, c.Shards(), c.Shard());
    MinusAscends(current, shard);
    MinusAscends(shard, current);
    forall x ensures multiset(removes + adds)[x] == if (x in current) != (x in shard) then 1 else 0 {
      CountOnce(removes, x);
      CountOnce(adds, x);
    }
  }

  lemma {:induction false} CountOnce(s: seq<string>, x: string)
    requires Ascending(s)
    ensures multiset(s)[x] == if x in s then 1 else 0
  {
    hide Le;
    if s != [] {
      var n := |s| - 1;
      CountOnce(s[..n], x);
      assert s == s[..n] + [s[n]];
      AscendingDistinct(s);
    }
  }

  /** Batches are non-empty and within the limit, unsubscribes come first, and every command
      but the first is paced. */
  ghost predicate WellBatched(cs: seq<Command>, c: Config) {
    && (forall i | 0 <= i < |cs| :: 1 <= |cs[i].assetIds| <= c.Batch())
    && (forall i | 0 <= i < |cs| :: cs[i].shardIndex == c.Shard())
    && (forall i | 0 <= i < |cs| :: cs[i].pacingMs == (if i == 0 then 0 else c.pacingMs))
    && (forall i, j | 0 <= i < j < |cs| :: cs[i].operation == Subscribe ==> cs[j].operation == Subscribe)
  }

  lemma {:induction false} BatchesWell(first: bool, op: Operation, ids: seq<string>, c: Config)
    ensures forall b | b in Batches(first, op, ids, c) ::
              b.operation == op && 1 <= |b.assetIds| <= c.Batch() && b.shardIndex == c.Shard()
    ensures forall i | 0 <= i < |Batches(first, op, ids, c)| ::
              Batches(first, op, ids, c)[i].pacingMs == (if i == 0 && first then 0 else c.pacingMs)
    decreases |ids|
  {
    if ids != [] {
      var k := if |ids| <= c.Batch() then |ids| else c.Batch();
      BatchesWell(false, op, ids[k..], c);
      var bs, rest := Batches(first, op, ids, c), Batches(false, op, ids[k..], c);
      assert bs == [bs[0]] + rest;
      forall i | 0 <= i < |bs| ensures bs[i].pacingMs == (if i == 0 && first then 0 else c.pacingMs) {
        if i > 0 { assert bs[i] == rest[i - 1]; }
      }
    }
  }

  lemma PlanIsWellBatched(current: seq<string>, desired: seq<string>, c: Config)
    ensures WellBatched(Plan(current, desired, c), c)
  {
    hide Batches;
    var diff := PlanDiff(current, Assigned(desired, c));
    var removes := Batches(true, Unsubscribe, diff.removes, c);
    BatchesWell(true, Unsubscribe, diff.removes, c);
    BatchesWell(removes == [], Subscribe, diff.adds, c);
    var plan := Plan(current, desired, c);
    var adds := Batches(removes == [], Subscribe, diff.adds, c);
    assert plan == removes + adds;
    forall i | 0 <= i < |plan|
      ensures 1 <= |plan[i].assetIds| <= c.Batch() && plan[i].shardIndex == c.Shard()
      ensures plan[i].pacingMs == (if i == 0 then 0 else c.pacingMs)
      ensures plan[i].operation == if i < |removes| then Unsubscribe else Subscribe
    {
      if i < |removes| {
        assert plan[i] == removes[i] && removes[i] in removes;
      } else {
        assert plan[i] == adds[i - |removes|] && adds[i - |removes|] in adds;
      }
    }
  }

  // ---- configurations, by their raw fields ----

  /** The configuration of one of n clients; only the index differs between them. */
  function Client(maxBatchSize: nat, pacingMs: nat, n: nat, i: nat): Config {
    Config(maxBatchSize, pacingMs, n, i)
  }

  ghost predicate Serves(desired: seq<string>, c: Config, x: string) {
    x in Assigned(desired, c)
  }

  /** Each of n clients takes every n-th id from its own index on; an index past the end takes
      what the last client takes; and no shards at all is one shard. */
  lemma AssignedExactly(desired: seq<string>, maxBatchSize: nat, pacingMs: nat, n: nat, i: nat, x: string)
    ensures i < n ==>
              (x in Assigned(desired, Client(maxBatchSize, pacingMs, n, i)) <==>
               exists k :: 0 <= k < |desired| && k % n == i && desired[k] == x)
    ensures i >= n >= 1 ==>
              Assigned(desired, Client(maxBatchSize, pacingMs, n, i))
              == Assigned(desired, Client(maxBatchSize, pacingMs, n, n - 1))
    ensures n == 0 ==> Assigned(desired, Client(maxBatchSize, pacingMs, n, i)) == desired
  {
    hide Shard;
    if i < n {
      ShardMembers(desired, n, i, x);
    } else if n == 0 {
      WholeShard(desired);
    }
  }

  lemma {:induction false} WholeShard(s: seq<string>)
    ensures Shard(s, 1, 0) == s
  {
    if s != [] {
      WholeShard(s[..|s| - 1]);
      assert s == s[..|s| - 1] + [s[|s| - 1]];
    }
  }

  /** Clients that differ only in their index, 0 to n - 1, together serve every desired id, each
      exactly once, and nothing else. */
  lemma ClientsPartition(desired: seq<string>, maxBatchSize: nat, pacingMs: nat, n: nat, x: string)
    requires n >= 1 && Ascending(desired)
    ensures x in desired <==>
            exists i: nat :: i < n && Serves(desired, Client(maxBatchSize, pacingMs, n, i), x)
    ensures forall i: nat, j: nat | i < n && j < n
              && Serves(desired, Client(maxBatchSize, pacingMs, n, i), x)
              && Serves(desired, Client(maxBatchSize, pacingMs, n, j), x) :: i == j
  {
    hide Assigned, Ascending;
    forall i: nat | i < n
      ensures Serves(desired, Client(maxBatchSize, pacingMs, n, i), x) <==>
              exists k :: 0 <= k < |desired| && k % n == i && desired[k] == x
    {
      AssignedExactly(desired, maxBatchSize, pacingMs, n, i, x);
    }
    AscendingDistinct(desired);
    if k :| 0 <= k < |desired| && desired[k] == x {
      assert Serves(desired, Client(maxBatchSize, pacingMs, n, k % n), x);
    }
  }

  /** A command is full when it carries as many ids as the configured batch size, or one where
      that is zero. */
  predicate Full(b: Command, maxBatchSize: nat) {
    |b.assetIds| == maxBatchSize || (maxBatchSize == 0 && |b.assetIds| == 1)
  }

  predicate Fits(b: Command, maxBatchSize: nat) {
    1 <= |b.assetIds| <= maxBatchSize || Full(b, maxBatchSize)
  }

  predicate LastOfItsKind(cs: seq<Command>, i: nat)
    requires i < |cs|
  {
    i == |cs| - 1 || cs[i + 1].operation != cs[i].operation
  }

  ghost predicate FullButLast(bs: seq<Command>, op: Operation, max: nat) {
    forall i | 0 <= i < |bs| ::
      bs[i].operation == op && Fits(bs[i], max) && (i < |bs| - 1 ==> Full(bs[i], max))
  }

  lemma {:induction false} BatchesFull(first: bool, op: Operation, ids: seq<string>, c: Config)
    ensures FullButLast(Batches(first, op, ids, c), op, c.maxBatchSize)
    decreases |ids|
  {
    if ids != [] {
      var k := if |ids| <= c.Batch() then |ids| else c.Batch();
      var bs, rest := Batches(first, op, ids, c), Batches(false, op, ids[k..], c);
      BatchesFull(false, op, ids[k..], c);
      assert bs == [bs[0]] + rest && bs[0].assetIds == ids[..k];
      assert bs[0].operation == op && |bs[0].assetIds| == k;
      if k == |ids| { assert rest == []; }
      FullPrepend(bs[0], rest, op, c.maxBatchSize);
    }
  }

  lemma FullPrepend(b: Command, rest: seq<Command>, op: Operation, max: nat)
    requires b.operation == op && Fits(b, max) && (rest != [] ==> Full(b, max))
    requires FullButLast(rest, op, max)
    ensures FullButLast([b] + rest, op, max)
  {
  }

  /** In raw fields: commands carry at most the batch size and are full except the last of each
      operation ... */
  lemma PlanIsFull(current: seq<string>, desired: seq<string>, c: Config)
    ensures forall i | 0 <= i < |Plan(current, desired, c)| ::
              Fits(Plan(current, desired, c)[i], c.maxBatchSize)
              && (LastOfItsKind(Plan(current, desired, c), i) || Full(Plan(current, desired, c)[i], c.maxBatchSize))
  {
    hide Batches, Full, Fits;
    var diff := PlanDiff(current, Assigned(desired, c));
    var removes := Batches(true, Unsubscribe, diff.removes, c);
    BatchesFull(true, Unsubscribe, diff.removes, c);
    BatchesFull(removes == [], Subscribe, diff.adds, c);
    FullInTwo(removes, Batches(removes == [], Subscribe, diff.adds, c), c.maxBatchSize);
  }

  lemma FullInTwo(removes: seq<Command>, adds: seq<Command>, max: nat)
    requires FullButLast(removes, Unsubscribe, max) && FullButLast(adds, Subscribe, max)
    ensures forall i | 0 <= i < |removes + adds| ::
              Fits((removes + adds)[i], max)
              && (LastOfItsKind(removes + adds, i) || Full((removes + adds)[i], max))
  {
    hide Full, Fits;
  }

  /** ... each bears the client's index, or the last one's if that is past the end; and only the
      first is not paced. */
  lemma PlanInRawFields(current: seq<string>, desired: seq<string>, c: Config)
    ensures var cs := Plan(current, desired, c);
            forall i | 0 <= i < |cs| ::
              && cs[i].pacingMs == (if i == 0 then 0 else c.pacingMs)
              && (c.shardIndex < c.shardCount ==> cs[i].shardIndex == c.shardIndex)
              && (c.shardIndex >= c.shardCount >= 1 ==> cs[i].shardIndex == c.shardCount - 1)
              && (c.shardCount == 0 ==> cs[i].shardIndex == 0)
  {
    hide Plan;
    PlanIsWellBatched(current, desired, c);
  }
}
