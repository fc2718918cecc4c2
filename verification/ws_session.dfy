/** The websocket client as a session that comes and goes while its desired set is being
    reconfigured. Reconfiguring, the control channel and the connection advance in separate
    small steps, in any order. */
module WsSession {
  import opened Text
  import opened SubscriptionPlan

  /** What a call to reconfigure still has to do: its commands are planned, then it looks up
      the control channel once (it may be closed) and sends them there one by one. */
  datatype Outbox =
    | Idle
    | Planned(commands: seq<Command>)
    | Sending(commands: seq<Command>, linked: bool)

  /** A fresh connection first replays the desired set; `server` is what the server serves. */
  datatype Link =
    | Down
    | Up(server: set<string>, replay: seq<Command>)

  datatype Session = Session(
    desired: seq<string>, outbox: Outbox, running: bool, queue: seq<Command>, link: Link)

  datatype Step =
    | Reconfigure(assetIds: seq<string>)
    | LookUp
    | Send
    | Start
    | Connect
    | Replay
    | Deliver
    | Disconnect(losesCommand: bool)
    | Stop

  predicate Allowed(s: Session, step: Step) {
    match step
    case Reconfigure(_) => s.outbox.Idle?
    case LookUp => s.outbox.Planned?
    case Send => s.outbox.Sending?
    case Start => !s.running
    case Connect => s.running && s.link.Down?
    case Replay => s.link.Up? && s.link.replay != []
    case Deliver => s.link.Up? && s.link.replay == [] && s.queue != []
    case Disconnect(loses) => s.link.Up? && (loses ==> s.link.replay == [] && s.queue != [])
    case Stop => s.running && s.link.Down?
  }

  function Initial(assetIds: seq<string>): Session {
    Session(Collect(assetIds), Idle, false, [], Down)
  }

  function Next(c: Config, s: Session, step: Step): Session
    requires Allowed(s, step)
  {
    match step
    case Reconfigure(assetIds) =>
      var desired := Collect(assetIds);
      s.(desired := desired, outbox := Planned(Plan(Assigned(s.desired, c), desired, c)))
    case LookUp => s.(outbox := Sending(s.outbox.commands, s.running))
    case Send =>
      if s.outbox.commands == [] then s.(outbox := Idle)
      else
        s.(outbox := s.outbox.(commands := s.outbox.commands[1..]),
           queue := if s.outbox.linked then s.queue + [s.outbox.commands[0]] else s.queue)
    case Start => s.(running := true, queue := [])
    case Connect => s.(link := Up({}, Plan([], s.desired, c)))
    case Replay => s.(link := Up(Heard(s.link.server, s.link.replay[0]), s.link.replay[1..]))
    case Deliver => s.(queue := s.queue[1..], link := s.link.(server := Heard(s.link.server, s.queue[0])))
    case Disconnect(loses) => s.(link := Down, queue := if loses then s.queue[1..] else s.queue)
    case Stop =>
      // the channel closes with its queue; a call still sending to it sends into the void
      s.(running := false, queue := [],
         outbox := if s.outbox.Sending? then s.outbox.(linked := false) else s.outbox)
  }

  predicate AllowedRun(c: Config, s: Session, steps: seq<Step>)
    decreases |steps|
  {
    steps == [] || (Allowed(s, steps[0]) && AllowedRun(c, Next(c, s, steps[0]), steps[1..]))
  }

  function Run(c: Config, s: Session, steps: seq<Step>): Session
    requires AllowedRun(c, s, steps)
    decreases |steps|
  {
    if steps == [] then s else Run(c, Next(c, s, steps[0]), steps[1..])
  }

  // ---- what is still on its way ----

  function Target(c: Config, s: Session): set<string> {
    Elems(Assigned(s.desired, c))
  }

  /** The commands that are in the queue or will still get there. */
  function Outgoing(s: Session): seq<Command> {
    match s.outbox
    case Idle => []
    case Planned(commands) => if s.running then commands else []
    case Sending(commands, linked) => if linked then commands else []
  }

  function Coming(s: Session): seq<Command> {
    s.queue + Outgoing(s)
  }

  /** What the last command that names an id says of it. */
  function LastWord(cs: seq<Command>, x: string): Option<bool>
    decreases |cs|
  {
    if cs == [] then None
    else if LastWord(cs[1..], x).Some? then LastWord(cs[1..], x)
    else if x in cs[0].assetIds then Some(cs[0].operation.Subscribe?)
    else None
  }

  /** The last mention of each id agrees with the set. */
  ghost predicate Agrees(cs: seq<Command>, target: set<string>) {
    forall x :: LastWord(cs, x).Some? ==> (LastWord(cs, x).value <==> x in target)
  }

  ghost predicate Invariant(c: Config, s: Session) {
    && Ascending(s.desired)
    && (s.link.Up? ==> s.running)
    && (s.outbox.Sending? && s.outbox.linked ==> s.running)
    && Agrees(Coming(s), Target(c, s))
    && (s.outbox.Planned? ==> Agrees(s.outbox.commands, Target(c, s)))
    && (!s.running ==> s.queue == [])
    && (s.link.Up? ==> HeardAll(HeardAll(s.link.server, s.link.replay), Coming(s)) == Target(c, s))
  }

  lemma {:induction false} HeardByLastWord(before: set<string>, cs: seq<Command>, x: string)
    ensures x in HeardAll(before, cs) <==>
            if LastWord(cs, x).Some? then LastWord(cs, x).value else x in before
    decreases |cs|
  {
    if cs != [] { HeardByLastWord(Heard(before, cs[0]), cs[1..], x); }
  }

  lemma {:induction false} LastWordAppend(a: seq<Command>, b: seq<Command>, x: string)
    ensures LastWord(a + b, x) == if LastWord(b, x).Some? then LastWord(b, x) else LastWord(a, x)
    decreases |a|
  {
    if a == [] {
      assert a + b == b;
    } else {
      LastWordAppend(a[1..], b, x);
      assert (a + b)[1..] == a[1..] + b;
    }
  }

  /** Commands that agree with a set leave it as it is. */
  lemma AgreeingKeeps(cs: seq<Command>, target: set<string>)
    requires Agrees(cs, target)
    ensures HeardAll(target, cs) == target
  {
    forall x ensures x in HeardAll(target, cs) <==> x in target { HeardByLastWord(target, cs, x); }
  }

  /** Forgetting the beginning of what agrees leaves something that agrees. */
  lemma SuffixAgrees(a: seq<Command>, b: seq<Command>, target: set<string>)
    requires Agrees(a + b, target)
    ensures Agrees(b, target)
  {
    forall x | LastWord(b, x).Some? ensures LastWord(b, x).value <==> x in target { LastWordAppend(a, b, x); }
  }

  lemma {:induction false} LastWordNamed(cs: seq<Command>, x: string)
    ensures LastWord(cs, x).Some? <==> x in Named(cs)
  {
    if cs != [] { LastWordNamed(cs[1..], x); }
  }

  /** A plan only names ids that change, and says of each what the new set says; so it can be
      put on top of whatever agreed with the old set. */
  lemma PlanAgrees(c: Config, prior: seq<string>, desired: seq<string>, before: seq<Command>)
    requires Ascending(prior) && Ascending(desired)
    requires Agrees(before, Elems(Assigned(prior, c)))
    ensures Agrees(Plan(Assigned(prior, c), desired, c), Elems(Assigned(desired, c)))
    ensures Agrees(before + Plan(Assigned(prior, c), desired, c), Elems(Assigned(desired, c)))
  {
    hide Plan, Assigned, LastWord;
    var was, now := Assigned(prior, c), Assigned(desired, c);
    var plan := Plan(was, desired, c);
    PlanReachesShard(was, desired, c);
    AssignedAscends(prior, c);
    PlanIsMinimal(was, desired, c);
    forall x
      ensures LastWord(plan, x).Some? ==> (LastWord(plan, x).value <==> x in Elems(now))
      ensures LastWord(before + plan, x).Some? ==> (LastWord(before + plan, x).value <==> x in Elems(now))
    {
      HeardByLastWord(Elems(was), plan, x);
      LastWordAppend(before, plan, x);
      LastWordNamed(plan, x);
    }
  }

  lemma AssignedAscends(desired: seq<string>, c: Config)
    requires Ascending(desired)
    ensures Ascending(Assigned(desired, c))
  {
    ShardAscends(desired, c.Shards(), c.Shard());
  }

  // ---- every step keeps the invariant ----

  lemma ReconfigureKeeps(c: Config, s: Session, step: Step)
    requires step.Reconfigure? && Invariant(c, s) && Allowed(s, step)
    ensures Invariant(c, Next(c, s, step))
  {
    hide Plan, Assigned, Ascending, Collect;
    var t := Next(c, s, step);
    var plan := Plan(Assigned(s.desired, c), t.desired, c);
    assert Coming(s) == s.queue;
    assert Coming(t) == if s.running then s.queue + plan else s.queue;
    CollectAscends(step.assetIds);
    PlanAgrees(c, s.desired, t.desired, s.queue);
    PlanReachesShard(Assigned(s.desired, c), t.desired, c);
    if s.link.Up? { HeardAppend(HeardAll(s.link.server, s.link.replay), s.queue, plan); }
  }

  lemma CollectAscends(v: seq<string>)
    ensures Ascending(Collect(v))
  {
  }

  lemma ConnectKeeps(c: Config, s: Session)
    requires Invariant(c, s) && Allowed(s, Connect)
    ensures Invariant(c, Next(c, s, Connect))
  {
    hide Plan, Assigned, Ascending;
    PlanReachesShard([], s.desired, c);
    assert Elems([]) == {};
    AgreeingKeeps(Coming(s), Target(c, s));
  }

  lemma QueueMovesKeep(c: Config, s: Session, step: Step)
    requires step.Send? || step.Replay? || step.Deliver? || step.Disconnect?
    requires Invariant(c, s) && Allowed(s, step)
    ensures Invariant(c, Next(c, s, step))
  {
    hide Assigned, Ascending;
    var t := Next(c, s, step);
    match step
    case Send =>
      if s.outbox.commands != [] && s.outbox.linked { assert Coming(t) == Coming(s); }
    case Deliver =>
      assert Coming(s) == [s.queue[0]] + Coming(t);
      SuffixAgrees([s.queue[0]], Coming(t), Target(c, s));
    case Disconnect(loses) =>
      if loses {
        assert Coming(s) == [s.queue[0]] + Coming(t);
        SuffixAgrees([s.queue[0]], Coming(t), Target(c, s));
      }
    case _ =>
  }

  lemma StepKeepsInvariant(c: Config, s: Session, step: Step)
    requires Invariant(c, s) && Allowed(s, step)
    ensures Invariant(c, Next(c, s, step))
  {
    match step
    case Reconfigure(_) => ReconfigureKeeps(c, s, step);
    case Connect => ConnectKeeps(c, s);
    case Send | Replay | Deliver | Disconnect(_) => QueueMovesKeep(c, s, step);
    case LookUp => assert Coming(Next(c, s, step)) == Coming(s);
    case Start =>
      var t := Next(c, s, step);
      assert Coming(t) == if s.outbox.Planned? then s.outbox.commands else [];
    case Stop =>
      assert Coming(Next(c, s, step)) == [];
  }

  lemma {:induction false} RunKeepsInvariant(c: Config, s: Session, steps: seq<Step>)
    requires Invariant(c, s) && AllowedRun(c, s, steps)
    ensures Invariant(c, Run(c, s, steps))
    decreases |steps|
  {
    if steps != [] {
      StepKeepsInvariant(c, s, steps[0]);
      RunKeepsInvariant(c, Next(c, s, steps[0]), steps[1..]);
    }
  }

  /** Over any run: while a connection is up, what is left of its replay followed by what is
      queued or still being sent leads the server exactly to the assigned shard of the desired
      set; so once everything has drained, the server serves that shard. */
  lemma SessionsConverge(c: Config, assetIds: seq<string>, steps: seq<Step>)
    requires AllowedRun(c, Initial(assetIds), steps)
    ensures var s := Run(c, Initial(assetIds), steps);
            && (s.link.Up? ==> HeardAll(HeardAll(s.link.server, s.link.replay), Coming(s)) == Target(c, s))
            && (s.link.Up? && s.link.replay == [] && Coming(s) == [] ==> s.link.server == Target(c, s))
  {
    hide Assigned, Plan;
    assert Coming(Initial(assetIds)) == [];
    RunKeepsInvariant(c, Initial(assetIds), steps);
  }

  // ---- nothing else is lost ----

  /** The assets most recently asked for. */
  function LastAsked(first: seq<string>, steps: seq<Step>): seq<string>
    decreases |steps|
  {
    if steps == [] then first
    else LastAsked(if steps[0].Reconfigure? then steps[0].assetIds else first, steps[1..])
  }

  lemma {:induction false} DesiredIsLastAsked(c: Config, s: Session, first: seq<string>, steps: seq<Step>)
    requires AllowedRun(c, s, steps) && s.desired == Collect(first)
    ensures Run(c, s, steps).desired == Collect(LastAsked(first, steps))
    decreases |steps|
  {
    hide Plan, Assigned, Collect;
    if steps != [] {
      DesiredIsLastAsked(c, Next(c, s, steps[0]),
                         if steps[0].Reconfigure? then steps[0].assetIds else first, steps[1..]);
    }
  }

  /** The command a step puts into the queue, and the one it takes out of it. */
  function PutIn(s: Session, step: Step): seq<Command>
    requires Allowed(s, step)
  {
    if step.Send? && s.outbox.linked && s.outbox.commands != [] then [s.outbox.commands[0]] else []
  }

  function TakenOut(s: Session, step: Step): seq<Command>
    requires Allowed(s, step)
  {
    if step.Deliver? || (step.Disconnect? && step.losesCommand) then [s.queue[0]] else []
  }

  function AllPutIn(c: Config, s: Session, steps: seq<Step>): seq<Command>
    requires AllowedRun(c, s, steps)
    decreases |steps|
  {
    if steps == [] then [] else PutIn(s, steps[0]) + AllPutIn(c, Next(c, s, steps[0]), steps[1..])
  }

  function AllTakenOut(c: Config, s: Session, steps: seq<Step>): seq<Command>
    requires AllowedRun(c, s, steps)
    decreases |steps|
  {
    if steps == [] then [] else TakenOut(s, steps[0]) + AllTakenOut(c, Next(c, s, steps[0]), steps[1..])
  }

  /** Between two starts of the client, whatever connections come and go: what was queued and
      put into the queue is, in order, what was taken out of it and what still waits there. */
  lemma {:induction false} QueueConserves(c: Config, s: Session, steps: seq<Step>)
    requires AllowedRun(c, s, steps) && forall i | 0 <= i < |steps| :: !steps[i].Start? && !steps[i].Stop?
    ensures s.queue + AllPutIn(c, s, steps) == AllTakenOut(c, s, steps) + Run(c, s, steps).queue
    decreases |steps|
  {
    hide Next, Allowed, PutIn, TakenOut;
    if steps != [] {
      var t := Next(c, s, steps[0]);
      QueueConserves(c, t, steps[1..]);
      StepConserves(c, s, steps[0]);
      Regroup(s.queue, PutIn(s, steps[0]), AllPutIn(c, t, steps[1..]),
              TakenOut(s, steps[0]), AllTakenOut(c, t, steps[1..]), t.queue, Run(c, t, steps[1..]).queue);
    }
  }

  lemma StepConserves(c: Config, s: Session, step: Step)
    requires Allowed(s, step) && !step.Start? && !step.Stop?
    ensures s.queue + PutIn(s, step) == TakenOut(s, step) + Next(c, s, step).queue
  {
    hide Plan, Assigned, Heard, Collect;
  }

  lemma Regroup<T>(queue: seq<T>, put: seq<T>, puts: seq<T>, taken: seq<T>, takens: seq<T>, mid: seq<T>, end: seq<T>)
    requires queue + put == taken + mid && mid + puts == takens + end
    ensures queue + (put + puts) == (taken + takens) + end
  {
    assert queue + (put + puts) == (queue + put) + puts;
    assert taken + (mid + puts) == (taken + mid) + puts;
    assert (taken + takens) + end == taken + (takens + end);
  }

  // ---- the client ----

  /** A call to reconfigure that runs to its end undisturbed. */
  function Flushed(s: Session): Session {
    if s.outbox.Planned? then
      s.(outbox := Idle, queue := if s.running then s.queue + s.outbox.commands else s.queue)
    else s
  }

  function Sends(n: nat): seq<Step> {
    if n == 0 then [Send] else [Send] + Sends(n - 1)
  }

  lemma SendOne(c: Config, s: Session)
    requires s.outbox.Sending?
    ensures Allowed(s, Send)
    ensures Next(c, s, Send) ==
            if s.outbox.commands == [] then s.(outbox := Idle)
            else s.(outbox := s.outbox.(commands := s.outbox.commands[1..]),
                    queue := if s.outbox.linked then s.queue + [s.outbox.commands[0]] else s.queue)
  {
  }

  lemma RunOneMore(c: Config, s: Session, step: Step, steps: seq<Step>)
    requires Allowed(s, step) && AllowedRun(c, Next(c, s, step), steps)
    ensures AllowedRun(c, s, [step] + steps)
    ensures Run(c, s, [step] + steps) == Run(c, Next(c, s, step), steps)
  {
    hide Next, Allowed;
    assert ([step] + steps)[1..] == steps;
  }

  lemma {:induction false} SendsRun(c: Config, s: Session)
    requires s.outbox.Sending?
    ensures AllowedRun(c, s, Sends(|s.outbox.commands|))
    ensures Run(c, s, Sends(|s.outbox.commands|)) ==
            s.(outbox := Idle, queue := if s.outbox.linked then s.queue + s.outbox.commands else s.queue)
    decreases |s.outbox.commands|
  {
    var n := |s.outbox.commands|;
    SendOne(c, s);
    hide Next, Allowed, Run, AllowedRun;
    var t := Next(c, s, Send);
    if n == 0 {
      assert AllowedRun(c, t, []) && Run(c, t, []) == t by { RunNothing(c, t); }
      RunOneMore(c, s, Send, []);
      assert s.queue + s.outbox.commands == s.queue && [Send] + [] == Sends(0);
    } else {
      SendsRun(c, t);
      RunOneMore(c, s, Send, Sends(n - 1));
      assert s.queue + [s.outbox.commands[0]] + s.outbox.commands[1..] == s.queue + s.outbox.commands;
    }
  }

  lemma RunNothing(c: Config, s: Session)
    ensures AllowedRun(c, s, []) && Run(c, s, []) == s
  {
  }

  /** The undisturbed call is one of the interleavings. */
  lemma FlushIsARun(c: Config, s: Session, assetIds: seq<string>)
    requires s.outbox.Idle?
    ensures var planned := Next(c, s, Reconfigure(assetIds));
            var steps := [Reconfigure(assetIds), LookUp] + Sends(|planned.outbox.commands|);
            AllowedRun(c, s, steps) && Run(c, s, steps) == Flushed(planned)
  {
    hide Plan;
    var planned := Next(c, s, Reconfigure(assetIds));
    var sends := Sends(|planned.outbox.commands|);
    var steps := [Reconfigure(assetIds), LookUp] + sends;
    SendsRun(c, Next(c, planned, LookUp));
    assert steps[1..] == [LookUp] + sends && steps[1..][1..] == sends;
  }

  class WsClient {
    const config: Config
    var desiredAssetIds: seq<string>
    /** The control queue of the current run, if one is under way. */
    var control: Option<seq<Command>>
    var issuedCommands: seq<Command>
    var link: Link

    ghost predicate Valid()
      reads this
    {
      Ascending(desiredAssetIds) && (link.Up? ==> control.Some?)
    }

    function View(): Session
      reads this
    {
      Session(desiredAssetIds, Idle, control.Some?, control.GetOr([]), link)
    }

    constructor (assetIds: seq<string>, config: Config)
      ensures Valid() && this.config == config && issuedCommands == []
      ensures View() == Initial(assetIds)
    {
      this.config, desiredAssetIds := config, Collect(assetIds);
      control, issuedCommands, link := None, [], Down;
    }

    method AssignedAssetIds() returns (ids: seq<string>)
      ensures ids == Assigned(desiredAssetIds, config)
    {
      ids := SubscriptionPlan.AssignedAssetIds(desiredAssetIds, config);
    }

    method ReconfigureAssets(assetIds: seq<string>) returns (commands: seq<Command>)
      requires Valid()
      modifies this
      ensures Valid()
      ensures View() == Flushed(Next(config, old(View()), Reconfigure(assetIds)))
      ensures commands == Plan(Assigned(old(desiredAssetIds), config), Collect(assetIds), config)
      ensures issuedCommands == old(issuedCommands) + commands
    {
      hide Plan, Assigned;
      var current := AssignedAssetIds();
      var desired := Collect(assetIds);
      commands := PlanCommands(current, desired, config);
      desiredAssetIds := desired;
      issuedCommands := issuedCommands + commands;
      if control.Some? {
        ghost var queued := control.value;
        assert queued + commands[..0] == queued;
        for i := 0 to |commands|
          invariant control.Some? && control.value == queued + commands[..i]
          invariant desiredAssetIds == desired && link == old(link)
          invariant issuedCommands == old(issuedCommands) + commands
        {
          control := Some(control.value + [commands[i]]);
          assert queued + commands[..i + 1] == queued + commands[..i] + [commands[i]];
        }
        assert commands[..|commands|] == commands;
      }
    }

    method StartRun()
      requires Valid() && control.None?
      modifies this
      ensures Valid() && View() == Next(config, old(View()), Start)
    {
      control := Some([]);
    }

    /** Connecting replays the desired set, as read at that moment. */
    method Connect()
      requires Valid() && control.Some? && link.Down?
      modifies this
      ensures Valid() && View() == Next(config, old(View()), Step.Connect)
    {
      var initial := PlanCommands([], desiredAssetIds, config);
      link := Up({}, initial);
    }

    method SendReplay()
      requires Valid() && link.Up? && link.replay != []
      modifies this
      ensures Valid() && View() == Next(config, old(View()), Replay)
    {
      link := Up(Heard(link.server, link.replay[0]), link.replay[1..]);
    }

    method DeliverCommand()
      requires Valid() && link.Up? && link.replay == [] && control.Some? && control.value != []
      modifies this
      ensures Valid() && View() == Next(config, old(View()), Deliver)
    {
      var command := control.value[0];
      control := Some(control.value[1..]);
      link := Up(Heard(link.server, command), []);
    }

    /** The connection ends, possibly between taking a command and writing it. */
    method Disconnect(losesCommand: bool)
      requires Valid() && link.Up? && (losesCommand ==> link.replay == [] && control.value != [])
      modifies this
      ensures Valid() && View() == Next(config, old(View()), Step.Disconnect(losesCommand))
    {
      link := Down;
      if losesCommand { control := Some(control.value[1..]); }
    }

    method StopRun()
      requires Valid() && control.Some? && link.Down?
      modifies this
      ensures Valid() && View() == Next(config, old(View()), Stop)
    {
      control := None;
    }
  }
}
