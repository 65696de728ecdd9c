/** The schedules of the collectors are bounded, never stuck, and never block on a send. */
module SlotProgress {
  import opened Prelude
  import opened Slots

  // ----- Sends -----

  /**
   Whoever is about to send finds the channel of its starter open and with room, because the channel
   was made with room for every goroutine started and each of them sends at most once.
   */
  lemma DueSendHasRoom(tasks: seq<Task>, s: State, i: nat)
    requires Inv(tasks, s) && i < |tasks| && SendIsDue(tasks[i].kind, s[i])
    ensures tasks[i].parent.Some? && HasRoom(s[tasks[i].parent.value].channel)
  {
    var p := tasks[i].parent.value;
    assert CellInv(tasks[p].kind, s[p]) && StarterInv(tasks, s, i) && ChannelInv(tasks, s, p);
    assert IsChild(tasks, i, p);
    assert SentBy(tasks, s, p) <= Children(tasks, p) - {i as int};
    SubsetSize(SentBy(tasks, s, p), Children(tasks, p) - {i as int});
  }

  /** While a goroutine runs, its channel has room exactly as long as somebody it starts has not sent. */
  lemma RoomIffSomeoneHasNotSent(tasks: seq<Task>, s: State, p: nat)
    requires Inv(tasks, s) && p < |tasks| && s[p].phase.Running?
    ensures HasRoom(s[p].channel) <==> exists c :: 0 <= c < |tasks| && IsChild(tasks, c, p) && !s[c].delivery.Sent?
  {
    assert CellInv(tasks[p].kind, s[p]) && ChannelInv(tasks, s, p);
    var sent, children := SentBy(tasks, s, p), Children(tasks, p);
    if c :| 0 <= c < |tasks| && IsChild(tasks, c, p) && !s[c].delivery.Sent? {
      assert sent <= children - {c};
      SubsetSize(sent, children - {c});
    } else {
      assert sent == children;
    }
  }

  // ----- Progress -----

  /** Some goroutine is at work, or a collection is waiting to be started. */
  predicate WorkRemains(tasks: seq<Task>, s: State)
    requires |s| == |tasks|
  {
    exists i :: 0 <= i < |tasks| && IsWork(tasks, s, i)
  }

  predicate IsWork(tasks: seq<Task>, s: State, i: int)
    requires |s| == |tasks| && 0 <= i < |tasks|
  {
    !s[i].phase.Done? && (s[i].phase.Idle? ==> tasks[i].parent.None?)
  }

  /** The next step of a goroutine that is ending, with its channel's room accounted for. */
  lemma EndingCanStep(tasks: seq<Task>, s: State, i: nat) returns (e: Step)
    requires Inv(tasks, s) && i < |tasks| && s[i].phase.Ending?
    ensures Enabled(tasks, s, e) && !e.GiveUp?
  {
    var k, c := tasks[i].kind, s[i];
    if SendIsDue(k, c) {
      DueSendHasRoom(tasks, s, i);
      e := Send(i);
    } else if c.held > 0 {
      e := Release(i);
    } else {
      e := Exit(i);
    }
  }

  /** A goroutine that still lacks a slot. */
  predicate Wants(tasks: seq<Task>, s: State, i: int)
    requires |s| == |tasks|
  {
    0 <= i < |tasks| && s[i].phase.Acquiring? && s[i].held < |Pools(tasks[i].kind)|
  }

  function NextOrder(tasks: seq<Task>, s: State, i: int): nat
    requires |s| == |tasks| && Wants(tasks, s, i)
  {
    Order(Pools(tasks[i].kind)[s[i].held])
  }

  /** Somebody it started is taking slots or running. */
  predicate HasBusyChild(tasks: seq<Task>, s: State, i: int)
    requires |s| == |tasks|
  {
    exists c :: 0 <= c < |tasks| && IsChild(tasks, c, i) && (s[c].phase.Acquiring? || s[c].phase.Running?)
  }

  /** Nobody can do anything but wait for a slot or for those it started. */
  predicate OnlyWaits(tasks: seq<Task>, s: State)
    requires |s| == |tasks|
  {
    forall i :: 0 <= i < |tasks| ==>
      && !s[i].phase.Ending?
      && (s[i].phase.Acquiring? ==> Wants(tasks, s, i))
      && (s[i].phase.Running? ==> HasBusyChild(tasks, s, i))
  }

  /** Below a running goroutine somebody waits for a slot beyond all of its own. */
  lemma SomeoneBelowWants(tasks: seq<Task>, s: State, h: nat) returns (d: nat)
    requires |s| == |tasks| && WellFormed(tasks) && OnlyWaits(tasks, s)
    requires h < |tasks| && s[h].phase.Running?
    ensures Wants(tasks, s, d)
    ensures Ceiling(tasks[h].kind) <= NextOrder(tasks, s, d)
    decreases |tasks| - h
  {
    var c :| 0 <= c < |tasks| && IsChild(tasks, c, h) && (s[c].phase.Acquiring? || s[c].phase.Running?);
    PoolsAscend(tasks[h].kind, tasks[c].kind);
    if s[c].phase.Acquiring? {
      d := c;
    } else {
      d := SomeoneBelowWants(tasks, s, c);
    }
  }

  /** Every pool of a goroutine lies below its ceiling, every pool of those below it at or above. */
  function Ceiling(k: Kind): nat {
    match k
    case Collector => 0
    case Service(_) => 1
    case ServicePart => 1
    case Account(_) => 2
    case InstanceRegion => 3
    case GroupRegion => 3
    case SilentRegion => 3
    case Rule(_) => 4
  }

  /** Slots are taken in one order, from a goroutine to those it starts. */
  lemma PoolsAscend(parent: Kind, child: Kind)
    requires MayStart(parent, child)
    ensures Ceiling(parent) <= Ceiling(child)
    ensures forall q :: q in Pools(child) ==> Ceiling(parent) <= Order(q)
  {
  }

  lemma PoolsBelowCeiling(k: Kind, p: Pool)
    requires p in Pools(k)
    ensures Order(p) < Ceiling(k)
  {
  }

  lemma OwnPoolsAscend(k: Kind, held: nat, p: Pool)
    requires held < |Pools(k)| && HoldsSlot(k, held, p)
    ensures Order(p) < Order(Pools(k)[held])
  {
  }

  /** Of those who want a slot, one whose wanted pool comes last in the order. */
  lemma {:induction false} FurthestWanter(tasks: seq<Task>, s: State, n: nat) returns (best: nat)
    requires |s| == |tasks| && n <= |tasks| && exists i :: 0 <= i < n && Wants(tasks, s, i)
    ensures best < n && Wants(tasks, s, best)
    ensures forall i :: 0 <= i < n && Wants(tasks, s, i) ==> NextOrder(tasks, s, i) <= NextOrder(tasks, s, best)
  {
    if exists i :: 0 <= i < n - 1 && Wants(tasks, s, i) {
      best := FurthestWanter(tasks, s, n - 1);
      if Wants(tasks, s, n - 1) && NextOrder(tasks, s, best) < NextOrder(tasks, s, n - 1) {
        best := n - 1;
      }
    } else {
      best := n - 1;
    }
  }

  /** The pool that the furthest one wants is free: a holder would have to want something further. */
  lemma FurthestPoolIsFree(tasks: seq<Task>, s: State, best: nat)
    requires Inv(tasks, s) && OnlyWaits(tasks, s) && Wants(tasks, s, best)
    requires forall i :: 0 <= i < |tasks| && Wants(tasks, s, i) ==> NextOrder(tasks, s, i) <= NextOrder(tasks, s, best)
    ensures Holders(tasks, s, Pools(tasks[best].kind)[s[best].held]) == {}
  {
    var p := Pools(tasks[best].kind)[s[best].held];
    forall h | 0 <= h < |tasks| ensures !HoldsSlot(tasks[h].kind, s[h].held, p) {
      if HoldsSlot(tasks[h].kind, s[h].held, p) {
        HolderWantsFurther(tasks, s, h, p);
      }
    }
  }

  lemma HolderWantsFurther(tasks: seq<Task>, s: State, h: nat, p: Pool)
    requires Inv(tasks, s) && OnlyWaits(tasks, s) && h < |tasks| && HoldsSlot(tasks[h].kind, s[h].held, p)
    ensures exists d :: Wants(tasks, s, d) && Order(p) < NextOrder(tasks, s, d)
  {
    assert CellInv(tasks[h].kind, s[h]);
    if s[h].phase.Acquiring? {
      OwnPoolsAscend(tasks[h].kind, s[h].held, p);
      assert Wants(tasks, s, h);
    } else {
      var d := SomeoneBelowWants(tasks, s, h);
      PoolsBelowCeiling(tasks[h].kind, p);
    }
  }

  predicate IsIdleChild(tasks: seq<Task>, s: State, c: int, p: int)
    requires |s| == |tasks|
  {
    IsChild(tasks, c, p) && s[c].phase.Idle?
  }

  /** Of the children still to be started, one of the earliest group. */
  lemma {:induction false} FirstIdleChild(tasks: seq<Task>, s: State, p: nat, n: nat) returns (first: nat)
    requires |s| == |tasks| && n <= |tasks| && exists c :: c < n && IsIdleChild(tasks, s, c, p)
    ensures first < n && IsIdleChild(tasks, s, first, p)
    ensures forall c :: c < n && IsIdleChild(tasks, s, c, p) ==> tasks[first].stage <= tasks[c].stage
  {
    if exists c :: c < n - 1 && IsIdleChild(tasks, s, c, p) {
      first := FirstIdleChild(tasks, s, p, n - 1);
      if IsIdleChild(tasks, s, n - 1, p) && tasks[n - 1].stage < tasks[first].stage {
        first := n - 1;
      }
    } else {
      first := n - 1;
    }
  }

  /** What a running goroutine can do unless it waits for somebody at work. */
  lemma RunningCanStep(tasks: seq<Task>, s: State, i: nat) returns (e: Step)
    requires Inv(tasks, s) && i < |tasks| && s[i].phase.Running?
    requires forall c :: 0 <= c < |tasks| ==> !s[c].phase.Ending?
    requires !HasBusyChild(tasks, s, i)
    ensures Enabled(tasks, s, e) && !e.GiveUp?
  {
    if exists c :: IsIdleChild(tasks, s, c, i) {
      var first := FirstIdleChild(tasks, s, i, |tasks|);
      e := Launch(first);
    } else {
      forall c | 0 <= c < |tasks| && IsChild(tasks, c, i) ensures s[c].phase.Done? {
        assert !IsIdleChild(tasks, s, c, i);
      }
      e := Finish(i);
    }
  }

  /** When everybody waits, the furthest wanter's slot is free. */
  lemma WaitersCanStep(tasks: seq<Task>, s: State, i: nat) returns (e: Step)
    requires Inv(tasks, s) && OnlyWaits(tasks, s) && i < |tasks| && (s[i].phase.Acquiring? || s[i].phase.Running?)
    ensures Enabled(tasks, s, e) && !e.GiveUp?
  {
    var w := i;
    if s[i].phase.Running? {
      w := SomeoneBelowWants(tasks, s, i);
    }
    assert Wants(tasks, s, w);
    var best := FurthestWanter(tasks, s, |tasks|);
    FurthestPoolIsFree(tasks, s, best);
    e := Take(best);
  }

  /**
   No deadlock: while work remains somebody can take a slot, start, finish, send or give back, and
   nobody's context has to end, nor anybody fail, for it.
   */
  lemma SomeoneCanStep(tasks: seq<Task>, s: State) returns (e: Step)
    requires Inv(tasks, s) && WorkRemains(tasks, s)
    ensures Enabled(tasks, s, e) && !e.GiveUp?
  {
    var i :| 0 <= i < |tasks| && IsWork(tasks, s, i);
    if j :| 0 <= j < |tasks| && s[j].phase.Ending? {
      e := EndingCanStep(tasks, s, j);
    } else if j :| 0 <= j < |tasks| && s[j].phase.Acquiring? && !Wants(tasks, s, j) {
      assert CellInv(tasks[j].kind, s[j]);
      e := Make(j);
    } else if j :| 0 <= j < |tasks| && s[j].phase.Running? && !HasBusyChild(tasks, s, j) {
      e := RunningCanStep(tasks, s, j);
    } else if s[i].phase.Idle? {
      e := Launch(i);
    } else {
      e := WaitersCanStep(tasks, s, i);
    }
  }

  // ----- Every schedule ends -----

  /** How many steps a goroutine may still take. */
  function StepsLeft(k: Kind, c: Cell): nat {
    var n := |Pools(k)|;
    match c.phase
    case Idle => 3 * n + 5
    case Acquiring => (if c.held <= n then 2 * (n - c.held) else 0) + n + 4
    case Running => n + 3
    case Ending => c.held + (if c.delivery.Owed? then 1 else 0) + 1
    case Done => 0
  }

  function Outstanding(tasks: seq<Task>, s: State): nat
    requires |s| == |tasks|
  {
    if tasks == [] then 0 else StepsLeft(tasks[0].kind, s[0]) + Outstanding(tasks[1..], s[1..])
  }

  lemma {:induction false} OneFewer(tasks: seq<Task>, before: State, after: State, i: nat)
    requires |before| == |tasks| && |after| == |tasks| && i < |tasks|
    requires StepsLeft(tasks[i].kind, after[i]) < StepsLeft(tasks[i].kind, before[i])
    requires forall j :: 0 <= j < |tasks| && j != i ==>
      StepsLeft(tasks[j].kind, after[j]) == StepsLeft(tasks[j].kind, before[j])
    ensures Outstanding(tasks, after) < Outstanding(tasks, before)
    decreases i
  {
    if i > 0 {
      OneFewer(tasks[1..], before[1..], after[1..], i - 1);
    } else {
      SameOutstanding(tasks[1..], before[1..], after[1..]);
    }
  }

  lemma {:induction false} SameOutstanding(tasks: seq<Task>, before: State, after: State)
    requires |before| == |tasks| && |after| == |tasks|
    requires forall j :: 0 <= j < |tasks| ==> StepsLeft(tasks[j].kind, after[j]) == StepsLeft(tasks[j].kind, before[j])
    ensures Outstanding(tasks, after) == Outstanding(tasks, before)
    decreases |tasks|
  {
    if tasks != [] {
      SameOutstanding(tasks[1..], before[1..], after[1..]);
    }
  }

  lemma StepUsesAStep(tasks: seq<Task>, s: State, e: Step)
    requires Inv(tasks, s) && Enabled(tasks, s, e)
    ensures Outstanding(tasks, Apply(tasks, s, e)) < Outstanding(tasks, s)
  {
    assert CellInv(tasks[e.i].kind, s[e.i]);
    OneFewer(tasks, s, Apply(tasks, s, e), e.i);
  }

  lemma {:induction false} AtTheStart(tasks: seq<Task>, s: State)
    requires |s| == |tasks| && forall i :: 0 <= i < |s| ==> s[i] == FRESH
    ensures Outstanding(tasks, s) <= 11 * |tasks|
    decreases |tasks|
  {
    if tasks != [] {
      AtTheStart(tasks[1..], s[1..]);
    }
  }

  /** Every schedule keeps the invariant and is at most as long as the work there was. */
  lemma {:induction false} SchedulesAreBounded(tasks: seq<Task>, s: State, steps: seq<Step>)
    requires Inv(tasks, s) && Run(tasks, s, steps).Some?
    ensures Inv(tasks, Run(tasks, s, steps).value)
    ensures |steps| + Outstanding(tasks, Run(tasks, s, steps).value) <= Outstanding(tasks, s)
    decreases |steps|
  {
    if steps != [] {
      StepKeepsInv(tasks, s, steps[0]);
      StepUsesAStep(tasks, s, steps[0]);
      SchedulesAreBounded(tasks, Apply(tasks, s, steps[0]), steps[1..]);
    }
  }

  /** On every schedule of any collections, a send that is due has room in an open channel. */
  lemma SendNeverBlocks(tasks: seq<Task>, steps: seq<Step>, i: nat)
    requires WellFormed(tasks) && Run(tasks, Start(tasks), steps).Some? && i < |tasks|
    requires |Run(tasks, Start(tasks), steps).value| == |tasks|
    requires SendIsDue(tasks[i].kind, Run(tasks, Start(tasks), steps).value[i])
    ensures Enabled(tasks, Run(tasks, Start(tasks), steps).value, Send(i))
  {
    StartInv(tasks);
    SchedulesAreBounded(tasks, Start(tasks), steps);
    DueSendHasRoom(tasks, Run(tasks, Start(tasks), steps).value, i);
  }

  /**
   An account sends with no slot left, so that nobody waits for one while it does. Whoever else sends may
   still hold its slot.
   */
  lemma AccountsSendWithoutSlots(tasks: seq<Task>, s: State, i: nat)
    requires |s| == |tasks| && WellFormed(tasks) && Enabled(tasks, s, Send(i)) && tasks[i].kind.Account?
    ensures s[i].held == 0
  {
  }

  /** The goroutines that always send, started by `p`. */
  function Reporters(tasks: seq<Task>, p: int): set<int> {
    set c | 0 <= c < |tasks| && IsChild(tasks, c, p) && (tasks[c].kind.Account? || tasks[c].kind.GroupRegion?)
  }

  /**
   Whoever has waited for everybody it started reads a result of every account or security-group region
   among them from its channel, and nothing besides but the errors of instance regions.
   */
  lemma EveryResultIsIn(tasks: seq<Task>, steps: seq<Step>, p: nat)
    requires WellFormed(tasks) && Run(tasks, Start(tasks), steps).Some? && p < |tasks|
    requires |Run(tasks, Start(tasks), steps).value| == |tasks|
    requires Enabled(tasks, Run(tasks, Start(tasks), steps).value, Finish(p))
    ensures var ch := Run(tasks, Start(tasks), steps).value[p].channel;
      && ch.Open? && |Reporters(tasks, p)| <= ch.len <= |Children(tasks, p)|
      && (!tasks[p].kind.Account? ==> ch.len == |Reporters(tasks, p)|)
  {
    StartInv(tasks);
    SchedulesAreBounded(tasks, Start(tasks), steps);
    var s := Run(tasks, Start(tasks), steps).value;
    assert ChannelInv(tasks, s, p) && CellInv(tasks[p].kind, s[p]);
    forall c | 0 <= c < |tasks| && IsChild(tasks, c, p)
      ensures c in Reporters(tasks, p) ==> s[c].delivery.Sent?
      ensures s[c].delivery.Sent? && !tasks[p].kind.Account? ==> c in Reporters(tasks, p)
    {
      assert CellInv(tasks[c].kind, s[c]) && s[c].phase.Done?;
    }
    assert Reporters(tasks, p) <= SentBy(tasks, s, p) <= Children(tasks, p);
    SubsetSize(Reporters(tasks, p), SentBy(tasks, s, p));
    SubsetSize(SentBy(tasks, s, p), Children(tasks, p));
    assert !tasks[p].kind.Account? ==> Reporters(tasks, p) == SentBy(tasks, s, p);
  }

  // ----- Who runs at once -----

  function RunningAccounts(tasks: seq<Task>, s: State): set<int>
    requires |s| == |tasks|
  {
    set i | 0 <= i < |tasks| && s[i].phase.Running? && tasks[i].kind.Account?
  }

  /** Every kind of region: of instances, of security groups, of EDS, and the buckets of OSS. */
  function RunningRegions(tasks: seq<Task>, s: State): set<int>
    requires |s| == |tasks|
  {
    set i | 0 <= i < |tasks| && s[i].phase.Running?
      && (tasks[i].kind.InstanceRegion? || tasks[i].kind.GroupRegion? || tasks[i].kind.SilentRegion?)
  }

  function RunningRules(tasks: seq<Task>, s: State, collection: int): set<int>
    requires |s| == |tasks|
  {
    set i | 0 <= i < |tasks| && s[i].phase.Running? && tasks[i].kind == Rule(collection)
  }

  function RunningUnderLease(tasks: seq<Task>, s: State, key: int): set<int>
    requires |s| == |tasks|
  {
    set i | 0 <= i < |tasks| && s[i].phase.Running? && (tasks[i].kind == Account(key) || tasks[i].kind == Service(key))
  }

  /** Goroutines that run and need a slot of a pool are at most as many as its slots. */
  lemma RunnersAreHolders(tasks: seq<Task>, s: State, runners: set<int>, p: Pool)
    requires Inv(tasks, s)
    requires forall i :: i in runners ==> 0 <= i < |tasks| && s[i].phase.Running? && p in Pools(tasks[i].kind)
    ensures |runners| <= Capacity(p)
  {
    forall i | i in runners ensures i in Holders(tasks, s, p) {
      assert CellInv(tasks[i].kind, s[i]);
      assert Pools(tasks[i].kind)[..s[i].held] == Pools(tasks[i].kind);
    }
    SubsetSize(runners, Holders(tasks, s, p));
  }

  lemma FewAccountsRun(tasks: seq<Task>, s: State)
    requires Inv(tasks, s)
    ensures |RunningAccounts(tasks, s)| <= 4
  {
    RunnersAreHolders(tasks, s, RunningAccounts(tasks, s), AccountSlots);
  }

  lemma FewRegionsRun(tasks: seq<Task>, s: State)
    requires Inv(tasks, s)
    ensures |RunningRegions(tasks, s)| <= 6
  {
    RunnersAreHolders(tasks, s, RunningRegions(tasks, s), RegionSlots);
  }

  lemma FewRulesRun(tasks: seq<Task>, s: State, collection: int)
    requires Inv(tasks, s)
    ensures |RunningRules(tasks, s, collection)| <= 8
  {
    RunnersAreHolders(tasks, s, RunningRules(tasks, s, collection), RuleSlots(collection));
  }

  lemma OneRunsUnderLease(tasks: seq<Task>, s: State, key: int)
    requires Inv(tasks, s)
    ensures |RunningUnderLease(tasks, s, key)| <= 1
  {
    RunnersAreHolders(tasks, s, RunningUnderLease(tasks, s, key), LeasePool(key));
  }

  /**
   On every schedule at most 4 accounts, 6 regions of all kinds together, 8 rule reads of one collection
   and one account or service under a lease are running at once.
   */
  lemma AtMostSoManyRun(tasks: seq<Task>, steps: seq<Step>, collection: int, key: int)
    requires WellFormed(tasks) && Run(tasks, Start(tasks), steps).Some?
    ensures var s := Run(tasks, Start(tasks), steps).value;
      && |s| == |tasks|
      && |RunningAccounts(tasks, s)| <= 4 && |RunningRegions(tasks, s)| <= 6
      && |RunningRules(tasks, s, collection)| <= 8 && |RunningUnderLease(tasks, s, key)| <= 1
  {
    StartInv(tasks);
    SchedulesAreBounded(tasks, Start(tasks), steps);
    var s := Run(tasks, Start(tasks), steps).value;
    FewAccountsRun(tasks, s);
    FewRegionsRun(tasks, s);
    FewRulesRun(tasks, s, collection);
    OneRunsUnderLease(tasks, s, key);
  }

  // ----- Groups -----

  /** Whoever has been started found every earlier group of its siblings done. */
  ghost predicate GroupsInOrder(tasks: seq<Task>, s: State)
    requires |s| == |tasks|
  {
    forall c, d :: IsBefore(tasks, d, c) && !s[c].phase.Idle? ==> s[d].phase.Done?
  }

  lemma StepKeepsOrder(tasks: seq<Task>, s: State, e: Step)
    requires |s| == |tasks| && WellFormed(tasks) && Enabled(tasks, s, e) && GroupsInOrder(tasks, s)
    ensures GroupsInOrder(tasks, Apply(tasks, s, e))
  {
    var next := Apply(tasks, s, e);
    forall c, d | IsBefore(tasks, d, c) && !next[c].phase.Idle? ensures next[d].phase.Done? {
      assert s[d].phase.Done?;
    }
  }

  lemma {:induction false} RunKeepsOrder(tasks: seq<Task>, s: State, steps: seq<Step>)
    requires |s| == |tasks| && WellFormed(tasks) && Run(tasks, s, steps).Some? && GroupsInOrder(tasks, s)
    ensures |Run(tasks, s, steps).value| == |tasks| && GroupsInOrder(tasks, Run(tasks, s, steps).value)
    decreases |steps|
  {
    if steps != [] {
      StepKeepsOrder(tasks, s, steps[0]);
      RunKeepsOrder(tasks, Apply(tasks, s, steps[0]), steps[1..]);
    }
  }

  /** On every schedule the groups of one goroutine follow one another: none overlaps with a later one. */
  lemma GroupsFollowOneAnother(tasks: seq<Task>, steps: seq<Step>, c: nat, d: nat)
    requires WellFormed(tasks) && Run(tasks, Start(tasks), steps).Some? && IsBefore(tasks, d, c)
    requires |Run(tasks, Start(tasks), steps).value| == |tasks|
    requires !Run(tasks, Start(tasks), steps).value[c].phase.Idle?
    ensures Run(tasks, Start(tasks), steps).value[d].phase.Done?
  {
    RunKeepsOrder(tasks, Start(tasks), steps);
  }

  // ----- The main result -----

  /** Nobody can go on; failures and contexts that end do not count. */
  ghost predicate AtRest(tasks: seq<Task>, s: State)
    requires |s| == |tasks| && WellFormed(tasks)
  {
    forall e: Step :: Enabled(tasks, s, e) ==> e.GiveUp?
  }

  lemma RestMeansDone(tasks: seq<Task>, s: State)
    requires Inv(tasks, s) && AtRest(tasks, s)
    ensures !WorkRemains(tasks, s)
    ensures forall p :: Holders(tasks, s, p) == {}
    ensures forall i :: 0 <= i < |tasks| && tasks[i].parent.None? ==> s[i].phase.Done?
  {
    if WorkRemains(tasks, s) {
      var e := SomeoneCanStep(tasks, s);
      assert false;
    }
    forall i | 0 <= i < |tasks| ensures s[i].held == 0 && (tasks[i].parent.None? ==> s[i].phase.Done?) {
      assert !IsWork(tasks, s, i) && CellInv(tasks[i].kind, s[i]);
    }
  }

  /** From every state there is a schedule without any failure that finishes all the work. */
  lemma {:induction false} WorkCanBeFinished(tasks: seq<Task>, s: State) returns (steps: seq<Step>)
    requires Inv(tasks, s)
    ensures Run(tasks, s, steps).Some? && forall e :: e in steps ==> !e.GiveUp?
    ensures |Run(tasks, s, steps).value| == |tasks| && !WorkRemains(tasks, Run(tasks, s, steps).value)
    decreases Outstanding(tasks, s)
  {
    if WorkRemains(tasks, s) {
      var e := SomeoneCanStep(tasks, s);
      StepKeepsInv(tasks, s, e);
      StepUsesAStep(tasks, s, e);
      var rest := WorkCanBeFinished(tasks, Apply(tasks, s, e));
      steps := [e] + rest;
      assert steps[1..] == rest;
    } else {
      steps := [];
    }
  }

  // ----- Nothing is left out -----

  /** Whoever is past its work has run, and everybody it starts is done. */
  predicate IsThorough(tasks: seq<Task>, s: State, i: int)
    requires |s| == |tasks| && 0 <= i < |tasks|
  {
    s[i].phase.Ending? || s[i].phase.Done? ==> s[i].channel.Closed? && ChildrenDone(tasks, s, i)
  }

  lemma StepKeepsThorough(tasks: seq<Task>, s: State, e: Step, i: nat)
    requires |s| == |tasks| && WellFormed(tasks) && Enabled(tasks, s, e) && !e.GiveUp? && i < |tasks|
    requires IsThorough(tasks, s, i)
    ensures IsThorough(tasks, Apply(tasks, s, e), i)
  {
  }

  lemma {:induction false} RunKeepsThorough(tasks: seq<Task>, s: State, steps: seq<Step>)
    requires |s| == |tasks| && WellFormed(tasks) && Run(tasks, s, steps).Some? && forall e :: e in steps ==> !e.GiveUp?
    requires forall i :: 0 <= i < |tasks| ==> IsThorough(tasks, s, i)
    ensures |Run(tasks, s, steps).value| == |tasks|
    ensures forall i :: 0 <= i < |tasks| ==> IsThorough(tasks, Run(tasks, s, steps).value, i)
    decreases |steps|
  {
    if steps != [] {
      assert steps[0] in steps;
      forall i | 0 <= i < |tasks| ensures IsThorough(tasks, Apply(tasks, s, steps[0]), i) {
        StepKeepsThorough(tasks, s, steps[0], i);
      }
      RunKeepsThorough(tasks, Apply(tasks, s, steps[0]), steps[1..]);
    }
  }

  lemma {:induction false} ThoroughMeansAll(tasks: seq<Task>, s: State, i: nat)
    requires |s| == |tasks| && WellFormed(tasks) && i < |tasks| && !WorkRemains(tasks, s)
    requires forall j :: 0 <= j < |tasks| ==> IsThorough(tasks, s, j)
    ensures s[i].phase.Done?
    decreases i
  {
    if tasks[i].parent.None? {
      assert !IsWork(tasks, s, i);
    } else {
      var p := tasks[i].parent.value;
      ThoroughMeansAll(tasks, s, p);
      assert IsThorough(tasks, s, p) && IsChild(tasks, i, p);
    }
  }

  /**
   On a schedule without failures that has come to rest, every goroutine has got its slots, run and
   ended: each account, region and rule was collected.
   */
  lemma EverythingIsCollected(tasks: seq<Task>, steps: seq<Step>, i: nat)
    requires WellFormed(tasks) && Run(tasks, Start(tasks), steps).Some? && i < |tasks|
    requires |Run(tasks, Start(tasks), steps).value| == |tasks| && AtRest(tasks, Run(tasks, Start(tasks), steps).value)
    requires forall e :: e in steps ==> !e.GiveUp?
    ensures var c := Run(tasks, Start(tasks), steps).value[i]; c.phase.Done? && c.channel.Closed?
  {
    StartInv(tasks);
    SchedulesAreBounded(tasks, Start(tasks), steps);
    var s := Run(tasks, Start(tasks), steps).value;
    RestMeansDone(tasks, s);
    RunKeepsThorough(tasks, Start(tasks), steps);
    ThoroughMeansAll(tasks, s, i);
    assert IsThorough(tasks, s, i);
  }

  /** Any set of collections has a schedule without any failure that starts and finishes every goroutine. */
  lemma EveryCollectionCanFinish(tasks: seq<Task>)
    requires WellFormed(tasks)
    ensures exists steps: seq<Step> ::
      && Run(tasks, Start(tasks), steps).Some? && (forall e :: e in steps ==> !e.GiveUp?)
      && var s := Run(tasks, Start(tasks), steps).value;
         |s| == |tasks| && forall i :: 0 <= i < |tasks| ==> s[i].phase.Done?
  {
    StartInv(tasks);
    var steps := WorkCanBeFinished(tasks, Start(tasks));
    RunKeepsThorough(tasks, Start(tasks), steps);
    var s := Run(tasks, Start(tasks), steps).value;
    forall i | 0 <= i < |tasks| ensures s[i].phase.Done? {
      ThoroughMeansAll(tasks, s, i);
    }
  }

  /** A waiting goroutine gets its next slot exactly when fewer than the pool has are held. */
  lemma TakesIffOneIsLeft(tasks: seq<Task>, s: State, i: nat)
    requires |s| == |tasks| && WellFormed(tasks) && Wants(tasks, s, i)
    ensures var p := Pools(tasks[i].kind)[s[i].held];
      Enabled(tasks, s, Take(i)) <==>
        |Holders(tasks, s, p)| <
          match p
          case LeasePool(_) => 1
          case AccountSlots => 4
          case RegionSlots => 6
          case RuleSlots(_) => 8
  {
  }

  /** Whoever waits for a slot can stop waiting, and whoever has nobody at work can stop starting more. */
  lemma WaitingCanEnd(tasks: seq<Task>, s: State, i: nat)
    requires |s| == |tasks| && WellFormed(tasks) && i < |tasks|
    ensures s[i].phase.Acquiring? ==> Enabled(tasks, s, GiveUp(i))
    ensures s[i].phase.Running? && (forall c :: IsChild(tasks, c, i) ==> s[c].phase in {Idle, Done}) ==>
      Enabled(tasks, s, GiveUp(i))
    ensures Enabled(tasks, s, GiveUp(i)) ==>
      var c := Apply(tasks, s, GiveUp(i))[i];
      c.phase.Ending? && c.held == s[i].held && (s[i].channel.Open? ==> c.channel.Closed?)
  {
  }

  /** One of each kind, under whoever starts it: what the collectors set off can all be expressed. */
  lemma EveryKindIsStarted(key: int, collection: int)
    ensures WellFormed([
      Task(Collector, None, 0), Task(Account(key), Some(0), 0), Task(InstanceRegion, Some(1), 0),
      Task(Service(key), None, 0), Task(SilentRegion, Some(3), 0), Task(ServicePart, Some(3), 1),
      Task(SilentRegion, Some(5), 0), Task(GroupRegion, Some(3), 0), Task(Rule(collection), Some(7), 0)])
  {
  }

  lemma PoolsAreBounded(tasks: seq<Task>, s: State)
    requires Inv(tasks, s)
    ensures |Holders(tasks, s, AccountSlots)| <= ACCOUNT_SLOTS
    ensures |Holders(tasks, s, RegionSlots)| <= REGION_SLOTS
    ensures forall collection :: |Holders(tasks, s, RuleSlots(collection))| <= RULE_SLOTS
    ensures forall key :: |Holders(tasks, s, LeasePool(key))| <= 1
  {
    assert forall key :: Capacity(LeasePool(key)) == 1;
    assert forall collection :: Capacity(RuleSlots(collection)) == RULE_SLOTS;
  }

  /**
   The main result: on every schedule of any set of collections at most 4 accounts and 6 regional
   calls are running, at most 8 rule reads per collection, and at most one goroutine holds a lease; a
   schedule that has come to rest has finished everything it started and returned every slot it took.
   */
  lemma BoundedAndDeadlockFree(tasks: seq<Task>, steps: seq<Step>)
    requires WellFormed(tasks) && Run(tasks, Start(tasks), steps).Some?
    ensures var s := Run(tasks, Start(tasks), steps).value;
      && |s| == |tasks|
      && |Holders(tasks, s, AccountSlots)| <= 4
      && |Holders(tasks, s, RegionSlots)| <= 6
      && (forall collection :: |Holders(tasks, s, RuleSlots(collection))| <= 8)
      && (forall key :: |Holders(tasks, s, LeasePool(key))| <= 1)
      && |steps| <= 11 * |tasks|
      && (AtRest(tasks, s) ==>
            && (forall p :: Holders(tasks, s, p) == {})
            && (forall i :: 0 <= i < |tasks| && tasks[i].parent.None? ==> s[i].phase.Done?))
  {
    StartInv(tasks);
    SchedulesAreBounded(tasks, Start(tasks), steps);
    AtTheStart(tasks, Start(tasks));
    var s := Run(tasks, Start(tasks), steps).value;
    PoolsAreBounded(tasks, s);
    if AtRest(tasks, s) {
      RestMeansDone(tasks, s);
    }
  }
}
