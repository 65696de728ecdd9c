/**
 The goroutines of the collectors, the semaphores they wait on and the channels they report through.

 A goroutine takes the slots of its pools one after the other, then makes a channel with room for one
 result of every goroutine it is about to start, starts them, waits for all of them, reports to the
 channel of the goroutine that started it and gives its slots back. A region reports while it still
 holds its slot, an account after it gave everything back. A goroutine may start several groups, one
 after the other; it waits for a group before it starts the next, or fails in between. A schedule is
 any sequence of steps of any set of goroutines; a send is a step of its own that needs room in an
 open channel.
 */
module Slots {
  import opened Prelude

  datatype Pool =
    | LeasePool(key: int)
    | AccountSlots
    | RegionSlots
    | RuleSlots(collection: int)

  const ACCOUNT_SLOTS := 4
  const REGION_SLOTS := 6
  const RULE_SLOTS := 8

  function Capacity(p: Pool): (n: nat)
    ensures n > 0
  {
    match p
    case LeasePool(_) => 1
    case AccountSlots => ACCOUNT_SLOTS
    case RegionSlots => REGION_SLOTS
    case RuleSlots(_) => RULE_SLOTS
  }

  /** The order in which slots are taken: lease, account, region, rule. */
  function Order(p: Pool): nat {
    match p
    case LeasePool(_) => 0
    case AccountSlots => 1
    case RegionSlots => 2
    case RuleSlots(_) => 3
  }

  datatype Kind =
    | Collector              // collects a list of accounts
    | Account(key: int)      // one account of it, under its lease
    | InstanceRegion         // one region of an account; reports errors only
    | Service(key: int)      // a service refresh of one account, under its lease
    | ServicePart            // the users or the desktops of an EDS refresh, collected side by side
    | GroupRegion            // one region of the security groups
    | SilentRegion           // one EDS region or OSS bucket; has no channel
    | Rule(collection: int)  // the rules of one security group, filled in place

  function Pools(k: Kind): seq<Pool> {
    match k
    case Collector => []
    case Account(key) => [LeasePool(key), AccountSlots]
    case InstanceRegion => [RegionSlots]
    case Service(key) => [LeasePool(key)]
    case ServicePart => []
    case GroupRegion => [RegionSlots]
    case SilentRegion => [RegionSlots]
    case Rule(collection) => [RuleSlots(collection)]
  }

  predicate Reports(k: Kind) {
    k.Account? || k.InstanceRegion? || k.GroupRegion?
  }

  /** An account sends after its lease and slot are given back, a region before. */
  predicate SendsLast(k: Kind) {
    k.Account?
  }

  predicate MayStart(parent: Kind, child: Kind) {
    match child
    case Account(_) => parent.Collector?
    case InstanceRegion => parent.Account?
    case GroupRegion => parent.Service?
    case ServicePart => parent.Service?
    case SilentRegion => parent.Service? || parent.ServicePart?
    case Rule(_) => parent.GroupRegion?
    case _ => false
  }

  /** A goroutine, the earlier one that starts it, and the group of siblings it is started in. */
  datatype Task = Task(kind: Kind, parent: Option<nat>, stage: nat)

  predicate WellFormed(tasks: seq<Task>) {
    forall i :: 0 <= i < |tasks| ==>
      match tasks[i].parent
      case None => tasks[i].kind.Collector? || tasks[i].kind.Service?
      case Some(p) => p < i && MayStart(tasks[p].kind, tasks[i].kind)
  }

  predicate IsChild(tasks: seq<Task>, c: int, p: int) {
    0 <= c < |tasks| && tasks[c].parent.Some? && tasks[c].parent.value as int == p
  }

  function Children(tasks: seq<Task>, p: int): set<int> {
    set c | 0 <= c < |tasks| && IsChild(tasks, c, p)
  }

  // ----- States -----

  datatype Phase =
    | Idle       // not started yet
    | Acquiring  // taking its slots
    | Running    // has made its channel
    | Ending     // its work is over, one way or the other
    | Done

  datatype Delivery = Owed | Sent | Waived

  datatype Channel = Unmade | Open(capacity: nat, len: nat) | Closed

  datatype Cell = Cell(phase: Phase, held: nat, delivery: Delivery, channel: Channel)

  type State = seq<Cell>

  const FRESH := Cell(Idle, 0, Owed, Unmade)

  function Start(tasks: seq<Task>): (s: State)
    ensures |s| == |tasks| && forall i :: 0 <= i < |s| ==> s[i] == FRESH
  {
    seq(|tasks|, _ => FRESH)
  }

  /** The goroutine holds a slot of the pool. */
  predicate HoldsSlot(k: Kind, held: nat, p: Pool) {
    held <= |Pools(k)| && p in Pools(k)[..held]
  }

  function Holders(tasks: seq<Task>, s: State, p: Pool): set<int>
    requires |s| == |tasks|
  {
    set i | 0 <= i < |tasks| && HoldsSlot(tasks[i].kind, s[i].held, p)
  }

  datatype Step =
    | Launch(i: nat)   // is started
    | Take(i: nat)     // gets its next slot
    | GiveUp(i: nat)   // its context ends, it fails, or an account settles for another's result
    | Make(i: nat)     // has its slots and makes its channel
    | Finish(i: nat)   // everything it started is done; closes and reads its channel
    | Send(i: nat)
    | Waive(i: nat)    // a region without an error has nothing to send
    | Release(i: nat)  // gives its last slot back
    | Exit(i: nat)

  /** The send itself may be due, whether the channel has room or not. */
  predicate SendIsDue(k: Kind, c: Cell) {
    c.phase.Ending? && Reports(k) && c.delivery.Owed? && (SendsLast(k) ==> c.held == 0)
  }

  predicate HasRoom(ch: Channel) {
    ch.Open? && ch.len < ch.capacity
  }

  predicate ParentRuns(tasks: seq<Task>, s: State, i: int)
    requires |s| == |tasks| && WellFormed(tasks) && 0 <= i < |tasks|
  {
    tasks[i].parent.Some? ==> s[tasks[i].parent.value].phase.Running?
  }

  /** Siblings of an earlier group. */
  predicate IsBefore(tasks: seq<Task>, d: int, c: int) {
    && 0 <= c < |tasks| && 0 <= d < |tasks| && tasks[c].parent.Some? && tasks[d].parent == tasks[c].parent
    && tasks[d].stage < tasks[c].stage
  }

  predicate EarlierGroupsDone(tasks: seq<Task>, s: State, c: int)
    requires |s| == |tasks|
  {
    forall d :: 0 <= d < |tasks| && IsBefore(tasks, d, c) ==> s[d].phase.Done?
  }

  /** Nobody it started is still at work. */
  predicate ChildrenResting(tasks: seq<Task>, s: State, i: int)
    requires |s| == |tasks|
  {
    forall c :: 0 <= c < |tasks| && IsChild(tasks, c, i) ==> s[c].phase.Done? || s[c].phase.Idle?
  }

  predicate ChildrenDone(tasks: seq<Task>, s: State, i: int)
    requires |s| == |tasks|
  {
    forall c :: 0 <= c < |tasks| && IsChild(tasks, c, i) ==> s[c].phase.Done?
  }

  predicate Enabled(tasks: seq<Task>, s: State, e: Step)
    requires |s| == |tasks| && WellFormed(tasks)
  {
    && e.i < |tasks|
    && var k, c := tasks[e.i].kind, s[e.i];
       match e
       case Launch(i) => c.phase.Idle? && ParentRuns(tasks, s, i) && EarlierGroupsDone(tasks, s, i)
       case Take(_) =>
         c.phase.Acquiring? && c.held < |Pools(k)| && |Holders(tasks, s, Pools(k)[c.held])| < Capacity(Pools(k)[c.held])
       case GiveUp(i) => c.phase.Acquiring? || (c.phase.Running? && ChildrenResting(tasks, s, i))
       case Make(_) => c.phase.Acquiring? && c.held == |Pools(k)|
       case Finish(i) => c.phase.Running? && ChildrenDone(tasks, s, i)
       case Send(_) => SendIsDue(k, c) && tasks[e.i].parent.Some? && HasRoom(s[tasks[e.i].parent.value].channel)
       case Waive(_) => SendIsDue(k, c) && k.InstanceRegion?
       case Release(_) => c.phase.Ending? && c.held > 0 && (Reports(k) && c.delivery.Owed? ==> SendsLast(k))
       case Exit(_) => c.phase.Ending? && c.held == 0 && (Reports(k) ==> !c.delivery.Owed?)
  }

  /** What a step makes of the goroutine that takes it. */
  function Moved(tasks: seq<Task>, c: Cell, e: Step): Cell {
    match e
    case Launch(_) => c.(phase := Acquiring)
    case Take(_) => c.(held := c.held + 1)
    case GiveUp(_) => c.(phase := Ending, channel := if c.channel.Open? then Closed else c.channel)
    case Make(i) => c.(phase := Running, channel := Open(|Children(tasks, i)|, 0))
    case Finish(_) => c.(phase := Ending, channel := Closed)
    case Send(_) => c.(delivery := Sent)
    case Waive(_) => c.(delivery := Waived)
    case Release(_) => c.(held := if c.held > 0 then c.held - 1 else 0)
    case Exit(_) => c.(phase := Done)
  }

  function Received(c: Cell): Cell {
    if c.channel.Open? then c.(channel := Open(c.channel.capacity, c.channel.len + 1)) else c
  }

  function Apply(tasks: seq<Task>, s: State, e: Step): (next: State)
    requires |s| == |tasks| && WellFormed(tasks) && Enabled(tasks, s, e)
    ensures |next| == |tasks|
    ensures next[e.i] == Moved(tasks, s[e.i], e)
    ensures forall j :: 0 <= j < |s| && j != e.i ==>
      next[j] == if e.Send? && tasks[e.i].parent == Some(j) then Received(s[j]) else s[j]
  {
    var moved := s[e.i := Moved(tasks, s[e.i], e)];
    if e.Send? then
      var p := tasks[e.i].parent.value;
      moved[p := Received(s[p])]
    else moved
  }

  function Run(tasks: seq<Task>, s: State, steps: seq<Step>): Option<State>
    requires |s| == |tasks| && WellFormed(tasks)
    decreases |steps|
  {
    if steps == [] then Some(s)
    else if !Enabled(tasks, s, steps[0]) then None
    else Run(tasks, Apply(tasks, s, steps[0]), steps[1..])
  }

  // ----- The invariant -----

  /** What a phase says about the slots, the result and the channel. */
  predicate CellInv(k: Kind, c: Cell) {
    && c.held <= |Pools(k)|
    && (c.phase.Idle? || c.phase.Done? ==> c.held == 0)
    && (c.phase.Running? ==> c.held == |Pools(k)|)
    && (c.phase.Idle? || c.phase.Acquiring? || c.phase.Running? ==> c.delivery.Owed?)
    && (c.phase.Running? <==> c.channel.Open?)
    && (c.phase.Done? && Reports(k) ==> !c.delivery.Owed?)
    && (c.delivery.Sent? ==> Reports(k)) && (c.delivery.Waived? ==> k.InstanceRegion?)
  }

  function SentBy(tasks: seq<Task>, s: State, p: int): set<int>
    requires |s| == |tasks|
  {
    set c | 0 <= c < |tasks| && IsChild(tasks, c, p) && s[c].delivery.Sent?
  }

  /** An open channel has room for every child and holds what the children have sent. */
  predicate ChannelInv(tasks: seq<Task>, s: State, p: int)
    requires |s| == |tasks| && 0 <= p < |tasks|
  {
    var ch := s[p].channel;
    ch.Open? ==> ch.capacity == |Children(tasks, p)| && ch.len == |SentBy(tasks, s, p)|
  }

  /** Whoever has been started and is not done has a running starter; who was not started has sent nothing. */
  predicate StarterInv(tasks: seq<Task>, s: State, i: int)
    requires |s| == |tasks| && WellFormed(tasks) && 0 <= i < |tasks|
  {
    && (!s[i].phase.Idle? && !s[i].phase.Done? ==> ParentRuns(tasks, s, i))
    && (tasks[i].parent.Some? && (s[tasks[i].parent.value].phase.Idle? || s[tasks[i].parent.value].phase.Acquiring?) ==>
          s[i].phase.Idle?)
  }

  ghost predicate Inv(tasks: seq<Task>, s: State) {
    && |s| == |tasks| && WellFormed(tasks)
    && (forall i :: 0 <= i < |tasks| ==> CellInv(tasks[i].kind, s[i]))
    && (forall i :: 0 <= i < |tasks| ==> StarterInv(tasks, s, i))
    && (forall i :: 0 <= i < |tasks| ==> ChannelInv(tasks, s, i))
    && (forall p :: |Holders(tasks, s, p)| <= Capacity(p))
  }

  lemma StartInv(tasks: seq<Task>)
    requires WellFormed(tasks)
    ensures Inv(tasks, Start(tasks))
  {
    forall p ensures |Holders(tasks, Start(tasks), p)| <= Capacity(p) {
      assert Holders(tasks, Start(tasks), p) == {};
    }
  }

  lemma StepKeepsCell(tasks: seq<Task>, s: State, e: Step, i: nat)
    requires |s| == |tasks| && WellFormed(tasks) && Enabled(tasks, s, e) && i < |tasks|
    requires CellInv(tasks[i].kind, s[i])
    ensures CellInv(tasks[i].kind, Apply(tasks, s, e)[i])
  {
  }

  lemma StepKeepsStarter(tasks: seq<Task>, s: State, e: Step, i: nat)
    requires |s| == |tasks| && WellFormed(tasks) && Enabled(tasks, s, e) && i < |tasks|
    requires StarterInv(tasks, s, i)
    ensures StarterInv(tasks, Apply(tasks, s, e), i)
  {
    if (e.Finish? || e.GiveUp?) && tasks[i].parent == Some(e.i) {
      assert IsChild(tasks, i, e.i);
    }
  }

  lemma SendFillsChannel(tasks: seq<Task>, s: State, e: Step, p: nat)
    requires |s| == |tasks| && WellFormed(tasks) && Enabled(tasks, s, e) && p < |tasks|
    requires e.Send? && tasks[e.i].parent == Some(p) && ChannelInv(tasks, s, p)
    ensures ChannelInv(tasks, Apply(tasks, s, e), p)
  {
    var next := Apply(tasks, s, e);
    assert IsChild(tasks, e.i, p) && p < e.i;
    assert SentBy(tasks, next, p) == SentBy(tasks, s, p) + {e.i as int};
  }

  /** No other step changes what the children of `p` have sent. */
  lemma OthersSendNothing(tasks: seq<Task>, s: State, e: Step, p: nat)
    requires |s| == |tasks| && WellFormed(tasks) && Enabled(tasks, s, e) && p < |tasks|
    requires !(e.Send? && tasks[e.i].parent == Some(p))
    ensures SentBy(tasks, Apply(tasks, s, e), p) == SentBy(tasks, s, p)
  {
    assert !(e.Send? && IsChild(tasks, e.i, p));
  }

  lemma StepKeepsChannel(tasks: seq<Task>, s: State, e: Step, p: nat)
    requires Inv(tasks, s) && Enabled(tasks, s, e) && p < |tasks|
    ensures ChannelInv(tasks, Apply(tasks, s, e), p)
  {
    assert ChannelInv(tasks, s, p);
    if e.Send? && tasks[e.i].parent == Some(p) {
      SendFillsChannel(tasks, s, e, p);
    } else {
      OthersSendNothing(tasks, s, e, p);
      if e.Make? && e.i == p {
        NothingSentYet(tasks, s, p);
      }
    }
  }

  lemma NothingSentYet(tasks: seq<Task>, s: State, p: nat)
    requires Inv(tasks, s) && p < |tasks| && s[p].phase.Acquiring?
    ensures SentBy(tasks, s, p) == {}
  {
    forall c | 0 <= c < |tasks| && IsChild(tasks, c, p) ensures !s[c].delivery.Sent? {
      assert StarterInv(tasks, s, c) && CellInv(tasks[c].kind, s[c]);
    }
  }

  lemma StepKeepsCapacity(tasks: seq<Task>, s: State, e: Step, p: Pool)
    requires |s| == |tasks| && WellFormed(tasks) && Enabled(tasks, s, e)
    requires CellInv(tasks[e.i].kind, s[e.i]) && |Holders(tasks, s, p)| <= Capacity(p)
    ensures |Holders(tasks, Apply(tasks, s, e), p)| <= Capacity(p)
  {
    var before, after := Holders(tasks, s, p), Holders(tasks, Apply(tasks, s, e), p);
    var k, c := tasks[e.i].kind, s[e.i];
    OnlyTakeTakes(k, c, Moved(tasks, c, e), e, p);
    if e.Take? && Pools(k)[c.held] == p {
      assert after <= before + {e.i as int};
      SubsetSize(after, before + {e.i as int});
    } else {
      assert after <= before;
      SubsetSize(after, before);
    }
  }

  lemma OnlyTakeTakes(k: Kind, c: Cell, moved: Cell, e: Step, p: Pool)
    requires c.held <= |Pools(k)| && (e.Take? ==> c.held < |Pools(k)| && moved.held == c.held + 1)
    requires !e.Take? ==> moved.held <= c.held
    ensures HoldsSlot(k, moved.held, p) ==> HoldsSlot(k, c.held, p) || (e.Take? && Pools(k)[c.held] == p)
  {
  }

  lemma StepKeepsInv(tasks: seq<Task>, s: State, e: Step)
    requires Inv(tasks, s) && Enabled(tasks, s, e)
    ensures Inv(tasks, Apply(tasks, s, e))
  {
    var next := Apply(tasks, s, e);
    forall i | 0 <= i < |tasks| ensures CellInv(tasks[i].kind, next[i]) { StepKeepsCell(tasks, s, e, i); }
    forall i | 0 <= i < |tasks| ensures StarterInv(tasks, next, i) { StepKeepsStarter(tasks, s, e, i); }
    forall i | 0 <= i < |tasks| ensures ChannelInv(tasks, next, i) { StepKeepsChannel(tasks, s, e, i); }
    forall p ensures |Holders(tasks, next, p)| <= Capacity(p) { StepKeepsCapacity(tasks, s, e, p); }
  }
}
