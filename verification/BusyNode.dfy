/**
 The server busy flag of one node (app/busy.go).

 Every critical section under the mutex is one atomic action that reads the clock once. The Go timers are
 explicit: a timer that has fired has a callback waiting for the mutex, and stopping it no longer helps.
 */
module BusyNode {
  import opened Prelude

  /** Nanoseconds since Go's zero time, so that `time.Time{}` is 0. */
  type Time = int

  const SECOND: int := 1_000_000_000
  const MAX_DURATION: int := 0x7fff_ffff_ffff_ffff
  const UNIX_EPOCH: int := 62_135_596_800

  function Unix(t: Time): int { t / SECOND - UNIX_EPOCH }

  function FromUnix(seconds: int): Time { (seconds + UNIX_EPOCH) * SECOND }

  /** What is left of an expiry after a trip through the cluster message. */
  function Truncate(t: Time): Time { FromUnix(Unix(t)) }

  /** `time.Until`: a duration is 64 bits wide and saturates. */
  function Until(expires: Time, now: Time): int {
    var d := expires - now;
    if d > MAX_DURATION then MAX_DURATION else if d < -MAX_DURATION - 1 then -MAX_DURATION - 1 else d
  }

  /** The one-second floor of `Set`. */
  function Clamp(dur: int): int { if dur < SECOND then SECOND else dur }

  datatype Message = Message(busy: bool, expires: int)

  datatype Phase = Armed | Fired | Stopped | Done

  datatype Timer = Timer(deadline: Time, phase: Phase)

  /** `timers` lists every timer ever started; `timer` is the index of the installed one. */
  datatype Node = Node(busy: bool, timer: Option<nat>, expires: Time, timers: seq<Timer>)

  const IDLE := Node(false, None, 0, [])

  predicate Indexed(n: Node) {
    n.timer.Some? ==> n.timer.value < |n.timers|
  }

  function Stop(t: Timer): Timer {
    if t.phase == Armed then t.(phase := Stopped) else t
  }

  /** `clearWithoutNotify`. */
  function Cleared(n: Node): Node
    requires Indexed(n)
  {
    var timers := if n.timer.Some? then n.timers[n.timer.value := Stop(n.timers[n.timer.value])] else n.timers;
    Node(false, None, 0, timers)
  }

  /** `setWithoutNotify`. */
  function SetTo(n: Node, now: Time, dur: int): Node
    requires Indexed(n)
  {
    var timers := Cleared(n).timers;
    Node(true, Some(|timers|), now + dur, timers + [Timer(now + dur, Armed)])
  }

  function Informed(n: Node, now: Time, msg: Message): Node
    requires Indexed(n)
  {
    if !msg.busy then Cleared(n)
    else
      var dur := Until(FromUnix(msg.expires), now);
      if dur > 0 then SetTo(n, now, dur) else n
  }

  // ---------- Actions of one node ----------

  datatype Action =
    | SetCall(dur: int)
    | ClearCall
    | ClusterEvent(msg: Message)
    | Fire(id: nat)       // the runtime starts the callback goroutine of a due timer
    | Callback(id: nat)   // that goroutine gets the mutex

  predicate Enabled(n: Node, now: Time, a: Action) {
    match a
    case SetCall(dur) => dur <= MAX_DURATION
    case Fire(id) => id < |n.timers| && n.timers[id].phase == Armed && n.timers[id].deadline <= now
    case Callback(id) => id < |n.timers| && n.timers[id].phase == Fired
    case _ => true
  }

  function Apply(n: Node, now: Time, a: Action): Node
    requires Indexed(n) && Enabled(n, now, a)
  {
    match a
    case SetCall(dur) => SetTo(n, now, Clamp(dur))
    case ClearCall => Cleared(n)
    case ClusterEvent(msg) => Informed(n, now, msg)
    case Fire(id) => n.(timers := n.timers[id := n.timers[id].(phase := Fired)])
    case Callback(id) => Cleared(n.(timers := n.timers[id := n.timers[id].(phase := Done)]))
  }

  /** The cluster messages that an action sends, given the node it leaves behind. */
  function Sent(a: Action, after: Node): seq<Message> {
    match a
    case SetCall(_) => [Message(true, Unix(after.expires))]
    case ClearCall => [Message(false, Unix(0))]
    case _ => []
  }

  /** The values stored in the atomic flag during the action: all that a lock-free IsBusy can read. */
  function FlagStores(now: Time, a: Action): seq<bool> {
    match a
    case SetCall(_) => [false, true]
    case ClearCall => [false]
    case ClusterEvent(msg) =>
      if !msg.busy then [false] else if Until(FromUnix(msg.expires), now) > 0 then [false, true] else []
    case Fire(_) => []
    case Callback(_) => [false]
  }

  // ---------- The invariant at mutex release ----------

  predicate Live(t: Timer) { t.phase == Armed || t.phase == Fired }

  ghost predicate Consistent(n: Node) {
    && Indexed(n)
    && (n.busy <==> n.timer.Some?)
    && (n.busy <==> n.expires != 0)
    && (n.timer.Some? ==> Live(n.timers[n.timer.value]) && n.timers[n.timer.value].deadline == n.expires)
    && (forall id :: 0 <= id < |n.timers| && n.timer != Some(id) ==> n.timers[id].phase != Armed)
  }

  lemma ApplyKeepsConsistent(n: Node, now: Time, a: Action)
    requires Consistent(n) && now > 0 && Enabled(n, now, a)
    ensures Consistent(Apply(n, now, a))
    ensures var stores := FlagStores(now, a);
            if stores == [] then Apply(n, now, a).busy == n.busy
            else Apply(n, now, a).busy == stores[|stores| - 1]
  {
  }

  /** A lock-free reader sees "not busy" inside an action from busy to busy exactly when that action renews the flag. */
  lemma FlagGlitchIff(n: Node, now: Time, a: Action)
    requires Consistent(n) && n.busy && now > 0 && Enabled(n, now, a) && Apply(n, now, a).busy
    ensures false in FlagStores(now, a) <==> Apply(n, now, a).timer != n.timer
  {
  }

  // ---------- Runs of one node ----------

  datatype World = World(now: Time, node: Node)

  datatype Step = Tick(to: Time) | Act(action: Action)

  ghost predicate Next(w: World, s: Step, w': World) {
    match s
    case Tick(to) => w.now <= to && w' == w.(now := to)
    case Act(a) => Indexed(w.node) && Enabled(w.node, w.now, a) && w' == World(w.now, Apply(w.node, w.now, a))
  }

  ghost predicate RunFrom(w: World, ws: seq<World>, steps: seq<Step>) {
    && |ws| == |steps| + 1
    && ws[0] == w
    && forall k :: 0 <= k < |steps| ==> Next(ws[k], steps[k], ws[k + 1])
  }

  ghost predicate Start(w: World) { w.now > 0 && w.node == IDLE }

  lemma {:induction false} RunConsistent(w: World, ws: seq<World>, steps: seq<Step>, k: nat)
    requires w.now > 0 && Consistent(w.node) && RunFrom(w, ws, steps) && k < |ws|
    ensures w.now <= ws[k].now && Consistent(ws[k].node)
  {
    if k > 0 {
      RunConsistent(w, ws, steps, k - 1);
      assert Next(ws[k - 1], steps[k - 1], ws[k]);
      if steps[k - 1].Act? {
        ApplyKeepsConsistent(ws[k - 1].node, ws[k - 1].now, steps[k - 1].action);
      }
    }
  }

  /** What the runtime still owes a busy node: the firing of its timer, if not done yet, and the callback. */
  function Overdue(n: Node): seq<Step>
    requires Indexed(n)
  {
    match n.timer
    case None => []
    case Some(id) =>
      if n.timers[id].phase == Armed then [Act(Fire(id)), Act(Callback(id))] else [Act(Callback(id))]
  }

  /** In every reachable state a set flag is backed by the installed timer, armed for `expires` or fired and waiting;
      and once `expires` has passed, what the runtime owes is enabled and clears the flag. */
  lemma NeverStuckBusy(w: World, ws: seq<World>, steps: seq<Step>, k: nat)
    requires Start(w) && RunFrom(w, ws, steps) && k < |ws| && ws[k].node.busy
    ensures var n := ws[k].node;
            && n.timer.Some? && n.timer.value < |n.timers|
            && Live(n.timers[n.timer.value]) && n.timers[n.timer.value].deadline == n.expires
    ensures var n := ws[k].node;
            n.expires <= ws[k].now ==>
              exists more: seq<World> :: RunFrom(ws[k], more, Overdue(n)) && more[|more| - 1].node == n.(busy := false,
                timer := None, expires := 0, timers := n.timers[n.timer.value := Timer(n.expires, Done)])
  {
    RunConsistent(w, ws, steps, k);
    var n, now := ws[k].node, ws[k].now;
    var id := n.timer.value;
    if n.expires <= now {
      if n.timers[id].phase == Armed {
        var fired := Apply(n, now, Fire(id));
        var more := [ws[k], World(now, fired), World(now, Apply(fired, now, Callback(id)))];
        assert RunFrom(ws[k], more, Overdue(n));
      } else {
        var more := [ws[k], World(now, Apply(n, now, Callback(id)))];
        assert RunFrom(ws[k], more, Overdue(n));
      }
    }
  }

  /** Step `j` is the moment timer `id` fired: it was installed and due. */
  ghost predicate FiredAt(ws: seq<World>, steps: seq<Step>, j: int, id: nat) {
    && 0 <= j < |steps| < |ws|
    && steps[j] == Act(Fire(id))
    && ws[j].node.timer == Some(id)
    && ws[j].node.expires <= ws[j].now
  }

  lemma {:induction false} PendingHasFired(w: World, ws: seq<World>, steps: seq<Step>, k: nat, id: nat)
    requires Start(w) && RunFrom(w, ws, steps) && k < |ws|
    requires id < |ws[k].node.timers| && ws[k].node.timers[id].phase == Fired
    ensures exists j :: j < k && FiredAt(ws, steps, j, id) && ws[j].node.expires == ws[k].node.timers[id].deadline
    ensures ws[k].node.timers[id].deadline <= ws[k].now
  {
    RunConsistent(w, ws, steps, k - 1);
    assert Next(ws[k - 1], steps[k - 1], ws[k]);
    if steps[k - 1] == Act(Fire(id)) {
      assert FiredAt(ws, steps, k - 1, id);
    } else {
      PendingHasFired(w, ws, steps, k - 1, id);
    }
  }

  /** Every clearing of the flag is accounted for: Clear, a cluster clear, the expiry of the installed timer, or a
      callback whose timer fired while it was installed and was replaced before the callback got the mutex. */
  lemma ClearsAccountedFor(w: World, ws: seq<World>, steps: seq<Step>, k: nat)
    requires Start(w) && RunFrom(w, ws, steps) && k < |steps|
    requires ws[k].node.busy && !ws[k + 1].node.busy
    ensures steps[k].Act?
    ensures match steps[k].action
            case ClearCall => true
            case ClusterEvent(msg) => !msg.busy
            case Callback(id) =>
              && (exists j :: j < k && FiredAt(ws, steps, j, id))
              && (ws[k].node.timer == Some(id) ==> ws[k].node.expires <= ws[k].now)
            case _ => false
  {
    RunConsistent(w, ws, steps, k);
    assert Next(ws[k], steps[k], ws[k + 1]);
    if steps[k].Act? && steps[k].action.Callback? {
      PendingHasFired(w, ws, steps, k, steps[k].action.id);
    }
  }

  // ---------- How long a Set lasts ----------

  ghost predicate NothingPending(n: Node) {
    forall id :: 0 <= id < |n.timers| ==> n.timers[id].phase != Fired
  }

  ghost predicate OnlyTimerSteps(steps: seq<Step>) {
    forall k :: 0 <= k < |steps| ==> steps[k].Tick? || steps[k].action.Fire? || steps[k].action.Callback?
  }

  /** Left alone by Set, Clear and the cluster, the node stays busy at every instant before its expiry. */
  ghost predicate LastsUntilExpiry(w: World) {
    forall ws: seq<World>, steps: seq<Step> ::
      RunFrom(w, ws, steps) && OnlyTimerSteps(steps) && ws[|steps|].now < w.node.expires ==> ws[|steps|].node.busy
  }

  lemma {:induction false} UndisturbedBusy(w: World, ws: seq<World>, steps: seq<Step>, k: nat)
    requires w.now > 0 && Consistent(w.node) && w.node.busy && NothingPending(w.node)
    requires RunFrom(w, ws, steps) && OnlyTimerSteps(steps) && k < |ws| && ws[k].now < w.node.expires
    ensures ws[k].node == w.node
  {
    if k > 0 {
      RunConsistent(w, ws, steps, k - 1);
      assert Next(ws[k - 1], steps[k - 1], ws[k]);
      UndisturbedBusy(w, ws, steps, k - 1);
    }
  }

  /** A Set lasts until its expiry if and only if no callback was waiting for the mutex when it was made: a stale
      callback clears a newer Set. */
  lemma SetLastsIff(w: World, dur: int)
    requires w.now > 0 && Consistent(w.node) && dur <= MAX_DURATION
    ensures LastsUntilExpiry(World(w.now, Apply(w.node, w.now, SetCall(dur)))) <==> NothingPending(w.node)
  {
    var w1 := World(w.now, Apply(w.node, w.now, SetCall(dur)));
    ApplyKeepsConsistent(w.node, w.now, SetCall(dur));
    if NothingPending(w.node) {
      forall ws: seq<World>, steps: seq<Step> |
        RunFrom(w1, ws, steps) && OnlyTimerSteps(steps) && ws[|steps|].now < w1.node.expires
        ensures ws[|steps|].node.busy
      {
        UndisturbedBusy(w1, ws, steps, |steps|);
      }
    } else {
      var id :| 0 <= id < |w.node.timers| && w.node.timers[id].phase == Fired;
      assert w1.node.timers[id].phase == Fired;
      var ws := [w1, World(w.now, Apply(w1.node, w.now, Callback(id)))];
      assert RunFrom(w1, ws, [Act(Callback(id))]) && OnlyTimerSteps([Act(Callback(id))]);
    }
  }

  /** A Set for `dur` expires at the end of `dur`, or of one second if that is longer, and its timer is armed for that
      instant. */
  lemma ExpiryOfSet(n: Node, now: Time, dur: int)
    requires Consistent(n) && now > 0 && dur <= MAX_DURATION
    ensures var n' := Apply(n, now, SetCall(dur));
            && n'.busy && n'.expires >= now + dur && n'.expires >= now + SECOND
            && (n'.expires == now + dur || n'.expires == now + SECOND)
            && n'.timer.Some? && n'.timer.value < |n'.timers| && n'.timers[n'.timer.value] == Timer(n'.expires, Armed)
  {
  }

  /** So, left alone and with no callback waiting, the node is busy for at least `dur` and at least one second, and is
      idle as soon as that is over and the runtime has done what it owes. */
  lemma SetLastsFor(w: World, dur: int, ws: seq<World>, steps: seq<Step>)
    requires w.now > 0 && Consistent(w.node) && dur <= MAX_DURATION && NothingPending(w.node)
    requires RunFrom(World(w.now, Apply(w.node, w.now, SetCall(dur))), ws, steps) && OnlyTimerSteps(steps)
    ensures var end := ws[|steps|];
            && (end.now < w.now + dur || end.now < w.now + SECOND ==> end.node.busy)
            && (end.now >= w.now + dur && end.now >= w.now + SECOND && end.node.busy ==>
                  exists id :: 0 <= id < |end.node.timers| && Live(end.node.timers[id])
                               && end.node.timers[id].deadline <= end.now)
  {
    var w1 := World(w.now, Apply(w.node, w.now, SetCall(dur)));
    ExpiryOfSet(w.node, w.now, dur);
    ApplyKeepsConsistent(w.node, w.now, SetCall(dur));
    if ws[|steps|].now < w1.node.expires {
      UndisturbedBusy(w1, ws, steps, |steps|);
    } else {
      TimersKeepExpiry(w1, ws, steps, |steps|);
    }
  }

  lemma {:induction false} TimersKeepExpiry(w: World, ws: seq<World>, steps: seq<Step>, k: nat)
    requires w.now > 0 && Consistent(w.node) && RunFrom(w, ws, steps) && OnlyTimerSteps(steps) && k < |ws|
    ensures Consistent(ws[k].node) && (ws[k].node.busy ==> ws[k].node.expires == w.node.expires)
  {
    RunConsistent(w, ws, steps, k);
    if k > 0 {
      TimersKeepExpiry(w, ws, steps, k - 1);
      assert Next(ws[k - 1], steps[k - 1], ws[k]);
    }
  }

  /** A busy message makes the node busy until the instant it names, which a duration of 64 bits may cut down, unless
      that instant has passed; then it changes nothing. Any other message makes the node idle. */
  lemma ExpiryOfMessage(n: Node, now: Time, msg: Message)
    requires Consistent(n) && now > 0
    ensures var n', until := Apply(n, now, ClusterEvent(msg)), (msg.expires + UNIX_EPOCH) * SECOND;
            if !msg.busy then !n'.busy
            else if until <= now then n' == n
            else
              && n'.busy && now < n'.expires <= until && (n'.expires == until || n'.expires == now + MAX_DURATION)
              && (n'.expires < until ==> until > now + MAX_DURATION)
  {
  }

  // ---------- Truncation to whole seconds ----------

  /** A receiver handling the message of a Set at the instant it is sent still finds the expiry in the future. */
  predicate AliveWhenSent(now: Time, dur: int) {
    Until(Truncate(now + dur), now) > 0
  }

  /** Why Set has a one-second floor: it is the least requested duration for which the truncated expiry is in the
      future whenever the message is sent, so that a receiver handling it then activates. */
  lemma OneSecondIsTheLeastFloor(floor: int)
    ensures (forall now: Time :: now > 0 ==> AliveWhenSent(now, floor)) <==> floor >= SECOND
  {
    if floor < SECOND {
      assert !AliveWhenSent(SECOND, floor);
    }
  }

  /** A message handled at the instant it is sent always activates the receiver, with expiry in (E - 1s, E]. */
  lemma PromptReceiverActivates(n: Node, r: Node, now: Time, dur: int)
    requires Consistent(n) && Consistent(r) && now > 0 && dur <= MAX_DURATION
    ensures var n' := Apply(n, now, SetCall(dur));
            var sent := Sent(SetCall(dur), n');
            && |sent| == 1
            && var r' := Informed(r, now, sent[0]);
               r'.busy && n'.expires - SECOND < r'.expires <= n'.expires && r'.expires == Truncate(n'.expires)
  {
    assert Truncate(now + Clamp(dur)) > now;
  }

  // ---------- The source's object ----------

  class Busy {
    var busy: int
    var timer: Option<nat>
    var expires: Time
    const hasCluster: bool
    var timers: seq<Timer>      // the timers of the Go runtime
    var outbox: seq<Message>    // messages handed to the cluster
    ghost var stores: seq<bool> // every value stored in the flag so far

    ghost function State(): Node
      reads this
    {
      Node(busy != 0, timer, expires, timers)
    }

    ghost predicate Valid()
      reads this
    {
      (busy == 0 || busy == 1) && Consistent(State())
    }

    constructor (hasCluster: bool)
      ensures Valid() && State() == IDLE && outbox == [] && stores == []
      ensures this.hasCluster == hasCluster
    {
      busy, timer, expires, timers, outbox, stores := 0, None, 0, [], [], [];
      this.hasCluster := hasCluster;
    }

    /** Reads the flag without the mutex, so possibly in the middle of another call. */
    method IsBusy() returns (r: bool)
      ensures r <==> busy != 0
    {
      r := busy != 0;
    }

    method ClearWithoutNotify()
      requires Indexed(State())
      modifies this
      ensures State() == Cleared(old(State())) && busy == 0
      ensures outbox == old(outbox) && stores == old(stores) + [false]
    {
      if timer.Some? {
        timers := timers[timer.value := Stop(timers[timer.value])];
      }
      timer := None;
      expires := 0;
      busy, stores := 0, stores + [false];
    }

    method SetWithoutNotify(now: Time, dur: int)
      requires Indexed(State())
      modifies this
      ensures State() == SetTo(old(State()), now, dur) && busy == 1
      ensures outbox == old(outbox) && stores == old(stores) + [false, true]
    {
      ClearWithoutNotify();
      busy, stores := 1, stores + [true];
      expires := now + dur;
      timer, timers := Some(|timers|), timers + [Timer(now + dur, Armed)];
    }

    method Set(now: Time, dur: int)
      requires Valid() && now > 0 && dur <= MAX_DURATION
      modifies this
      ensures Valid() && State() == Apply(old(State()), now, SetCall(dur))
      ensures outbox == old(outbox) + if hasCluster then Sent(SetCall(dur), State()) else []
      ensures stores == old(stores) + FlagStores(now, SetCall(dur))
      ensures busy != 0 && expires == if dur < SECOND then now + SECOND else now + dur
    {
      ApplyKeepsConsistent(State(), now, SetCall(dur));
      var d := dur;
      if d < SECOND {
        d := SECOND;
      }
      SetWithoutNotify(now, d);
      if hasCluster {
        outbox := outbox + [Message(true, Unix(expires))];
      }
    }

    method Clear()
      requires Valid()
      modifies this
      ensures Valid() && State() == Apply(old(State()), 1, ClearCall)
      ensures outbox == old(outbox) + if hasCluster then Sent(ClearCall, State()) else []
      ensures stores == old(stores) + [false]
    {
      ApplyKeepsConsistent(State(), 1, ClearCall);
      ClearWithoutNotify();
      if hasCluster {
        outbox := outbox + [Message(false, Unix(0))];
      }
    }

    method ClusterEventChanged(now: Time, msg: Message)
      requires Valid() && now > 0
      modifies this
      ensures Valid() && State() == Apply(old(State()), now, ClusterEvent(msg))
      ensures outbox == old(outbox) && stores == old(stores) + FlagStores(now, ClusterEvent(msg))
    {
      ApplyKeepsConsistent(State(), now, ClusterEvent(msg));
      if msg.busy {
        var dur := Until(FromUnix(msg.expires), now);
        if dur > 0 {
          SetWithoutNotify(now, dur);
        }
      } else {
        ClearWithoutNotify();
      }
    }

    /** The body of the function given to `time.AfterFunc`. */
    method RunCallback(now: Time, id: nat)
      requires Valid() && now > 0 && Enabled(State(), now, Callback(id))
      modifies this
      ensures Valid() && State() == Apply(old(State()), now, Callback(id))
      ensures outbox == old(outbox) && stores == old(stores) + FlagStores(now, Callback(id))
    {
      ApplyKeepsConsistent(State(), now, Callback(id));
      timers := timers[id := timers[id].(phase := Done)];
      ClearWithoutNotify();
    }
  }
}
