/**
 Any number of nodes sharing the busy state over a message bus that may delay, reorder, duplicate or lose messages
 (app/busy.go): the pool holds everything ever sent, and any node may be handed any of it at any time.
 */
module BusyCluster {
  import opened BusyNode

  datatype Cluster = Cluster(now: Time, nodes: seq<Node>, pool: set<Message>)

  datatype Event = Tick(to: Time) | At(i: nat, action: Action)

  ghost predicate Permitted(c: Cluster, e: Event) {
    match e
    case Tick(to) => c.now <= to
    case At(i, a) =>
      && i < |c.nodes| && Indexed(c.nodes[i]) && Enabled(c.nodes[i], c.now, a)
      && (a.ClusterEvent? ==> a.msg in c.pool)
  }

  ghost function Perform(c: Cluster, e: Event): Cluster
    requires Permitted(c, e)
  {
    match e
    case Tick(to) => c.(now := to)
    case At(i, a) =>
      var n := Apply(c.nodes[i], c.now, a);
      Cluster(c.now, c.nodes[i := n], c.pool + set m | m in Sent(a, n))
  }

  ghost predicate RunFrom(c: Cluster, cs: seq<Cluster>, events: seq<Event>) {
    && |cs| == |events| + 1
    && cs[0] == c
    && forall k :: 0 <= k < |events| ==> Permitted(cs[k], events[k]) && cs[k + 1] == Perform(cs[k], events[k])
  }

  ghost predicate Start(c: Cluster) {
    && c.now > 0
    && c.pool == {}
    && forall i :: 0 <= i < |c.nodes| ==> c.nodes[i] == IDLE
  }

  /** At `bound` every Set of the run is over: its duration, and one second since it was made. */
  ghost predicate SetsBounded(cs: seq<Cluster>, events: seq<Event>, bound: Time) {
    forall k :: 0 <= k < |events| < |cs| && events[k].At? && events[k].action.SetCall? ==>
                  cs[k].now + events[k].action.dur <= bound && cs[k].now + SECOND <= bound
  }

  ghost predicate Bounded(c: Cluster, bound: Time) {
    && c.now > 0
    && (forall i :: 0 <= i < |c.nodes| ==> Consistent(c.nodes[i]) && (c.nodes[i].busy ==> c.nodes[i].expires <= bound))
    && (forall m :: m in c.pool && m.busy ==> FromUnix(m.expires) <= bound)
  }

  lemma PerformKeepsBounded(c: Cluster, e: Event, bound: Time)
    requires Bounded(c, bound) && Permitted(c, e)
    requires e.At? && e.action.SetCall? ==> c.now + e.action.dur <= bound && c.now + SECOND <= bound
    ensures Bounded(Perform(c, e), bound)
  {
    if e.At? {
      ApplyKeepsConsistent(c.nodes[e.i], c.now, e.action);
    }
  }

  /** Over any run, no node's expiry exceeds the largest expiry that any Set issued. */
  lemma {:induction false} ExpiriesBounded(c: Cluster, cs: seq<Cluster>, events: seq<Event>, bound: Time, k: nat)
    requires Start(c) && RunFrom(c, cs, events) && SetsBounded(cs, events, bound) && k < |cs|
    ensures Bounded(cs[k], bound) && |cs[k].nodes| == |c.nodes|
  {
    if k > 0 {
      ExpiriesBounded(c, cs, events, bound, k - 1);
      PerformKeepsBounded(cs[k - 1], events[k - 1], bound);
    }
  }

  ghost predicate AllIdle(c: Cluster) {
    forall i :: 0 <= i < |c.nodes| ==> !c.nodes[i].busy
  }

  /** No timer of the cluster is armed or waiting to run its callback. */
  ghost predicate TimersDone(c: Cluster) {
    forall i, id :: 0 <= i < |c.nodes| && 0 <= id < |c.nodes[i].timers| ==> !Live(c.nodes[i].timers[id])
  }

  lemma {:induction false} ClockRuns(c: Cluster, cs: seq<Cluster>, events: seq<Event>, k: nat, l: nat)
    requires RunFrom(c, cs, events) && k <= l < |cs|
    ensures cs[k].now <= cs[l].now
  {
    if k < l {
      ClockRuns(c, cs, events, k, l - 1);
      assert Permitted(cs[l - 1], events[l - 1]);
    }
  }

  /** Once the clock has passed every issued expiry and the callbacks have run, every node is idle, and whatever the
      bus delivers later, in any order and any number of times, none becomes busy again. */
  lemma {:induction false} IdleForever(c: Cluster, cs: seq<Cluster>, events: seq<Event>, bound: Time, k: nat, l: nat)
    requires Start(c) && RunFrom(c, cs, events) && SetsBounded(cs, events, bound)
    requires k <= l < |cs| && bound <= cs[k].now && TimersDone(cs[k])
    ensures AllIdle(cs[l])
  {
    if k == l {
      ExpiriesBounded(c, cs, events, bound, k);
      forall i | 0 <= i < |cs[k].nodes|
        ensures !cs[k].nodes[i].busy
      {
        assert Consistent(cs[k].nodes[i]);
      }
    } else {
      IdleForever(c, cs, events, bound, k, l - 1);
      ExpiriesBounded(c, cs, events, bound, l - 1);
      ClockRuns(c, cs, events, k, l - 1);
    }
  }

  /** A Set sends its expiry in whole seconds, a Clear the zero time; handling a message, a timer that fires and its
      callback send nothing, and the pool never shrinks. */
  lemma OnlyCallersSend(c: Cluster, e: Event)
    requires Permitted(c, e)
    ensures var c' := Perform(c, e);
            if e.At? && e.action.SetCall? then
              c'.pool == c.pool + {Message(true, c'.nodes[e.i].expires / SECOND - UNIX_EPOCH)}
            else if e.At? && e.action.ClearCall? then c'.pool == c.pool + {Message(false, -UNIX_EPOCH)}
            else c'.pool == c.pool
    ensures var c' := Perform(c, e);
            && |c'.nodes| == |c.nodes| && (e.Tick? ==> c'.nodes == c.nodes && c'.now == e.to)
            && (e.At? ==> c'.now == c.now && forall j :: 0 <= j < |c.nodes| && j != e.i ==> c'.nodes[j] == c.nodes[j])
  {
    if e.At? {
      var n := Apply(c.nodes[e.i], c.now, e.action);
      assert forall m :: m in Sent(e.action, n) <==> m in set x | x in Sent(e.action, n);
      assert e.action.SetCall? ==> Message(true, Unix(n.expires)) in Sent(e.action, n);
      assert e.action.ClearCall? ==> Message(false, Unix(0)) in Sent(e.action, n);
    }
  }

  // ---------- The runtime alone empties a cluster whose expiries have passed ----------

  ghost predicate OnlyTimerEvents(events: seq<Event>) {
    forall k :: 0 <= k < |events| ==> events[k].At? && (events[k].action.Fire? || events[k].action.Callback?)
  }

  lemma RunAppend(c: Cluster, cs: seq<Cluster>, es: seq<Event>, ds: seq<Cluster>, fs: seq<Event>)
    requires RunFrom(c, cs, es) && RunFrom(cs[|es|], ds, fs)
    ensures RunFrom(c, cs + ds[1..], es + fs) && (cs + ds[1..])[|es| + |fs|] == ds[|fs|]
  {
    var all, events := cs + ds[1..], es + fs;
    forall k | 0 <= k < |events|
      ensures Permitted(all[k], events[k]) && all[k + 1] == Perform(all[k], events[k])
    {
      if k >= |es| {
        assert all[k] == ds[k - |es|] && all[k + 1] == ds[k - |es| + 1] && events[k] == fs[k - |es|];
      }
    }
  }

  /** Node `i` alone: its timer fires, its callback runs. */
  lemma SettleNode(c: Cluster, i: nat, bound: Time) returns (cs: seq<Cluster>, events: seq<Event>)
    requires Bounded(c, bound) && bound <= c.now && i < |c.nodes|
    ensures RunFrom(c, cs, events) && OnlyTimerEvents(events)
    ensures var c' := cs[|events|];
            && Bounded(c', bound) && c'.now == c.now && |c'.nodes| == |c.nodes| && !c'.nodes[i].busy
            && forall j :: 0 <= j < |c.nodes| && j != i ==> c'.nodes[j] == c.nodes[j]
  {
    cs, events := [c], [];
    if c.nodes[i].busy {
      var id := c.nodes[i].timer.value;
      if c.nodes[i].timers[id].phase == Armed {
        var fire := At(i, Fire(id));
        cs, events := cs + [Perform(c, fire)], [fire];
        PerformKeepsBounded(c, fire, bound);
      }
      var last := cs[|events|];
      var run := At(i, Callback(id));
      assert Permitted(last, run);
      PerformKeepsBounded(last, run, bound);
      cs, events := cs + [Perform(last, run)], events + [run];
    }
  }

  lemma {:induction false} SettleFrom(c: Cluster, i: nat, bound: Time) returns (cs: seq<Cluster>, events: seq<Event>)
    requires Bounded(c, bound) && bound <= c.now && i <= |c.nodes|
    requires forall j :: 0 <= j < i ==> !c.nodes[j].busy
    ensures RunFrom(c, cs, events) && OnlyTimerEvents(events) && AllIdle(cs[|events|])
    decreases |c.nodes| - i
  {
    cs, events := [c], [];
    if i < |c.nodes| {
      cs, events := SettleNode(c, i, bound);
      var ds, fs := SettleFrom(cs[|events|], i + 1, bound);
      RunAppend(c, cs, events, ds, fs);
      cs, events := cs + ds[1..], events + fs;
    }
  }

  /** From any reachable state whose clock has passed every issued expiry, timer steps alone reach an idle cluster. */
  lemma CanGoIdle(c: Cluster, cs: seq<Cluster>, events: seq<Event>, bound: Time, k: nat)
    requires Start(c) && RunFrom(c, cs, events) && SetsBounded(cs, events, bound) && k < |cs| && bound <= cs[k].now
    ensures exists ds: seq<Cluster>, fs: seq<Event> ::
              RunFrom(cs[k], ds, fs) && OnlyTimerEvents(fs) && AllIdle(ds[|fs|])
  {
    ExpiriesBounded(c, cs, events, bound, k);
    var ds, fs := SettleFrom(cs[k], 0, bound);
  }
}
