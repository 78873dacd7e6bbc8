/**
 One writer, any number of replicas (app/busy.go): the writer makes every Set and Clear, its messages reach each
 replica in order, some of them late, and no timer is replaced after it has fired.
 */
module BusyReplication {
  import opened Prelude
  import opened BusyNode

  /** What the writer announced, before truncation. */
  datatype Announcement = BusyTo(expires: Time) | Nothing

  function Wire(a: Announcement): Message {
    match a
    case BusyTo(expires) => Message(true, Unix(expires))
    case Nothing => Message(false, Unix(0))
  }

  /** Replica `i` has been handed the first `seen[i]` announcements of `log`; those behind the first `took[i]` came too
      late. */
  datatype System = System(now: Time, writer: Node, replicas: seq<Node>, log: seq<Announcement>, seen: seq<nat>,
                           took: seq<nat>)

  datatype Event =
    | Tick(to: Time)
    | WriterSets(dur: int)
    | WriterClears
    | WriterTimer(action: Action)
    | Deliver(i: nat)
    | ReplicaTimer(i: nat, action: Action)

  predicate TimerAction(a: Action) { a.Fire? || a.Callback? }

  /** The installed timer, if any, has not fired yet: stopping it takes effect. */
  predicate Stoppable(n: Node) {
    n.timer.Some? && n.timer.value < |n.timers| ==> n.timers[n.timer.value].phase != Fired
  }

  ghost predicate Sized(s: System) { |s.seen| == |s.took| == |s.replicas| }

  /** A busy message handled at or after its truncated expiry. */
  predicate Late(a: Announcement, now: Time) { a.BusyTo? && Truncate(a.expires) <= now }

  ghost predicate Permitted(s: System, e: Event) {
    match e
    case Tick(to) => s.now <= to
    case WriterSets(dur) => Stoppable(s.writer) && dur <= MAX_DURATION
    case WriterClears => Stoppable(s.writer)
    case WriterTimer(a) => TimerAction(a) && Enabled(s.writer, s.now, a)
    case Deliver(i) =>
      && i < |s.replicas| && Sized(s) && s.seen[i] < |s.log|
      && (Late(s.log[s.seen[i]], s.now) || Stoppable(s.replicas[i]))
    case ReplicaTimer(i, a) => i < |s.replicas| && TimerAction(a) && Enabled(s.replicas[i], s.now, a)
  }

  ghost predicate AllIndexed(s: System) {
    Indexed(s.writer) && forall i :: 0 <= i < |s.replicas| ==> Indexed(s.replicas[i])
  }

  ghost function Perform(s: System, e: Event): System
    requires AllIndexed(s) && Permitted(s, e)
  {
    match e
    case Tick(to) => s.(now := to)
    case WriterSets(dur) =>
      var w := Apply(s.writer, s.now, SetCall(dur));
      s.(writer := w, log := s.log + [BusyTo(w.expires)])
    case WriterClears => s.(writer := Apply(s.writer, s.now, ClearCall), log := s.log + [Nothing])
    case WriterTimer(a) => s.(writer := Apply(s.writer, s.now, a))
    case Deliver(i) =>
      var a, n := s.log[s.seen[i]], s.seen[i] + 1;
      s.(replicas := s.replicas[i := Apply(s.replicas[i], s.now, ClusterEvent(Wire(a)))],
         seen := s.seen[i := n], took := if Late(a, s.now) then s.took else s.took[i := n])
    case ReplicaTimer(i, a) => s.(replicas := s.replicas[i := Apply(s.replicas[i], s.now, a)])
  }

  /** The log really is what the writer's actions send. */
  lemma LogIsWhatTheWriterSends(n: Node, now: Time, dur: int)
    requires Indexed(n) && dur <= MAX_DURATION
    ensures Sent(SetCall(dur), Apply(n, now, SetCall(dur))) == [Wire(BusyTo(Apply(n, now, SetCall(dur)).expires))]
    ensures Sent(ClearCall, Apply(n, now, ClearCall)) == [Wire(Nothing)]
  {
  }

  ghost predicate RunFrom(s: System, ss: seq<System>, events: seq<Event>) {
    && |ss| == |events| + 1
    && ss[0] == s
    && forall k :: 0 <= k < |events| ==>
                     AllIndexed(ss[k]) && Permitted(ss[k], events[k]) && ss[k + 1] == Perform(ss[k], events[k])
  }

  ghost predicate Start(s: System) {
    && s.now > 0 && s.writer == IDLE && s.log == [] && Sized(s)
    && forall i :: 0 <= i < |s.replicas| ==> s.replicas[i] == IDLE && s.seen[i] == s.took[i] == 0
  }

  // ---------- Invariant ----------

  /** Only the installed timer can be waiting, and only when due. */
  ghost predicate NoStale(n: Node, now: Time) {
    forall id :: 0 <= id < |n.timers| && n.timers[id].phase == Fired ==>
                   n.timer == Some(id) && n.timers[id].deadline <= now
  }

  /** The node is busy until `expires`, or has been cleared by its own timer since. */
  ghost predicate BusyUntil(n: Node, now: Time, expires: Time) {
    if n.busy then n.expires == expires else expires <= now
  }

  /** The node reflects the last of the first `count` announcements, with expiries cut down if `cut`. */
  ghost predicate Reflects(n: Node, now: Time, log: seq<Announcement>, count: nat, cut: bool)
    requires count <= |log|
  {
    && Consistent(n) && NoStale(n, now)
    && if count == 0 || log[count - 1].Nothing? then !n.busy
       else var e := log[count - 1].expires; BusyUntil(n, now, if cut then Truncate(e) else e)
  }

  /** The replica reflects what it took, and all it has been handed since came late. */
  ghost predicate Follows(r: Node, now: Time, log: seq<Announcement>, took: nat, seen: nat) {
    && took <= seen <= |log| && Reflects(r, now, log, took, true)
    && forall k :: took <= k < seen ==> Late(log[k], now)
  }

  ghost predicate Inv(s: System) {
    && s.now > 0 && Sized(s)
    && (forall k :: 0 <= k < |s.log| && s.log[k].BusyTo? ==> s.log[k].expires <= s.now + MAX_DURATION)
    && Reflects(s.writer, s.now, s.log, |s.log|, false)
    && (forall i :: 0 <= i < |s.replicas| ==> Follows(s.replicas[i], s.now, s.log, s.took[i], s.seen[i]))
  }

  lemma TimerKeepsReflects(n: Node, now: Time, a: Action, log: seq<Announcement>, count: nat, cut: bool)
    requires now > 0 && count <= |log| && Reflects(n, now, log, count, cut) && TimerAction(a) && Enabled(n, now, a)
    ensures Reflects(Apply(n, now, a), now, log, count, cut)
  {
    ApplyKeepsConsistent(n, now, a);
  }

  lemma DeliverKeepsFollows(r: Node, now: Time, log: seq<Announcement>, took: nat, seen: nat)
    requires now > 0 && seen < |log| && Follows(r, now, log, took, seen)
    requires Late(log[seen], now) || Stoppable(r)
    requires log[seen].BusyTo? ==> log[seen].expires <= now + MAX_DURATION
    ensures Follows(Apply(r, now, ClusterEvent(Wire(log[seen]))), now, log,
                    if Late(log[seen], now) then took else seen + 1, seen + 1)
  {
    ApplyKeepsConsistent(r, now, ClusterEvent(Wire(log[seen])));
  }

  lemma FollowsLater(r: Node, now: Time, later: Time, log: seq<Announcement>, more: seq<Announcement>, took: nat,
                     seen: nat)
    requires Follows(r, now, log, took, seen) && now <= later
    ensures Follows(r, later, log + more, took, seen)
  {
  }

  lemma WriterKeepsReflects(w: Node, now: Time, log: seq<Announcement>, a: Action, said: Announcement)
    requires now > 0 && Reflects(w, now, log, |log|, false) && Stoppable(w) && Enabled(w, now, a)
    requires (a.SetCall? && said == BusyTo(Apply(w, now, a).expires)) || (a.ClearCall? && said == Nothing)
    ensures Reflects(Apply(w, now, a), now, log + [said], |log| + 1, false)
  {
    ApplyKeepsConsistent(w, now, a);
  }

  lemma AllFollowLater(s: System, s': System, more: seq<Announcement>)
    requires Inv(s) && s.now <= s'.now && s'.log == s.log + more
    requires s'.replicas == s.replicas && s'.seen == s.seen && s'.took == s.took
    ensures forall i :: 0 <= i < |s'.replicas| ==> Follows(s'.replicas[i], s'.now, s'.log, s'.took[i], s'.seen[i])
  {
    forall i | 0 <= i < |s.replicas|
      ensures Follows(s.replicas[i], s'.now, s'.log, s.took[i], s.seen[i])
    {
      FollowsLater(s.replicas[i], s.now, s'.now, s.log, more, s.took[i], s.seen[i]);
    }
  }

  lemma PerformKeepsInv(s: System, e: Event)
    requires Inv(s) && AllIndexed(s) && Permitted(s, e)
    ensures Inv(Perform(s, e))
  {
    var s' := Perform(s, e);
    match e
    case Tick(_) =>
      assert s'.log == s.log + [];
      AllFollowLater(s, s', []);
    case WriterSets(dur) =>
      AllFollowLater(s, s', [BusyTo(s'.writer.expires)]);
      WriterKeepsReflects(s.writer, s.now, s.log, SetCall(dur), BusyTo(s'.writer.expires));
    case WriterClears =>
      AllFollowLater(s, s', [Nothing]);
      WriterKeepsReflects(s.writer, s.now, s.log, ClearCall, Nothing);
    case WriterTimer(a) =>
      TimerKeepsReflects(s.writer, s.now, a, s.log, |s.log|, false);
    case Deliver(i) =>
      DeliverKeepsFollows(s.replicas[i], s.now, s.log, s.took[i], s.seen[i]);
    case ReplicaTimer(i, a) =>
      TimerKeepsReflects(s.replicas[i], s.now, a, s.log, s.took[i], true);
  }

  lemma {:induction false} RunKeepsInv(s: System, ss: seq<System>, events: seq<Event>, k: nat)
    requires Start(s) && RunFrom(s, ss, events) && k < |ss|
    ensures Inv(ss[k])
  {
    if k > 0 {
      RunKeepsInv(s, ss, events, k - 1);
      PerformKeepsInv(ss[k - 1], events[k - 1]);
    }
  }

  // ---------- Agreement ----------

  /** Every timer that is due has fired and its callback has run. */
  ghost predicate Settled(n: Node, now: Time) {
    forall id :: 0 <= id < |n.timers| ==>
                   n.timers[id].phase != Fired && (n.timers[id].phase == Armed ==> now < n.timers[id].deadline)
  }

  /** With nothing outstanding, and the last announcement handled in time, a replica is busy exactly while the writer is
      and the truncated expiry lies ahead. So it agrees with the writer at every instant outside the final second before
      the expiry, and its own expiry is within that second. */
  lemma ReplicasAgree(s: System, ss: seq<System>, events: seq<Event>, k: nat, i: nat)
    requires Start(s) && RunFrom(s, ss, events) && k < |ss| && i < |ss[k].replicas| && Sized(ss[k])
    requires ss[k].took[i] == |ss[k].log| && Settled(ss[k].writer, ss[k].now) && Settled(ss[k].replicas[i], ss[k].now)
    ensures var w, r, now := ss[k].writer, ss[k].replicas[i], ss[k].now;
            && (r.busy <==> w.busy && now < Truncate(w.expires))
            && (r.busy ==> r.expires == Truncate(w.expires) && w.expires - SECOND < r.expires <= w.expires)
            && (r.busy != w.busy ==> w.expires - SECOND < now < w.expires)
  {
    RunKeepsInv(s, ss, events, k);
    var w, r := ss[k].writer, ss[k].replicas[i];
    assert Follows(r, ss[k].now, ss[k].log, |ss[k].log|, |ss[k].log|);
    assert w.busy ==> w.timers[w.timer.value].phase == Armed;
    assert r.busy ==> r.timers[r.timer.value].phase == Armed;
  }

  /** With nothing outstanding, but the last announcement handled late, the writer is not busy or in the final second
      before its expiry; the replica agrees that nothing is left if and only if the last announcement that it did handle
      in time does not make it busy beyond the present. */
  lemma LateLastAgreesIff(s: System, ss: seq<System>, events: seq<Event>, k: nat, i: nat)
    requires Start(s) && RunFrom(s, ss, events) && k < |ss| && i < |ss[k].replicas| && Sized(ss[k])
    requires ss[k].seen[i] == |ss[k].log| > ss[k].took[i]
    requires Settled(ss[k].writer, ss[k].now) && Settled(ss[k].replicas[i], ss[k].now)
    ensures var w, r, now, log, took := ss[k].writer, ss[k].replicas[i], ss[k].now, ss[k].log, ss[k].took[i];
            && Late(log[|log| - 1], now) && (w.busy ==> w.expires - SECOND < now < w.expires)
            && ((r.busy <==> w.busy && now < Truncate(w.expires)) <==>
                  took == 0 || log[took - 1].Nothing? || Truncate(log[took - 1].expires) <= now)
  {
    RunKeepsInv(s, ss, events, k);
    var w, r := ss[k].writer, ss[k].replicas[i];
    assert Follows(r, ss[k].now, ss[k].log, ss[k].took[i], |ss[k].log|);
    assert w.busy ==> w.timers[w.timer.value].phase == Armed;
    assert r.busy ==> r.timers[r.timer.value].phase == Armed;
  }

  /** Why messages should arrive in time: a busy message leaves the replica busy until its truncated expiry exactly when
      it is handled before that, or the replica was already busy until just then. */
  lemma LateMessageIsLost(r: Node, now: Time, a: Announcement)
    requires Consistent(r) && now > 0 && a.BusyTo? && a.expires <= now + MAX_DURATION
    ensures var r' := Apply(r, now, ClusterEvent(Wire(a)));
            (r'.busy && r'.expires == Truncate(a.expires)) <==>
              (!Late(a, now) || (r.busy && r.expires == Truncate(a.expires)))
  {
  }
}
