/** What disabling a user's bots does to every row of the directory (app/bot.go, app/user.go). */
module BotCascade {
  import opened BotDraining
  import opened BotRows
  import opened Prelude

  // ---------- Chains ----------

  /** Who is reached depends neither on the users' flags nor on the clock. */
  lemma SameReached(env: Env, later: Id -> Millis, d: Directory, d': Directory, owner: Id)
    requires d'.order == d.order && d'.bots == d.bots && d'.active.Keys == d.active.Keys
    ensures ReachedSet(env.(clock := later), d', owner) == ReachedSet(env, d, owner)
    ensures Sound(env.(clock := later), d', owner) == Sound(env, d, owner)
  {
    var env' := env.(clock := later);
    forall p
      ensures Chain(env', d', owner, p) == Chain(env, d, owner, p)
    {
      assert forall i :: 0 < i < |p| ==> Linked(env', d', p, i) == Linked(env, d, p, i);
    }
    forall o
      ensures Stuck(env', d', o) == Stuck(env, d, o)
    {
      FilterSame(d.order, ListedIn(d, o), ListedIn(d', o));
      FilterSame(Active(d, o), Faulty(env), Faulty(env'));
    }
    forall id
      ensures Reached(env', d', owner, id) == Reached(env, d, owner, id)
    {
      assert forall o :: Lists(env', d', o, id) == Lists(env, d, o, id);
    }
  }

  /** With the setting off only the owner's own bots matter. */
  lemma SoundWithoutCascade(env: Env, d: Directory, owner: Id)
    requires !env.cascade
    ensures Sound(env, d, owner) <==> |Stuck(env, d, owner)| < PER_PAGE
  {
    assert Chain(env, d, owner, [owner]);
    forall p | Chain(env, d, owner, p)
      ensures p == [owner]
    {
      assert |p| > 1 ==> Linked(env, d, p, 1);
    }
  }

  /** Without failures only cycles matter. */
  lemma SoundWithoutFaults(env: Env, d: Directory, owner: Id)
    requires forall id :: env.fault(id) == NoFault
    ensures Sound(env, d, owner) <==> forall p :: Chain(env, d, owner, p) ==> NoRepeat(p)
  {
    forall o
      ensures Stuck(env, d, o) == []
    {
      FilterNone(Active(d, o), Faulty(env));
    }
  }

  // ---------- Exactly the reached rows ----------

  /** The directory when the bots of `done` have been updated and those of `busy` are being disabled. */
  ghost predicate Updated(env: Env, d: Directory, done: set<Id>, busy: set<Id>, d': Directory) {
    && d'.order == d.order && d'.bots.Keys == d.bots.Keys && d'.active.Keys == d.active.Keys
    && (forall id :: id in done ==> id in d.bots && d.bots[id].deleteAt == 0)
    && (forall id :: id in d.bots ==>
          d'.bots[id] ==
          if id in done && env.fault(id) == NoFault then d.bots[id].(deleteAt := env.clock(id)) else d.bots[id])
    && (forall id :: id in d.active ==>
          d'.active[id] == if id in done + busy && ReachesUser(env, id) then false else d.active[id])
  }

  /** Whoever has been disabled has had its bots disabled. */
  ghost predicate Closed(env: Env, d: Directory, done: set<Id>) {
    forall id, x :: id in done && Cascades(env, id) && Lists(env, d, id, x) ==> x in done
  }

  /** `done'` is what `done` has become when the bots of `owner`, or some of them, have been disabled. */
  ghost predicate Grown(env: Env, d: Directory, owner: Id, done: set<Id>, done': set<Id>) {
    done <= done' && Closed(env, d, done') && forall id :: id in done' - done ==> Reached(env, d, owner, id)
  }

  lemma GrownBelow(env: Env, d: Directory, owner: Id, id: Id, done: set<Id>, done': set<Id>)
    requires Lists(env, d, owner, id) && Cascades(env, id)
    requires Grown(env, d, id, done, done') && forall x :: Lists(env, d, id, x) ==> x in done'
    ensures Grown(env, d, owner, done, done' + {id})
  {
    ReachedBelow(env, d, owner, id);
    forall x | x in done' - done
      ensures Reached(env, d, owner, x)
    {
      assert Reached(env, d, id, x);
      var p :| Chain(env, d, id, p) && Lists(env, d, p[|p| - 1], x);
      assert x in ReachedSet(env, d, id);
    }
    assert id in ReachedSet(env, d, owner);
  }

  lemma GrownTwice(env: Env, d: Directory, owner: Id, done: set<Id>, done': set<Id>, done'': set<Id>)
    requires Grown(env, d, owner, done, done') && Grown(env, d, owner, done', done'')
    ensures Grown(env, d, owner, done, done'')
  {
    forall id | id in done'' - done
      ensures Reached(env, d, owner, id)
    {
      if id !in done' {
        assert id in done'' - done';
      }
    }
  }

  lemma {:induction false} DisableReaches(env: Env, d: Directory, e: Directory, owner: Id, n: nat,
                                          done: set<Id>, busy: set<Id>) returns (done': set<Id>)
    requires Updated(env, d, done, busy, e) && Closed(env, d, done) && Disable(env, e, owner, n).Some?
    ensures Updated(env, d, done', busy, Disable(env, e, owner, n).value) && Grown(env, d, owner, done, done')
    ensures forall id :: Lists(env, d, owner, id) ==> id in done'
    decreases n, 0, 0
  {
    done' := done;
    if !env.listFails(owner) {
      var page := Page0(e, owner);
      PageMembers(e, owner);
      done' := EachReaches(env, d, e, owner, page, n - 1, done, busy);
      if |page| == PER_PAGE {
        var more := DisableReaches(env, d, Each(env, e, page, n - 1).value, owner, n - 1, done', busy);
        GrownTwice(env, d, owner, done, done', more);
        done' := more;
      }
    }
  }

  lemma {:induction false} UpdateReaches(env: Env, d: Directory, e: Directory, owner: Id, id: Id, n: nat,
                                         done: set<Id>, busy: set<Id>) returns (done': set<Id>)
    requires Updated(env, d, done, busy, e) && Closed(env, d, done) && Update(env, e, id, false, n).Some?
    requires Lists(env, d, owner, id)
    ensures Updated(env, d, done', busy, Update(env, e, id, false, n).value.0)
    ensures Grown(env, d, owner, done, done') && id in done'
    decreases n, 1, 0
  {
    var e1 := e.(active := e.active[id := false]);
    UpdateByDisable(env, e, id, n);
    done' := done + {id};
    if Cascades(env, id) {
      var below := DisableReaches(env, d, e1, id, n, done, busy + {id});
      RowReached(env, d, below, busy, Disable(env, e1, id, n).value, id);
      GrownBelow(env, d, owner, id, done, below);
      done' := below + {id};
    } else {
      ReachedBelow(env, d, owner, id);
      if PassesUser(env, id) {
        RowReached(env, d, done, busy, e1, id);
      }
    }
  }

  lemma RowReached(env: Env, d: Directory, done: set<Id>, busy: set<Id>, e: Directory, id: Id)
    requires Updated(env, d, done, busy + {id}, e) && PassesUser(env, id)
    requires id in d.bots && d.bots[id].deleteAt == 0
    ensures Updated(env, d, done + {id}, busy, UpdateRow(env, e, id, false).0)
  {
  }

  lemma {:induction false} EachReaches(env: Env, d: Directory, e: Directory, owner: Id, ids: seq<Id>, n: nat,
                                       done: set<Id>, busy: set<Id>) returns (done': set<Id>)
    requires Updated(env, d, done, busy, e) && Closed(env, d, done) && Each(env, e, ids, n).Some?
    requires forall id :: id in ids ==> Lists(env, d, owner, id)
    ensures Updated(env, d, done', busy, Each(env, e, ids, n).value) && Grown(env, d, owner, done, done')
    ensures forall id :: id in ids ==> id in done'
    decreases n, 2, |ids|
  {
    done' := done;
    if ids != [] {
      var k := |ids| - 1;
      assert ids == ids[..k] + [ids[k]] && ids[k] in ids;
      done' := EachReaches(env, d, e, owner, ids[..k], n, done, busy);
      var more := UpdateReaches(env, d, Each(env, e, ids[..k], n).value, owner, ids[k], n, done', busy);
      GrownTwice(env, d, owner, done, done', more);
      done' := more;
    }
  }

  lemma {:induction false} ChainInClosed(env: Env, d: Directory, owner: Id, p: seq<Id>, done: set<Id>)
    requires Chain(env, d, owner, p) && Closed(env, d, done)
    requires forall id :: Lists(env, d, owner, id) ==> id in done
    ensures forall id :: Lists(env, d, p[|p| - 1], id) ==> id in done
  {
    if |p| > 1 {
      var k := |p| - 1;
      PrefixOfChain(env, d, owner, p, k - 1);
      ChainInClosed(env, d, owner, p[..k], done);
      assert Linked(env, d, p, k);
    }
  }

  lemma ReachedAreUpdated(env: Env, d: Directory, owner: Id, n: nat)
    requires Disable(env, d, owner, n).Some?
    ensures Updated(env, d, ReachedSet(env, d, owner), {}, Disable(env, d, owner, n).value)
  {
    var done := DisableReaches(env, d, d, owner, n, {}, {});
    forall id | Reached(env, d, owner, id)
      ensures id in done
    {
      var p :| Chain(env, d, owner, p) && Lists(env, d, p[|p| - 1], id);
      ChainInClosed(env, d, owner, p, done);
    }
    assert forall id :: id in done ==> id in done - {};
    assert done == ReachedSet(env, d, owner);
  }

  /** When the loop has ended, the bots reached from the owner through listings and cascades have been disabled, except
      those whose update fails, and their users deactivated as far as the update got; every other row is as it was. */
  lemma TouchesExactlyReached(env: Env, d: Directory, owner: Id, n: nat)
    requires Disable(env, d, owner, n).Some?
    ensures var d' := Disable(env, d, owner, n).value;
            && d'.order == d.order && d'.bots.Keys == d.bots.Keys && d'.active.Keys == d.active.Keys
            && (forall id :: id in d.bots ==>
                  d'.bots[id] ==
                  if Reached(env, d, owner, id) && env.fault(id) == NoFault
                  then d.bots[id].(deleteAt := env.clock(id)) else d.bots[id])
            && (forall id :: id in d.active ==>
                  d'.active[id] ==
                  if Reached(env, d, owner, id) && ReachesUser(env, id) then false else d.active[id])
  {
    ReachedAreUpdated(env, d, owner, n);
    forall id | Reached(env, d, owner, id)
      ensures id in ReachedSet(env, d, owner)
    {
      var p :| Chain(env, d, owner, p) && Lists(env, d, p[|p| - 1], id);
    }
  }

  /** Of the owner's active bots those stay active whose update fails: none if nothing fails. */
  lemma LeavesStuck(env: Env, d: Directory, owner: Id, n: nat)
    requires Disable(env, d, owner, n).Some? && !env.listFails(owner)
    ensures Active(Disable(env, d, owner, n).value, owner) == Stuck(env, d, owner)
  {
    var d' := Disable(env, d, owner, n).value;
    TouchesExactlyReached(env, d, owner, n);
    DisableShrinks(env, d, owner, n);
    ShrinkKeepsStuck(env, d, d', owner);
    forall id | id in Active(d', owner)
      ensures Faulty(env)(id)
    {
      PageMembers(d', owner);
      assert Lists(env, d, owner, id);
      ReachedBelow(env, d, owner, id);
      assert id in ReachedSet(env, d, owner);
    }
    FilterMembers(Active(d', owner), Faulty(env));
  }

  ghost predicate Changed(d: Directory, d': Directory, id: Id) {
    id in d.bots && id in d'.bots && d'.bots[id] != d.bots[id]
  }

  /** Said of the rows alone: afterwards an active bot of the owner is one whose update fails, and so is an active bot
      of any bot that has been disabled, if the setting is on and the listing can be read. */
  lemma NoneLeftBehind(env: Env, d: Directory, owner: Id, n: nat, id: Id, x: Id)
    requires Disable(env, d, owner, n).Some? && x in d.order && x in d.bots && x in d.active && d.bots[x].owner == id
    requires id == owner || (env.cascade && Changed(d, Disable(env, d, owner, n).value, id))
    requires !env.listFails(id) && env.fault(x) == NoFault
    ensures var d' := Disable(env, d, owner, n).value;
            x in d'.bots && d'.bots[x].deleteAt != 0 && (d.bots[x].deleteAt == 0 ==> x in d'.active && !d'.active[x])
  {
    TouchesExactlyReached(env, d, owner, n);
    if d.bots[x].deleteAt == 0 {
      assert Lists(env, d, id, x);
      if id == owner {
        ReachedBelow(env, d, owner, x);
        assert x in ReachedSet(env, d, owner);
      } else {
        var p :| Chain(env, d, owner, p) && Lists(env, d, p[|p| - 1], id);
        ChainOneMore(env, d, owner, p, id);
        assert (p + [id])[|p + [id]| - 1] == id;
      }
      assert Reached(env, d, owner, x);
    }
  }

  lemma ChainOneMore(env: Env, d: Directory, owner: Id, p: seq<Id>, id: Id)
    requires Chain(env, d, owner, p) && Lists(env, d, p[|p| - 1], id) && Cascades(env, id)
    ensures Chain(env, d, owner, p + [id])
  {
    var q := p + [id];
    forall i | 0 < i < |q|
      ensures Linked(env, d, q, i)
    {
      assert i < |p| ==> Linked(env, d, p, i);
    }
  }

  /** And only bots of the owner or of a bot whose user has been deactivated are disabled, unless the owner ID is
      empty. */
  lemma OnlyOwnedAreDisabled(env: Env, d: Directory, owner: Id, n: nat, x: Id)
    requires Disable(env, d, owner, n).Some? && owner != "" && "" !in d.bots
    requires Changed(d, Disable(env, d, owner, n).value, x)
    ensures var d', y := Disable(env, d, owner, n).value, d.bots[x].owner;
            && d.bots[x].deleteAt == 0 && env.fault(x) == NoFault && d'.bots[x] == d.bots[x].(deleteAt := env.clock(x))
            && (y == owner || (env.cascade && y in d.bots && y in d'.active && !d'.active[y]))
  {
    TouchesExactlyReached(env, d, owner, n);
    var p :| Chain(env, d, owner, p) && Lists(env, d, p[|p| - 1], x);
    if |p| > 1 {
      LastOfChain(env, d, owner, p);
    }
  }

  lemma LastOfChain(env: Env, d: Directory, owner: Id, p: seq<Id>)
    requires Chain(env, d, owner, p) && |p| > 1
    ensures var y := p[|p| - 1]; Cascades(env, y) && y in d.bots && y in d.active && Reached(env, d, owner, y)
  {
    var k := |p| - 1;
    assert Linked(env, d, p, k);
    PrefixOfChain(env, d, owner, p, k - 1);
    assert p[..k][|p[..k]| - 1] == p[k - 1];
  }

  lemma UpdatedBefore(env: Env, env': Env, d: Directory, d': Directory, done: set<Id>, again: set<Id>, d'': Directory)
    requires env'.fault == env.fault && again <= done
    requires Updated(env, d, done, {}, d') && Updated(env', d', again, {}, d'')
    ensures d'' == d'
  {
    assert d''.bots == d'.bots && d''.active == d'.active;
  }

  /** Disabling the same owner's bots again, at any later time, ends as well and changes nothing. */
  lemma NothingLeft(env: Env, d: Directory, owner: Id, n: nat, later: Id -> Millis)
    requires Disable(env, d, owner, n).Some?
    ensures var d' := Disable(env, d, owner, n).value;
            exists m: nat :: Disable(env.(clock := later), d', owner, m) == Some(d')
  {
    var d', env' := Disable(env, d, owner, n).value, env.(clock := later);
    DrainsIff(env, d, owner);
    DisableShrinks(env, d, owner, n);
    ShrinkChains(env, d, d', owner);
    SameReached(env, later, d', d', owner);
    var m := SoundEnds(env', d', owner);
    ReachedAreUpdated(env, d, owner, n);
    ReachedAreUpdated(env', d', owner, m);
    UpdatedBefore(env, env', d, d', ReachedSet(env, d, owner), ReachedSet(env', d', owner),
                  Disable(env', d', owner, m).value);
  }

  // ---------- One bot ----------

  lemma UpdateAtOnce(env: Env, d: Directory, id: Id, active: bool, n: nat)
    requires active || id !in d.active || !Cascades(env, id)
    ensures Update(env, d, id, active, n).Some?
  {
  }

  /** Updating one bot ends if and only if its user is not deactivated, or the setting is off, or disabling the bots it
      owns ends. */
  lemma UpdateEndsIff(env: Env, d: Directory, id: Id, active: bool)
    ensures (exists n: nat :: Update(env, d, id, active, n).Some?)
       <==> active || id !in d.active || !Cascades(env, id) || Sound(env, d, id)
  {
    var d1 := d.(active := d.active[id := false]);
    if active || id !in d.active || !Cascades(env, id) {
      UpdateAtOnce(env, d, id, active, 1);
    } else {
      SameReached(env, env.clock, d, d1, id);
      if Sound(env, d1, id) {
        var n := SoundEnds(env, d1, id);
        UpdateByDisable(env, d, id, n);
      } else {
        forall n: nat
          ensures Update(env, d, id, active, n) == None
        {
          UnsoundNeverEnds(env, d1, id, n);
          UpdateByDisable(env, d, id, n);
        }
      }
    }
  }

  lemma UserIsBusy(env: Env, d: Directory, id: Id, done: set<Id>, d': Directory)
    requires id in d.active && ReachesUser(env, id)
    requires Updated(env, d.(active := d.active[id := false]), done, {}, d')
    ensures Updated(env, d, done, {id}, d')
  {
  }

  /** The directory between deactivating a bot's user, with the bots it owns, and writing the bot's row. */
  lemma BelowIsUpdated(env: Env, d: Directory, id: Id, n: nat)
    requires id in d.active && Cascades(env, id)
    requires Disable(env, d.(active := d.active[id := false]), id, n).Some?
    ensures Updated(env, d, Below(env, d, id), {id}, Disable(env, d.(active := d.active[id := false]), id, n).value)
    ensures id !in Below(env, d, id)
  {
    var d1 := d.(active := d.active[id := false]);
    ReachedAreUpdated(env, d1, id, n);
    DrainsIff(env, d1, id);
    NotReachedAgain(env, d1, id);
    SameReached(env, env.clock, d, d1, id);
    UserIsBusy(env, d, id, ReachedSet(env, d1, id), Disable(env, d1, id, n).value);
  }

  /** An update succeeds exactly when no store call fails on its way, and then leaves bot and user in step; one that
      fails leaves the bot's row as it was. Of the other rows it changes those which disabling the bot's own bots
      changes. */
  lemma UpdateKeepsInStep(env: Env, d: Directory, id: Id, active: bool, n: nat)
    requires Update(env, d, id, active, n).Some?
    ensures var (d', ok) := Update(env, d, id, active, n).value;
            var below := if active || id !in d.active then {} else Below(env, d, id);
            && d'.order == d.order && d'.bots.Keys == d.bots.Keys && d'.active.Keys == d.active.Keys
            && (ok <==> && id in d.active && id in d.bots
                        && (|| env.fault(id) == NoFault
                            || (active && (env.fault(id) == AtRevoke || env.fault(id) == AtUserReload))
                            || (env.fault(id) == AtBotUpdate && active == (d.bots[id].deleteAt == 0))))
            && (ok ==> d'.active[id] == active && (d'.bots[id].deleteAt == 0 <==> active))
            && (id in d.active ==> d'.active[id] == if ReachesUser(env, id) then active else d.active[id])
            && (id in d.bots ==>
                  d'.bots[id] ==
                  if !ok || active == (d.bots[id].deleteAt == 0) then d.bots[id]
                  else Bot(d.bots[id].owner, if active then 0 else env.clock(id)))
            && (forall x :: x in d.bots && x != id ==>
                  d'.bots[x] ==
                  if x in below && env.fault(x) == NoFault then d.bots[x].(deleteAt := env.clock(x)) else d.bots[x])
            && (forall x :: x in d.active && x != id ==>
                  d'.active[x] == if x in below && ReachesUser(env, x) then false else d.active[x])
  {
    if !active && id in d.active {
      UpdateByDisable(env, d, id, n);
      if Cascades(env, id) {
        BelowIsUpdated(env, d, id, n);
      }
    }
  }
}
