/** The methods of the server that disable bots (app/bot.go, app/user.go), over one directory. */
module BotHandlers {
  import opened BotCascade
  import opened BotDraining
  import opened BotRows
  import opened Prelude

  // ---------- What a call that returns has done ----------

  ghost predicate DisableTo(env: Env, d: Directory, owner: Id, d': Directory) {
    exists n: nat :: Disable(env, d, owner, n) == Some(d')
  }

  ghost predicate EachTo(env: Env, d: Directory, ids: seq<Id>, d': Directory) {
    exists n: nat :: Each(env, d, ids, n) == Some(d')
  }

  ghost predicate UserTo(env: Env, d: Directory, id: Id, active: bool, r: (Directory, bool)) {
    exists n: nat :: UpdateUser(env, d, id, active, n) == Some(r)
  }

  ghost predicate UpdateTo(env: Env, d: Directory, id: Id, active: bool, r: (Directory, bool)) {
    exists n: nat :: Update(env, d, id, active, n) == Some(r)
  }

  lemma UserAtOnce(env: Env, d: Directory, id: Id, active: bool)
    requires active || id !in d.active || !env.cascade || (!PassesUser(env, id) && env.fault(id) != AtUserGet)
    ensures UserTo(env, d, id, active,
                   if id !in d.active || env.fault(id) == AtUserUpdate then (d, false)
                   else (d.(active := d.active[id := active]),
                         active || (env.fault(id) != AtRevoke && env.fault(id) != AtUserReload)))
  {
    assert UpdateUser(env, d, id, active, 0) == UpdateUser(env, d, id, active, 0);
  }

  lemma UserAfterBots(env: Env, d: Directory, id: Id, d': Directory)
    requires id in d.active && Cascades(env, id) && DisableTo(env, d.(active := d.active[id := false]), id, d')
    ensures UserTo(env, d, id, false, (d', true))
  {
    var n: nat :| Disable(env, d.(active := d.active[id := false]), id, n) == Some(d');
    assert UpdateUser(env, d, id, false, n) == Some((d', true));
  }

  lemma UpdateAfterUser(env: Env, d: Directory, id: Id, active: bool, r: (Directory, bool))
    requires id in d.active && env.fault(id) != AtUserGet && UserTo(env, d, id, active, r)
    ensures UpdateTo(env, d, id, active, if r.1 then UpdateRow(env, r.0, id, active) else r)
  {
    var n: nat :| UpdateUser(env, d, id, active, n) == Some(r);
    assert Update(env, d, id, active, n) == Some(if r.1 then UpdateRow(env, r.0, id, active) else r);
  }

  lemma UpdateNothing(env: Env, d: Directory, id: Id, active: bool)
    requires id !in d.active || env.fault(id) == AtUserGet
    ensures UpdateTo(env, d, id, active, (d, false))
  {
    assert Update(env, d, id, active, 0) == Some((d, false));
  }

  lemma EachOfNone(env: Env, d: Directory)
    ensures EachTo(env, d, [], d)
  {
    assert Each(env, d, [], 0) == Some(d);
  }

  lemma EachOfOneMore(env: Env, before: Directory, d: Directory, ids: seq<Id>, i: nat, d1: Directory, d2: Directory,
                      ok: bool)
    requires i < |ids| && ids[i] in d1.active && Shrinks(env, before, d1)
    requires EachTo(env, d, ids[..i], d1) && UpdateTo(env, d1, ids[i], false, (d2, ok))
    ensures EachTo(env, d, ids[..i + 1], d2) && Shrinks(env, before, d2)
  {
    var k: nat :| Each(env, d, ids[..i], k) == Some(d1);
    var m: nat :| Update(env, d1, ids[i], false, m) == Some((d2, ok));
    EachNext(env, d, ids, i, k, m);
    UpdateInTrap(env, d1, ids[i], {}, m);
  }

  lemma NoRound(env: Env, d: Directory, owner: Id)
    requires env.listFails(owner)
    ensures DisableTo(env, d, owner, d)
  {
    assert Disable(env, d, owner, 1) == Some(d);
  }

  lemma LastRound(env: Env, d: Directory, owner: Id, d1: Directory)
    requires !env.listFails(owner) && |Page0(d, owner)| < PER_PAGE && EachTo(env, d, Page0(d, owner), d1)
    ensures DisableTo(env, d, owner, d1)
  {
    var k: nat :| Each(env, d, Page0(d, owner), k) == Some(d1);
    FirstRound(env, d, owner, k, 0);
  }

  lemma FullRound(env: Env, d: Directory, owner: Id, d1: Directory)
    requires !env.listFails(owner) && |Page0(d, owner)| == PER_PAGE && EachTo(env, d, Page0(d, owner), d1)
    ensures forall e :: DisableTo(env, d1, owner, e) ==> DisableTo(env, d, owner, e)
  {
    var k: nat :| Each(env, d, Page0(d, owner), k) == Some(d1);
    forall e | DisableTo(env, d1, owner, e)
      ensures DisableTo(env, d, owner, e)
    {
      var m: nat :| Disable(env, d1, owner, m) == Some(e);
      FirstRound(env, d, owner, k, m);
    }
  }

  lemma FullRoundProgress(env: Env, before: Directory, d: Directory, owner: Id, d1: Directory)
    requires Sound(env, before, owner) && Shrinks(env, before, d)
    requires !env.listFails(owner) && |Page0(d, owner)| == PER_PAGE && EachTo(env, d, Page0(d, owner), d1)
    ensures |Active(d1, owner)| < |Active(d, owner)|
  {
    var k: nat :| Each(env, d, Page0(d, owner), k) == Some(d1);
    assert Chain(env, before, owner, [owner]);
    ShrinkKeepsStuck(env, before, d, owner);
    RoundProgress(env, d, owner, d1, k);
  }

  lemma PageIsListed(env: Env, before: Directory, d: Directory, owner: Id)
    requires Shrinks(env, before, d) && !env.listFails(owner)
    ensures forall i :: 0 <= i < |Page0(d, owner)| ==> Lists(env, before, owner, Page0(d, owner)[i])
  {
    PageMembers(d, owner);
    forall i | 0 <= i < |Page0(d, owner)|
      ensures Lists(env, before, owner, Page0(d, owner)[i])
    {
      assert Listed(d, owner, Page0(d, owner)[i]);
    }
  }

  // ---------- The methods ----------

  class App {
    var directory: Directory
    const env: Env

    constructor (directory: Directory, env: Env)
      ensures this.directory == directory && this.env == env
    {
      this.directory, this.env := directory, env;
    }

    /** The precondition is the exact condition of UpdateEndsIff; the source has none. */
    method UpdateBotActive(id: Id, active: bool) returns (ok: bool)
      requires active || id !in directory.active || !Cascades(env, id) || Sound(env, directory, id)
      modifies this
      ensures UpdateTo(env, old(directory), id, active, (directory, ok))
      decreases if active then {} else Below(env, directory, id), 3
    {
      var fault := env.fault(id);
      if id !in directory.active || fault == AtUserGet {
        UpdateNothing(env, directory, id, active);
        return false;
      }
      ok := UpdateActive(id, active);
      UpdateAfterUser(env, old(directory), id, active, (directory, ok));
      if !ok {
        return;
      }
      if id !in directory.bots || fault == AtBotGet {
        return false;
      }
      var bot, changed := directory.bots[id], true;
      if active && bot.deleteAt != 0 {
        bot := bot.(deleteAt := 0);
      } else if !active && bot.deleteAt == 0 {
        bot := bot.(deleteAt := env.clock(id));
      } else {
        changed := false;
      }
      if changed {
        if fault == AtBotUpdate {
          return false;
        }
        directory := directory.(bots := directory.bots[id := bot]);
      }
    }

    /** For a user that has been read. */
    method UpdateActive(id: Id, active: bool) returns (ok: bool)
      requires env.fault(id) != AtUserGet
      requires active || id !in directory.active || !Cascades(env, id) || Sound(env, directory, id)
      modifies this
      ensures UserTo(env, old(directory), id, active, (directory, ok))
      decreases if active then {} else Below(env, directory, id), 2
    {
      ghost var before := directory;
      if active || id !in directory.active || !Cascades(env, id) {
        UserAtOnce(env, before, id, active);
      }
      if id !in directory.active || env.fault(id) == AtUserUpdate {
        return false;
      }
      directory := directory.(active := directory.active[id := active]);
      SameReached(env, env.clock, before, directory, id);
      ok := true;
      if !active {
        if env.fault(id) == AtRevoke {
          return false;
        }
        ok := UserDeactivated(id);
        if Cascades(env, id) {
          UserAfterBots(env, before, id, directory);
        }
      }
    }

    /** For a user whose row has been written and whose sessions have been revoked. */
    method UserDeactivated(id: Id) returns (ok: bool)
      requires PassesUser(env, id) || env.fault(id) == AtUserReload
      requires !Cascades(env, id) || Sound(env, directory, id)
      modifies this
      ensures ok <==> env.fault(id) != AtUserReload
      ensures if Cascades(env, id) then DisableTo(env, old(directory), id, directory)
              else directory == old(directory)
      decreases Below(env, directory, id), 1
    {
      if env.fault(id) == AtUserReload {
        return false;
      }
      if env.cascade {
        var listed := DisableUserBots(id); // its error is dropped
      }
      ok := true;
    }

    /** The precondition is the exact condition of DrainsIff; the source has none and never returns without it. */
    method DisableUserBots(owner: Id) returns (ok: bool)
      requires Sound(env, directory, owner)
      modifies this
      ensures DisableTo(env, old(directory), owner, directory)
      ensures ok <==> !env.listFails(owner)
      decreases ReachedSet(env, directory, owner), 0
    {
      ghost var before := directory;
      while true
        invariant Shrinks(env, before, directory)
        invariant forall e :: DisableTo(env, directory, owner, e) ==> DisableTo(env, before, owner, e)
        decreases |Active(directory, owner)|
      {
        if env.listFails(owner) {
          NoRound(env, directory, owner);
          return false;
        }
        ghost var d := directory;
        var userBots := Page0(directory, owner);
        PageIsListed(env, before, d, owner);
        EachOfNone(env, d);
        for i := 0 to |userBots|
          invariant Shrinks(env, before, directory)
          invariant EachTo(env, d, userBots[..i], directory)
        {
          ghost var d1 := directory;
          BelowIsSmaller(env, before, d1, owner, userBots[i]);
          var updated := UpdateBotActive(userBots[i], false); // a failure is only logged
          EachOfOneMore(env, before, d, userBots, i, d1, directory, updated);
        }
        assert userBots[..|userBots|] == userBots;
        if |userBots| == PER_PAGE {
          FullRound(env, d, owner, directory);
          FullRoundProgress(env, before, d, owner, directory);
          continue;
        }
        LastRound(env, d, owner, directory);
        return true;
      }
    }
  }
}
