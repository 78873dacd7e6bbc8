/**
 Disabling all bots of a deactivated owner (app/bot.go, disableUserBots and UpdateBotActive; app/user.go, UpdateActive
 and userDeactivated). disableUserBots keeps reading page 0 of the owner's active bots, because every bot it disables
 leaves that page. Disabling a bot deactivates its user, and deactivating a user disables the bots which that user owns:
 the loop is entered again for every bot of every page.
 */
module BotDraining {
  import opened BotRows
  import opened Prelude

  const PER_PAGE: nat := 20

  /** The clock never reads zero, which is what an active row has for its time of deletion. */
  type Millis = t: int | t > 0 witness 1

  /** `active` holds the users; `order` lists the bot rows by creation time and username. */
  datatype Directory = Directory(order: seq<Id>, bots: map<Id, Bot>, active: map<Id, bool>)

  /** Where the update of a given bot breaks off: reading its user, writing its user, revoking the user's sessions,
      reading the user again, reading the bot, writing the bot. */
  datatype Fault = NoFault | AtUserGet | AtUserUpdate | AtRevoke | AtUserReload | AtBotGet | AtBotUpdate

  /** The store calls that fail, the setting DisableBotsWhenOwnerIsDeactivated, and the clock when a bot is written. */
  datatype Env = Env(fault: Id -> Fault, listFails: Id -> bool, cascade: bool, clock: Id -> Millis)

  function Filter(ids: seq<Id>, keep: Id -> bool): seq<Id> {
    if ids == [] then [] else (if keep(ids[0]) then [ids[0]] else []) + Filter(ids[1..], keep)
  }

  /** The query joins the bot with its user, and an empty owner ID is no condition at all. */
  predicate Listed(d: Directory, owner: Id, id: Id) {
    && id in d.order && id in d.bots && id in d.active
    && d.bots[id].deleteAt == 0 && (owner == "" || d.bots[id].owner == owner)
  }

  function ListedIn(d: Directory, owner: Id): Id -> bool { id => Listed(d, owner, id) }

  function Active(d: Directory, owner: Id): seq<Id> { Filter(d.order, ListedIn(d, owner)) }

  function Page0(d: Directory, owner: Id): seq<Id> {
    var ids := Active(d, owner);
    if |ids| > PER_PAGE then ids[..PER_PAGE] else ids
  }

  /** The user row gets written. */
  predicate ReachesUser(env: Env, id: Id) { env.fault(id) != AtUserGet && env.fault(id) != AtUserUpdate }

  /** The user has been deactivated without an error. */
  predicate PassesUser(env: Env, id: Id) {
    ReachesUser(env, id) && env.fault(id) != AtRevoke && env.fault(id) != AtUserReload
  }

  /** Disabling the bot goes on to disable the bots it owns. */
  predicate Cascades(env: Env, id: Id) { env.cascade && PassesUser(env, id) }

  // ---------- The operations; None while the given number of nested rounds is not enough ----------

  /** disableUserBots; its own error, that of a listing, is dropped by userDeactivated. */
  ghost function Disable(env: Env, d: Directory, owner: Id, n: nat): Option<Directory>
    decreases n, 0, 0
  {
    if n == 0 then None
    else if env.listFails(owner) then Some(d)
    else
      var page := Page0(d, owner);
      match Each(env, d, page, n - 1)
      case None => None
      case Some(d1) => if |page| == PER_PAGE then Disable(env, d1, owner, n - 1) else Some(d1)
  }

  /** UpdateActive, with userDeactivated; false when it returns an error. */
  ghost function UpdateUser(env: Env, d: Directory, id: Id, active: bool, n: nat): Option<(Directory, bool)>
    decreases n, 1, 0
  {
    if id !in d.active || env.fault(id) == AtUserUpdate then Some((d, false))
    else
      var d1 := d.(active := d.active[id := active]);
      if active then Some((d1, true))
      else if env.fault(id) == AtRevoke || env.fault(id) == AtUserReload then Some((d1, false))
      else if !env.cascade then Some((d1, true))
      else match Disable(env, d1, id, n)
        case None => None
        case Some(d2) => Some((d2, true))
  }

  /** The second half of UpdateBotActive. */
  function UpdateRow(env: Env, d: Directory, id: Id, active: bool): (Directory, bool) {
    if id !in d.bots || env.fault(id) == AtBotGet then (d, false)
    else
      var bot := d.bots[id];
      if active == (bot.deleteAt == 0) then (d, true)
      else if env.fault(id) == AtBotUpdate then (d, false)
      else (d.(bots := d.bots[id := bot.(deleteAt := if active then 0 else env.clock(id))]), true)
  }

  /** UpdateBotActive: the user first, then the bot; false when it returns an error. */
  ghost function Update(env: Env, d: Directory, id: Id, active: bool, n: nat): Option<(Directory, bool)>
    decreases n, 2, 0
  {
    if id !in d.active || env.fault(id) == AtUserGet then Some((d, false))
    else match UpdateUser(env, d, id, active, n)
      case None => None
      case Some((d1, ok)) => Some(if ok then UpdateRow(env, d1, id, active) else (d1, false))
  }

  /** The bots of one page; a failure is only logged. */
  ghost function Each(env: Env, d: Directory, ids: seq<Id>, n: nat): Option<Directory>
    decreases n, 3, |ids|
  {
    if ids == [] then Some(d)
    else
      var k := |ids| - 1;
      match Each(env, d, ids[..k], n)
      case None => None
      case Some(d1) =>
        match Update(env, d1, ids[k], false, n)
        case None => None
        case Some((d2, _)) => Some(d2)
  }

  // ---------- Who is reached ----------

  /** The loop for `owner` meets the bot `id`. */
  predicate Lists(env: Env, d: Directory, owner: Id, id: Id) { !env.listFails(owner) && Listed(d, owner, id) }

  /** The loop for `p[i - 1]` meets the bot `p[i]` and is entered again for it. */
  predicate Linked(env: Env, d: Directory, p: seq<Id>, i: nat)
    requires 0 < i < |p|
  {
    Lists(env, d, p[i - 1], p[i]) && Cascades(env, p[i])
  }

  /** Owners and bots along which the loop is entered again and again. */
  ghost predicate Chain(env: Env, d: Directory, owner: Id, p: seq<Id>) {
    && |p| > 0 && p[0] == owner
    && forall i :: 0 < i < |p| ==> Linked(env, d, p, i)
  }

  ghost predicate Reached(env: Env, d: Directory, owner: Id, id: Id) {
    exists p :: Chain(env, d, owner, p) && Lists(env, d, p[|p| - 1], id)
  }

  ghost function ReachedSet(env: Env, d: Directory, owner: Id): set<Id> {
    set id | id in d.bots.Keys && Reached(env, d, owner, id)
  }

  function Faulty(env: Env): Id -> bool { id => env.fault(id) != NoFault }

  /** The owner's active bots whose update always fails. */
  function Stuck(env: Env, d: Directory, owner: Id): seq<Id> {
    if env.listFails(owner) then [] else Filter(Active(d, owner), Faulty(env))
  }

  ghost predicate NoRepeat(p: seq<Id>) {
    forall i, j :: 0 <= i < j < |p| ==> p[i] != p[j]
  }

  /** No chain from the owner runs into a cycle or to a full page of bots that cannot be updated. */
  ghost predicate Sound(env: Env, d: Directory, owner: Id) {
    forall p :: Chain(env, d, owner, p) ==> NoRepeat(p) && |Stuck(env, d, p[|p| - 1])| < PER_PAGE
  }

  // ---------- Filters ----------

  lemma {:induction false} FilterSame(ids: seq<Id>, p: Id -> bool, q: Id -> bool)
    requires forall id :: id in ids ==> p(id) == q(id)
    ensures Filter(ids, p) == Filter(ids, q)
  {
    if ids != [] {
      FilterSame(ids[1..], p, q);
    }
  }

  lemma {:induction false} FilterNone(ids: seq<Id>, p: Id -> bool)
    requires forall id :: id in ids ==> !p(id)
    ensures Filter(ids, p) == []
  {
    if ids != [] {
      FilterNone(ids[1..], p);
    }
  }

  lemma {:induction false} FilterTwice(ids: seq<Id>, p: Id -> bool, q: Id -> bool, both: Id -> bool)
    requires forall id :: id in ids ==> both(id) == (p(id) && q(id))
    ensures Filter(Filter(ids, p), q) == Filter(ids, both)
  {
    if ids != [] {
      var first, rest := ids[0], Filter(ids[1..], p);
      FilterTwice(ids[1..], p, q, both);
      if p(first) {
        assert Filter(ids, p) == [first] + rest && ([first] + rest)[1..] == rest;
        assert Filter([first] + rest, q) == (if q(first) then [first] else []) + Filter(rest, q);
      } else {
        assert Filter(ids, p) == rest && Filter(ids, both) == Filter(ids[1..], both);
      }
    }
  }

  lemma {:induction false} FilterMembers(ids: seq<Id>, p: Id -> bool)
    ensures forall id :: id in Filter(ids, p) <==> id in ids && p(id)
    ensures |Filter(ids, p)| <= |ids|
    ensures |Filter(ids, p)| == |ids| <==> forall id :: id in ids ==> p(id)
    ensures |Filter(ids, p)| == |ids| ==> Filter(ids, p) == ids
  {
    if ids != [] {
      FilterMembers(ids[1..], p);
      assert ids == [ids[0]] + ids[1..];
    }
  }

  lemma {:induction false} FilterPrefix(ids: seq<Id>, n: nat, p: Id -> bool)
    requires n <= |ids|
    ensures |Filter(ids[..n], p)| <= |Filter(ids, p)|
  {
    if n > 0 {
      FilterPrefix(ids[1..], n - 1, p);
      assert ids[..n][1..] == ids[1..][..n - 1];
    }
  }

  lemma PageMembers(d: Directory, owner: Id)
    ensures forall id :: id in Active(d, owner) <==> Listed(d, owner, id)
    ensures forall id :: id in Page0(d, owner) ==> Listed(d, owner, id)
  {
    FilterMembers(d.order, ListedIn(d, owner));
    forall id
      ensures id in Active(d, owner) <==> Listed(d, owner, id)
    {
      assert ListedIn(d, owner)(id) == Listed(d, owner, id);
    }
    assert forall id :: id in Page0(d, owner) ==> id in Active(d, owner);
  }

  // ---------- What a run may change ----------

  /** Active bots without a fault may have been disabled, and users deactivated. */
  ghost predicate Shrinks(env: Env, d: Directory, d': Directory) {
    && d'.order == d.order && d'.bots.Keys == d.bots.Keys && d'.active.Keys == d.active.Keys
    && (forall id :: id in d.bots ==>
          || d'.bots[id] == d.bots[id]
          || (d.bots[id].deleteAt == 0 && env.fault(id) == NoFault
              && d'.bots[id] == d.bots[id].(deleteAt := env.clock(id))))
    && (forall id :: id in d.active && d'.active[id] ==> d.active[id])
  }

  lemma ShrinkKeepsStuck(env: Env, d: Directory, d': Directory, owner: Id)
    requires Shrinks(env, d, d')
    ensures Stuck(env, d', owner) == Stuck(env, d, owner)
  {
    var both: Id -> bool := id => Listed(d, owner, id) && env.fault(id) != NoFault;
    FilterTwice(d.order, ListedIn(d, owner), Faulty(env), both);
    FilterTwice(d.order, ListedIn(d', owner), Faulty(env), both);
  }

  lemma ShrinkChains(env: Env, d: Directory, d': Directory, owner: Id)
    requires Shrinks(env, d, d')
    ensures forall p :: Chain(env, d', owner, p) ==> Chain(env, d, owner, p)
    ensures ReachedSet(env, d', owner) <= ReachedSet(env, d, owner)
    ensures Sound(env, d, owner) ==> Sound(env, d', owner)
  {
    forall p | Chain(env, d', owner, p)
      ensures Chain(env, d, owner, p)
    {
      forall i | 0 < i < |p|
        ensures Linked(env, d, p, i)
      {
        assert Linked(env, d', p, i);
      }
    }
    forall id | id in ReachedSet(env, d', owner)
      ensures Reached(env, d, owner, id)
    {
      var p :| Chain(env, d', owner, p) && Lists(env, d', p[|p| - 1], id);
      assert Chain(env, d, owner, p);
    }
    forall p | Chain(env, d', owner, p) && Sound(env, d, owner)
      ensures NoRepeat(p) && |Stuck(env, d', p[|p| - 1])| < PER_PAGE
    {
      assert Chain(env, d, owner, p);
      ShrinkKeepsStuck(env, d, d', p[|p| - 1]);
    }
  }

  // ---------- Runs that do not end ----------

  /** Whoever disables the bots of `owner` meets a full page of stuck bots, or a bot of `c`. */
  ghost predicate Doomed(env: Env, d: Directory, owner: Id, c: set<Id>) {
    |Stuck(env, d, owner)| >= PER_PAGE || exists id :: id in c && Lists(env, d, owner, id)
  }

  ghost predicate Trap(env: Env, d: Directory, c: set<Id>) {
    forall id :: id in c ==> Cascades(env, id) && Doomed(env, d, id, c)
  }

  /** What a run inside a trap has done if it ever ends: it has stayed away from the bots of `c`. */
  ghost predicate Clear(env: Env, d: Directory, d': Directory, c: set<Id>) {
    Shrinks(env, d, d') && forall id :: id in c && id in d.bots ==> d'.bots[id] == d.bots[id]
  }

  /** Disabling one bot in terms of disabling the bots it owns. */
  lemma UpdateByDisable(env: Env, d: Directory, id: Id, n: nat)
    requires id in d.active
    ensures var d1, r := d.(active := d.active[id := false]), Update(env, d, id, false, n);
            if Cascades(env, id) then
              match Disable(env, d1, id, n)
              case None => r == None
              case Some(d2) => r == Some(UpdateRow(env, d2, id, false))
            else if !ReachesUser(env, id) then r == Some((d, false))
            else if !PassesUser(env, id) then r == Some((d1, false))
            else r == Some(UpdateRow(env, d1, id, false))
  {
  }

  lemma DoomStays(env: Env, d: Directory, d': Directory, owner: Id, c: set<Id>)
    requires Clear(env, d, d', c) && Doomed(env, d, owner, c)
    ensures Doomed(env, d', owner, c)
  {
    ShrinkKeepsStuck(env, d, d', owner);
    if id :| id in c && Lists(env, d, owner, id) {
      assert Lists(env, d', owner, id);
    }
  }

  lemma TrapStays(env: Env, d: Directory, d': Directory, c: set<Id>)
    requires Clear(env, d, d', c) && Trap(env, d, c)
    ensures Trap(env, d', c)
  {
    forall id | id in c
      ensures Doomed(env, d', id, c)
    {
      DoomStays(env, d, d', id, c);
    }
  }

  lemma RowStaysClear(env: Env, d: Directory, d': Directory, id: Id, c: set<Id>)
    requires Clear(env, d, d', c) && id !in c && PassesUser(env, id)
    ensures Clear(env, d, UpdateRow(env, d', id, false).0, c)
  {
  }

  lemma {:induction false} DisableInTrap(env: Env, d: Directory, owner: Id, c: set<Id>, n: nat)
    requires Trap(env, d, c)
    ensures var r := Disable(env, d, owner, n); r.Some? ==> Clear(env, d, r.value, c) && !Doomed(env, d, owner, c)
    decreases n, 0, 0
  {
    if n > 0 && Disable(env, d, owner, n).Some? && !env.listFails(owner) {
      var page := Page0(d, owner);
      PageMembers(d, owner);
      EachInTrap(env, d, page, c, n - 1);
      var d1 := Each(env, d, page, n - 1).value;
      TrapStays(env, d, d1, c);
      if |page| == PER_PAGE {
        DisableInTrap(env, d1, owner, c, n - 1);
        if Doomed(env, d, owner, c) {
          DoomStays(env, d, d1, owner, c);
        }
      } else {
        FilterMembers(Active(d, owner), Faulty(env));
      }
    }
  }

  lemma {:induction false} UpdateInTrap(env: Env, d: Directory, id: Id, c: set<Id>, n: nat)
    requires Trap(env, d, c) && id in d.active
    ensures var r := Update(env, d, id, false, n); r.Some? ==> id !in c && Clear(env, d, r.value.0, c)
    decreases n, 1, 0
  {
    var d1 := d.(active := d.active[id := false]);
    UpdateByDisable(env, d, id, n);
    if Cascades(env, id) {
      TrapStays(env, d, d1, c);
      DisableInTrap(env, d1, id, c, n);
      if id in c {
        DoomStays(env, d, d1, id, c);
      } else if Disable(env, d1, id, n).Some? {
        RowStaysClear(env, d, Disable(env, d1, id, n).value, id, c);
      }
    } else if PassesUser(env, id) && id !in c {
      RowStaysClear(env, d, d1, id, c);
    }
  }

  lemma {:induction false} EachInTrap(env: Env, d: Directory, ids: seq<Id>, c: set<Id>, n: nat)
    requires Trap(env, d, c) && forall id :: id in ids ==> id in d.active
    ensures var r := Each(env, d, ids, n);
            r.Some? ==> Clear(env, d, r.value, c) && forall id :: id in ids ==> id !in c
    decreases n, 2, |ids|
  {
    if ids != [] && Each(env, d, ids, n).Some? {
      var k := |ids| - 1;
      EachInTrap(env, d, ids[..k], c, n);
      var d1 := Each(env, d, ids[..k], n).value;
      TrapStays(env, d, d1, c);
      UpdateInTrap(env, d1, ids[k], c, n);
      assert ids == ids[..k] + [ids[k]];
    }
  }

  lemma DisableShrinks(env: Env, d: Directory, owner: Id, n: nat)
    ensures var r := Disable(env, d, owner, n); r.Some? ==> Shrinks(env, d, r.value)
  {
    DisableInTrap(env, d, owner, {}, n);
  }

  lemma EachShrinks(env: Env, d: Directory, ids: seq<Id>, n: nat)
    requires forall id :: id in ids ==> id in d.active
    ensures var r := Each(env, d, ids, n); r.Some? ==> Shrinks(env, d, r.value)
  {
    EachInTrap(env, d, ids, {}, n);
  }

  ghost function Behind(p: seq<Id>): set<Id> { set i | 0 < i < |p| :: p[i] }

  /** A chain whose last member is doomed by the members behind the owner. */
  lemma ChainIntoTrap(env: Env, d: Directory, owner: Id, p: seq<Id>, n: nat)
    requires Chain(env, d, owner, p) && Doomed(env, d, p[|p| - 1], Behind(p))
    ensures Disable(env, d, owner, n) == None
  {
    forall i | 0 <= i < |p|
      ensures Doomed(env, d, p[i], Behind(p)) && (i > 0 ==> Cascades(env, p[i]))
    {
      assert i > 0 ==> Linked(env, d, p, i);
      if i < |p| - 1 {
        assert Linked(env, d, p, i + 1) && p[i + 1] in Behind(p);
      }
    }
    DisableInTrap(env, d, owner, Behind(p), n);
  }

  lemma PrefixOfChain(env: Env, d: Directory, owner: Id, p: seq<Id>, j: nat)
    requires Chain(env, d, owner, p) && j < |p|
    ensures Chain(env, d, owner, p[..j + 1])
  {
    var q := p[..j + 1];
    forall i | 0 < i < |q|
      ensures Linked(env, d, q, i)
    {
      assert Linked(env, d, p, i);
    }
  }

  lemma LinkBackNeverEnds(env: Env, d: Directory, owner: Id, p: seq<Id>, i: nat, n: nat)
    requires Chain(env, d, owner, p) && 0 < i < |p| && Lists(env, d, p[|p| - 1], p[i])
    ensures Disable(env, d, owner, n) == None
  {
    assert p[i] in Behind(p);
    ChainIntoTrap(env, d, owner, p, n);
  }

  lemma CycleNeverEnds(env: Env, d: Directory, owner: Id, p: seq<Id>, n: nat)
    requires Chain(env, d, owner, p) && !NoRepeat(p)
    ensures Disable(env, d, owner, n) == None
  {
    var i, j :| 0 <= i < j < |p| && p[i] == p[j];
    PrefixOfChain(env, d, owner, p, j);
    assert Linked(env, d, p, i + 1);
    LinkBackNeverEnds(env, d, owner, p[..j + 1], i + 1, n);
  }

  lemma UnsoundNeverEnds(env: Env, d: Directory, owner: Id, n: nat)
    requires !Sound(env, d, owner)
    ensures Disable(env, d, owner, n) == None
  {
    var p :| Chain(env, d, owner, p) && !(NoRepeat(p) && |Stuck(env, d, p[|p| - 1])| < PER_PAGE);
    if NoRepeat(p) {
      ChainIntoTrap(env, d, owner, p, n);
    } else {
      CycleNeverEnds(env, d, owner, p, n);
    }
  }

  /** A bot that owns itself, which is what converting a user to a bot gives, cannot be disabled. */
  lemma SelfOwnedNeverEnds(env: Env, d: Directory, id: Id, n: nat)
    requires Lists(env, d, id, id) && Cascades(env, id)
    ensures Disable(env, d, id, n) == None && Update(env, d, id, false, n) == None
  {
    var d1 := d.(active := d.active[id := false]);
    forall e | e == d || e == d1
      ensures Disable(env, e, id, n) == None
    {
      var p := [id, id];
      assert Lists(env, e, id, id) && p[0] == p[1];
      assert Chain(env, e, id, p);
      UnsoundNeverEnds(env, e, id, n);
    }
    assert UpdateUser(env, d, id, false, n) == None;
  }

  // ---------- Runs that end ----------

  lemma {:induction false} DisableMore(env: Env, d: Directory, owner: Id, n: nat, m: nat)
    requires n <= m && Disable(env, d, owner, n).Some?
    ensures Disable(env, d, owner, m) == Disable(env, d, owner, n)
    decreases n, 0, 0
  {
    if !env.listFails(owner) {
      var page := Page0(d, owner);
      EachMore(env, d, page, n - 1, m - 1);
      if |page| == PER_PAGE {
        DisableMore(env, Each(env, d, page, n - 1).value, owner, n - 1, m - 1);
      }
    }
  }

  lemma {:induction false} UpdateMore(env: Env, d: Directory, id: Id, active: bool, n: nat, m: nat)
    requires n <= m && Update(env, d, id, active, n).Some?
    ensures Update(env, d, id, active, m) == Update(env, d, id, active, n)
    decreases n, 1, 0
  {
    if !active && id in d.active && Cascades(env, id) {
      UpdateByDisable(env, d, id, n);
      UpdateByDisable(env, d, id, m);
      DisableMore(env, d.(active := d.active[id := false]), id, n, m);
    }
  }

  lemma {:induction false} EachMore(env: Env, d: Directory, ids: seq<Id>, n: nat, m: nat)
    requires n <= m && Each(env, d, ids, n).Some?
    ensures Each(env, d, ids, m) == Each(env, d, ids, n)
    decreases n, 2, |ids|
  {
    if ids != [] {
      var k := |ids| - 1;
      EachMore(env, d, ids[..k], n, m);
      UpdateMore(env, Each(env, d, ids[..k], n).value, ids[k], false, n, m);
    }
  }

  /** The chains from a listed bot that cascades are those of the owner without their first link. */
  lemma ChainBelow(env: Env, d: Directory, owner: Id, id: Id, p: seq<Id>)
    requires Lists(env, d, owner, id) && Cascades(env, id) && Chain(env, d, id, p)
    ensures Chain(env, d, owner, [owner] + p)
  {
    var q := [owner] + p;
    forall i | 0 < i < |q|
      ensures Linked(env, d, q, i)
    {
      assert i > 1 ==> Linked(env, d, p, i - 1);
    }
  }

  lemma ReachedBelow(env: Env, d: Directory, owner: Id, id: Id)
    requires Lists(env, d, owner, id)
    ensures id in ReachedSet(env, d, owner)
    ensures Cascades(env, id) ==> ReachedSet(env, d, id) <= ReachedSet(env, d, owner)
  {
    assert Chain(env, d, owner, [owner]);
    forall x | Cascades(env, id) && x in ReachedSet(env, d, id)
      ensures Reached(env, d, owner, x)
    {
      var p :| Chain(env, d, id, p) && Lists(env, d, p[|p| - 1], x);
      ChainBelow(env, d, owner, id, p);
      var q := [owner] + p;
      assert q[|q| - 1] == p[|p| - 1];
    }
  }

  lemma NoRepeatBelow(owner: Id, p: seq<Id>)
    requires NoRepeat([owner] + p)
    ensures NoRepeat(p)
  {
    var q := [owner] + p;
    forall i, j | 0 <= i < j < |p|
      ensures p[i] != p[j]
    {
      assert q[i + 1] == p[i] && q[j + 1] == p[j];
    }
  }

  lemma SoundBelow(env: Env, d: Directory, owner: Id, id: Id)
    requires Lists(env, d, owner, id) && Cascades(env, id) && Sound(env, d, owner)
    ensures Sound(env, d, id)
  {
    forall p | Chain(env, d, id, p)
      ensures NoRepeat(p) && |Stuck(env, d, p[|p| - 1])| < PER_PAGE
    {
      SoundChainBelow(env, d, owner, id, p);
    }
  }

  lemma SoundChainBelow(env: Env, d: Directory, owner: Id, id: Id, p: seq<Id>)
    requires Lists(env, d, owner, id) && Cascades(env, id) && Sound(env, d, owner) && Chain(env, d, id, p)
    ensures NoRepeat(p) && |Stuck(env, d, p[|p| - 1])| < PER_PAGE
  {
    ChainBelow(env, d, owner, id, p);
    NoRepeatBelow(owner, p);
    assert ([owner] + p)[|p|] == p[|p| - 1];
  }

  lemma NotReachedAgain(env: Env, d: Directory, id: Id)
    requires Sound(env, d, id) && Cascades(env, id)
    ensures !Reached(env, d, id, id)
  {
    if p :| Chain(env, d, id, p) && Lists(env, d, p[|p| - 1], id) {
      var q := p + [id];
      forall i | 0 < i < |q|
        ensures Linked(env, d, q, i)
      {
        assert i < |p| ==> Linked(env, d, p, i);
      }
      assert q[0] == q[|q| - 1] && !NoRepeat(q);
      assert Chain(env, d, id, q);
    }
  }

  /** The bots that the given bots still own when they are disabled. */
  ghost function Below(env: Env, d: Directory, id: Id): set<Id> {
    if Cascades(env, id) then ReachedSet(env, d, id) else {}
  }

  /** Disabling one bot of a page is a smaller task than disabling the bots of its owner, also later in the run. */
  lemma BelowIsSmaller(env: Env, d: Directory, d': Directory, owner: Id, id: Id)
    requires Sound(env, d, owner) && Lists(env, d, owner, id) && Shrinks(env, d, d')
    ensures Below(env, d', id) < ReachedSet(env, d, owner)
    ensures Cascades(env, id) ==> Sound(env, d', id)
  {
    ReachedBelow(env, d, owner, id);
    if Cascades(env, id) {
      SoundBelow(env, d, owner, id);
      NotReachedAgain(env, d, id);
      ShrinkChains(env, d, d', id);
    }
  }

  /** A full page of bots that cannot be updated is the only way not to make progress. */
  lemma RoundProgress(env: Env, d: Directory, owner: Id, d': Directory, n: nat)
    requires |Stuck(env, d, owner)| < PER_PAGE == |Page0(d, owner)| && !env.listFails(owner)
    requires Each(env, d, Page0(d, owner), n) == Some(d')
    ensures Shrinks(env, d, d') && |Active(d', owner)| < |Active(d, owner)|
  {
    var ids, page := Active(d, owner), Page0(d, owner);
    PageMembers(d, owner);
    EachShrinks(env, d, page, n);
    assert page == ids[..PER_PAGE];
    FilterPrefix(ids, PER_PAGE, Faulty(env));
    FilterMembers(page, Faulty(env));
    var id :| id in page && !Faulty(env)(id);
    EachDisables(env, d, page, n, id);
    FilterTwice(d.order, ListedIn(d, owner), ListedIn(d', owner), ListedIn(d', owner));
    FilterMembers(ids, ListedIn(d', owner));
    assert id in ids && !ListedIn(d', owner)(id);
  }

  /** Once the loop has passed a bot without a fault, the bot is disabled. */
  lemma {:induction false} EachDisables(env: Env, d: Directory, ids: seq<Id>, n: nat, id: Id)
    requires (forall x :: x in ids ==> x in d.active) && Each(env, d, ids, n).Some?
    requires id in ids && id in d.bots && env.fault(id) == NoFault
    ensures id in Each(env, d, ids, n).value.bots && Each(env, d, ids, n).value.bots[id].deleteAt != 0
  {
    var k := |ids| - 1;
    var d1 := Each(env, d, ids[..k], n).value;
    EachShrinks(env, d, ids[..k], n);
    if ids[k] == id {
      UpdateInTrap(env, d1, id, {}, n);
      if env.cascade {
        DisableShrinks(env, d1.(active := d1.active[id := false]), id, n);
      }
    } else {
      assert ids == ids[..k] + [ids[k]];
      EachDisables(env, d, ids[..k], n, id);
      UpdateInTrap(env, d1, ids[k], {}, n);
    }
  }

  /** The first round and what is left of the loop after it. */
  lemma FirstRound(env: Env, d: Directory, owner: Id, k: nat, m: nat)
    requires !env.listFails(owner) && Each(env, d, Page0(d, owner), k).Some?
    ensures var d1 := Each(env, d, Page0(d, owner), k).value;
            && (|Page0(d, owner)| < PER_PAGE ==> Disable(env, d, owner, k + m + 1) == Some(d1))
            && (|Page0(d, owner)| == PER_PAGE && Disable(env, d1, owner, m).Some? ==>
                  Disable(env, d, owner, k + m + 1) == Disable(env, d1, owner, m))
  {
    var page := Page0(d, owner);
    EachMore(env, d, page, k, k + m);
    var d1 := Each(env, d, page, k).value;
    if |page| == PER_PAGE && Disable(env, d1, owner, m).Some? {
      DisableMore(env, d1, owner, m, k + m);
    }
  }

  lemma EachNext(env: Env, d: Directory, ids: seq<Id>, k: nat, n: nat, m: nat)
    requires k < |ids| && Each(env, d, ids[..k], n).Some?
    requires Update(env, Each(env, d, ids[..k], n).value, ids[k], false, m).Some?
    ensures Each(env, d, ids[..k + 1], n + m)
         == Some(Update(env, Each(env, d, ids[..k], n).value, ids[k], false, m).value.0)
  {
    assert ids[..k + 1][..k] == ids[..k];
    EachMore(env, d, ids[..k], n, n + m);
    UpdateMore(env, Each(env, d, ids[..k], n).value, ids[k], false, m, n + m);
  }

  lemma {:induction false} SoundEnds(env: Env, d: Directory, owner: Id) returns (n: nat)
    requires Sound(env, d, owner)
    ensures Disable(env, d, owner, n).Some?
    decreases ReachedSet(env, d, owner), 2, |Active(d, owner)|
  {
    n := 1;
    if !env.listFails(owner) {
      var page := Page0(d, owner);
      PageMembers(d, owner);
      var k := EachEnds(env, d, owner, page);
      var m := 0;
      if |page| == PER_PAGE {
        var d1 := Each(env, d, page, k).value;
        assert Chain(env, d, owner, [owner]);
        RoundProgress(env, d, owner, d1, k);
        ShrinkChains(env, d, d1, owner);
        m := SoundEnds(env, d1, owner);
      }
      FirstRound(env, d, owner, k, m);
      n := k + m + 1;
    }
  }

  lemma {:induction false} EachEnds(env: Env, d: Directory, owner: Id, ids: seq<Id>) returns (n: nat)
    requires Sound(env, d, owner) && forall id :: id in ids ==> Lists(env, d, owner, id)
    ensures Each(env, d, ids, n).Some?
    decreases ReachedSet(env, d, owner), 1, |ids|
  {
    n := 0;
    if ids != [] {
      var k := |ids| - 1;
      assert ids[k] in ids;
      n := EachEnds(env, d, owner, ids[..k]);
      EachShrinks(env, d, ids[..k], n);
      var d1 := Each(env, d, ids[..k], n).value;
      var m := UpdateEnds(env, d, owner, ids[k], d1);
      EachNext(env, d, ids, k, n, m);
      assert ids[..k + 1] == ids;
      n := n + m;
    }
  }

  lemma {:induction false} UpdateEnds(env: Env, d: Directory, owner: Id, id: Id, d': Directory) returns (n: nat)
    requires Sound(env, d, owner) && Lists(env, d, owner, id) && Shrinks(env, d, d')
    ensures Update(env, d', id, false, n).Some?
    decreases ReachedSet(env, d, owner), 0, 0
  {
    n := 0;
    if Cascades(env, id) {
      var d1 := d'.(active := d'.active[id := false]);
      BelowIsSmaller(env, d, d1, owner, id);
      n := SoundEnds(env, d1, id);
    }
    UpdateByDisable(env, d', id, n);
  }

  /** disableUserBots ends if and only if no bot it comes to is met again below itself and no owner it comes to has a
      full page of active bots that cannot be updated, however many bots there are. */
  lemma DrainsIff(env: Env, d: Directory, owner: Id)
    ensures (exists n: nat :: Disable(env, d, owner, n).Some?) <==> Sound(env, d, owner)
  {
    if Sound(env, d, owner) {
      var n := SoundEnds(env, d, owner);
    } else {
      forall n: nat
        ensures Disable(env, d, owner, n) == None
      {
        UnsoundNeverEnds(env, d, owner, n);
      }
    }
  }

  /** A bot of another owner can be listed only when the given user ID is empty, and then every active bot is. */
  lemma OtherOwnersSafeIff(owner: Id)
    ensures owner != "" <==> forall d: Directory, id :: Listed(d, owner, id) ==> d.bots[id].owner == owner
  {
    if owner == "" {
      var d := Directory(["b"], map["b" := Bot("o", 0)], map["b" := true]);
      assert Listed(d, owner, "b");
    }
  }
}
