/**
 Creating, converting and deleting bots (app/bot.go): every bot is a user row plus a bot row, kept in two stores
 without a transaction. Each operation takes the outcome of every store call it may make.
 */
module BotStores {
  import opened Prelude
  import opened BotRows

  datatype User = User(username: string)

  datatype Stores = Stores(users: map<Id, User>, bots: map<Id, Bot>)

  datatype BotDef = BotDef(username: string, owner: Id, valid: bool)

  /** Crashed: the handler dereferences a nil pointer. */
  datatype Answer = Saved(id: Id) | Failed | Crashed

  /** Which store calls fail; a failed call leaves its store as it was. */
  datatype Faults = Faults(userGet: bool, userSave: bool, botGet: bool, botSave: bool, userDelete: bool,
                           botDelete: bool, notify: bool)

  predicate IsUserNamed(s: Stores, id: Id, name: string) {
    id in s.users && s.users[id].username == name
  }

  predicate NameTaken(s: Stores, name: string) {
    exists id :: id in s.users && IsUserNamed(s, id, name)
  }

  predicate UserSaveOk(s: Stores, def: BotDef, newId: Id, f: Faults) {
    !f.userSave && newId !in s.users && !NameTaken(s, def.username)
  }

  predicate BotSaveOk(s: Stores, id: Id, f: Faults) {
    !f.botSave && id !in s.bots
  }

  function WithUser(s: Stores, def: BotDef, id: Id): Stores { s.(users := s.users[id := User(def.username)]) }

  function WithBot(s: Stores, owner: Id, id: Id): Stores { s.(bots := s.bots[id := Bot(owner, 0)]) }

  function Created(s: Stores, def: BotDef, newId: Id, f: Faults): (Stores, Answer) {
    if !def.valid || !UserSaveOk(s, def, newId, f) then (s, Failed)
    else
      var s1 := WithUser(s, def, newId);
      if !BotSaveOk(s1, newId, f) then
        (if f.userDelete then s1 else s1.(users := s1.users - {newId}), Failed)
      else (WithBot(s1, def.owner, newId), if f.notify then Failed else Saved(newId))
  }

  /** Usernames are unique. */
  ghost predicate UniqueNames(s: Stores) {
    forall a, b :: a in s.users && b in s.users && s.users[a].username == s.users[b].username ==> a == b
  }

  /** `found` is the user of that name, if there is one. */
  function GotOrCreated(s: Stores, def: BotDef, found: Option<Id>, newId: Id, f: Faults): (Stores, Answer) {
    if f.userGet then (s, Failed)
    else
      match found
      case Some(id) =>
        (s, if !f.botGet && id in s.bots && s.bots[id].deleteAt == 0 then Saved(id) else Failed)
      case None =>
        if !UserSaveOk(s, def, newId, f) then (s, Failed)
        else
          var s1 := WithUser(s, def, newId);
          // the failed save returned a nil bot, whose UserId the compensating delete reads
          if !BotSaveOk(s1, newId, f) then (s1, Crashed) else (WithBot(s1, def.owner, newId), Saved(newId))
  }

  ghost predicate Lookup(s: Stores, name: string, found: Option<Id>) {
    if found.Some? then IsUserNamed(s, found.value, name) else !NameTaken(s, name)
  }

  /** ConvertUserToBot trusts its caller to have read the user. */
  function Converted(s: Stores, id: Id, f: Faults): (Stores, Answer) {
    if BotSaveOk(s, id, f) then (WithBot(s, id, id), Saved(id)) else (s, Failed)
  }

  function PermanentlyDeleted(s: Stores, id: Id, f: Faults): (Stores, bool) {
    if f.botDelete then (s, false)
    else
      var s1 := s.(bots := s.bots - {id});
      if f.userDelete then (s1, false) else (s1.(users := s1.users - {id}), true)
  }

  // ---------- Runs ----------

  datatype Op =
    | Create(def: BotDef, newId: Id)
    | GetOrCreate(def: BotDef, newId: Id)
    | Convert(id: Id)
    | PermanentDelete(id: Id)

  ghost predicate Next(s: Stores, op: Op, f: Faults, s': Stores) {
    match op
    case Create(def, newId) => s' == Created(s, def, newId, f).0
    case GetOrCreate(def, newId) =>
      exists found :: Lookup(s, def.username, found) && s' == GotOrCreated(s, def, found, newId, f).0
    case Convert(id) => // the API reads the user first
      s' == if f.userGet || id !in s.users then s else Converted(s, id, f).0
    case PermanentDelete(id) => s' == PermanentlyDeleted(s, id, f).0
  }

  ghost predicate Run(ss: seq<Stores>, ops: seq<Op>, fs: seq<Faults>) {
    && |ss| == |ops| + 1 && |fs| == |ops|
    && forall k :: 0 <= k < |ops| ==> Next(ss[k], ops[k], fs[k], ss[k + 1])
  }

  ghost predicate Integrity(s: Stores) { s.bots.Keys <= s.users.Keys && UniqueNames(s) }

  lemma NextKeepsIntegrity(s: Stores, op: Op, f: Faults, s': Stores)
    requires Integrity(s) && Next(s, op, f, s')
    ensures Integrity(s')
  {
  }

  /** Through any sequence of operations, with any store call failing, every bot row has its user row. */
  lemma {:induction false} EveryBotHasItsUser(ss: seq<Stores>, ops: seq<Op>, fs: seq<Faults>, k: nat)
    requires Run(ss, ops, fs) && Integrity(ss[0]) && k < |ss|
    ensures Integrity(ss[k])
  {
    if k > 0 {
      EveryBotHasItsUser(ss, ops, fs, k - 1);
      NextKeepsIntegrity(ss[k - 1], ops[k - 1], fs[k - 1], ss[k]);
    }
  }

  /** CreateBot never touches a row that was there before, so its compensating delete can only remove the user it just
      saved, which has no bot; it leaves a user without a bot behind exactly when saving the bot and that delete
      fail. */
  lemma CreateBotIsCompensated(s: Stores, def: BotDef, newId: Id, f: Faults)
    requires Integrity(s)
    ensures var s' := Created(s, def, newId, f).0;
            && (s'.users == s.users || (newId !in s.users && s'.users == s.users[newId := User(def.username)]))
            && (s'.bots == s.bots || (newId !in s.bots && s'.bots == s.bots[newId := Bot(def.owner, 0)]))
            && (newId in s'.bots && newId !in s.bots ==> newId in s'.users)
            && (s'.users != s.users && s'.bots == s.bots <==>
                  def.valid && UserSaveOk(s, def, newId, f) && f.botSave && f.userDelete)
  {
    if UserSaveOk(s, def, newId, f) {
      assert WithUser(s, def, newId).users - {newId} == s.users;
      assert newId in WithUser(s, def, newId).users && newId in WithBot(s, def.owner, newId).bots;
    }
  }

  /** GetOrCreateBot crashes exactly when it saved a new user and then failed to save the bot; the user stays, so from
      then on the same bot can be neither got nor created. */
  lemma GetOrCreateCrash(s: Stores, def: BotDef, found: Option<Id>, newId: Id, f: Faults, again: Id, g: Faults)
    requires Integrity(s) && Lookup(s, def.username, found)
    ensures var (s', a) := GotOrCreated(s, def, found, newId, f);
            && (a.Crashed? <==> !f.userGet && !NameTaken(s, def.username) && UserSaveOk(s, def, newId, f) && f.botSave)
            && (a.Crashed? ==>
                  && IsUserNamed(s', newId, def.username) && newId !in s'.bots
                  && forall found' :: Lookup(s', def.username, found') ==>
                       found' == Some(newId) && GotOrCreated(s', def, found', again, g) == (s', Failed)
                       && Created(s', def, again, g) == (s', Failed))
  {
    var (s', a) := GotOrCreated(s, def, found, newId, f);
    NextKeepsIntegrity(s, GetOrCreate(def, newId), f, s');
    assert a.Crashed? ==> IsUserNamed(s', newId, def.username);
  }

  /** Whichever of the two operations answers with an ID, it is that of a live bot of the name, and asking again without
      failures gives the same bot and changes nothing. */
  lemma SavedIsTheBot(s: Stores, def: BotDef, found: Option<Id>, newId: Id, f: Faults, s': Stores, id: Id, again: Id,
                      g: Faults)
    requires Integrity(s) && Lookup(s, def.username, found)
    requires (s', Saved(id)) in {Created(s, def, newId, f), GotOrCreated(s, def, found, newId, f)}
    requires !g.userGet && !g.botGet
    ensures IsUserNamed(s', id, def.username) && id in s'.bots && s'.bots[id].deleteAt == 0
    ensures Lookup(s', def.username, Some(id)) && GotOrCreated(s', def, Some(id), again, g) == (s', Saved(id))
  {
  }

  /** Creating a bot succeeds exactly when the definition is valid, neither ID nor name is taken and no store call on
      its way fails; the bot is stored even if only the notice to its owner fails. It never crashes. */
  lemma CreateBotIff(s: Stores, def: BotDef, newId: Id, f: Faults)
    ensures var (s', a) := Created(s, def, newId, f);
            var stores := && def.valid && newId !in s.users && newId !in s.bots && !f.userSave && !f.botSave
                          && forall id :: id in s.users ==> s.users[id].username != def.username;
            && a == (if stores && !f.notify then Saved(newId) else Failed)
            && (stores ==> s'.users == s.users[newId := User(def.username)]
                           && s'.bots == s.bots[newId := Bot(def.owner, 0)])
            && (!stores ==> s'.bots == s.bots)
  {
    assert NameTaken(s, def.username) <==> exists id :: id in s.users && IsUserNamed(s, id, def.username);
  }

  /** Getting or creating a bot changes nothing if the name is taken, and then succeeds exactly when the bot of that
      user is there, live and readable; otherwise it succeeds exactly when user and bot can be saved. */
  lemma GetOrCreateIff(s: Stores, def: BotDef, found: Option<Id>, newId: Id, f: Faults)
    requires Lookup(s, def.username, found)
    ensures var (s', a) := GotOrCreated(s, def, found, newId, f);
            match found
            case Some(id) =>
              && s' == s
              && a == if !f.userGet && !f.botGet && id in s.bots && s.bots[id].deleteAt == 0 then Saved(id) else Failed
            case None =>
              && (a.Saved? <==> && !f.userGet && !f.userSave && !f.botSave && newId !in s.users && newId !in s.bots)
              && (a.Saved? ==> && a.id == newId && s'.users == s.users[newId := User(def.username)]
                               && s'.bots == s.bots[newId := Bot(def.owner, 0)])
              && (!a.Saved? ==> s'.bots == s.bots)
  {
  }

  /** Converting succeeds exactly when the bot can be saved: a live bot that owns itself. */
  lemma ConvertIff(s: Stores, id: Id, f: Faults)
    ensures var (s', a) := Converted(s, id, f);
            && s'.users == s.users && a == (if !f.botSave && id !in s.bots then Saved(id) else Failed)
            && s'.bots == if a.Saved? then s.bots[id := Bot(id, 0)] else s.bots
  {
  }

  /** A permanent delete removes the bot's row unless that fails, and then the user's row unless that fails; it succeeds
      exactly when neither fails, and keeps every other row. */
  lemma DeleteIff(s: Stores, id: Id, f: Faults)
    ensures var (s', ok) := PermanentlyDeleted(s, id, f);
            && (ok <==> !f.botDelete && !f.userDelete)
            && (id in s'.bots <==> id in s.bots && f.botDelete)
            && (id in s'.users <==> id in s.users && (f.botDelete || f.userDelete))
            && (forall x :: x in s'.bots ==> x in s.bots && s'.bots[x] == s.bots[x])
            && (forall x :: x in s'.users ==> x in s.users && s'.users[x] == s.users[x])
            && (forall x :: x != id ==> (x in s'.bots <==> x in s.bots) && (x in s'.users <==> x in s.users))
  {
  }

  /** A permanent delete that broke off is completed by repeating it. */
  lemma DeleteCanBeRepeated(s: Stores, id: Id, f: Faults, g: Faults)
    requires !g.botDelete && !g.userDelete
    ensures PermanentlyDeleted(PermanentlyDeleted(s, id, f).0, id, g) == PermanentlyDeleted(s, id, g)
    ensures var (s', ok) := PermanentlyDeleted(s, id, f); ok ==> id !in s'.users && id !in s'.bots
    ensures var (s', _) := PermanentlyDeleted(s, id, f);
            forall x :: x != id ==> (x in s'.users <==> x in s.users) && (x in s'.bots <==> x in s.bots)
  {
    var s1 := PermanentlyDeleted(s, id, f).0;
    assert s1.bots - {id} == s.bots - {id} && s1.users - {id} == s.users - {id};
  }

  /** ConvertUserToBot on its own keeps the integrity exactly when its user row exists or the save fails. */
  lemma ConvertNeedsUser(s: Stores, id: Id, f: Faults)
    requires Integrity(s)
    ensures Integrity(Converted(s, id, f).0) <==> id in s.users || !BotSaveOk(s, id, f)
  {
    assert id in WithBot(s, id, id).bots;
  }

  // ---------- The source's object ----------

  class App {
    var users: map<Id, User>
    var bots: map<Id, Bot>

    ghost function State(): Stores
      reads this
    {
      Stores(users, bots)
    }

    method SaveUser(def: BotDef, newId: Id, f: Faults) returns (ok: bool)
      modifies this`users
      ensures ok == UserSaveOk(old(State()), def, newId, f)
      ensures State() == if ok then WithUser(old(State()), def, newId) else old(State())
    {
      ok := !f.userSave && newId !in users && !NameTaken(Stores(users, bots), def.username);
      if ok {
        users := users[newId := User(def.username)];
      }
    }

    method SaveBot(owner: Id, id: Id, f: Faults) returns (ok: bool)
      modifies this`bots
      ensures ok == BotSaveOk(old(State()), id, f)
      ensures State() == if ok then WithBot(old(State()), owner, id) else old(State())
    {
      ok := !f.botSave && id !in bots;
      if ok {
        bots := bots[id := Bot(owner, 0)];
      }
    }

    method CreateBot(def: BotDef, newId: Id, f: Faults) returns (a: Answer)
      modifies this
      ensures (State(), a) == Created(old(State()), def, newId, f)
    {
      if !def.valid {
        return Failed;
      }
      var saved := SaveUser(def, newId, f);
      if !saved {
        return Failed;
      }
      saved := SaveBot(def.owner, newId, f);
      if !saved {
        if !f.userDelete {
          users := users - {newId};
        }
        return Failed;
      }
      a := if f.notify then Failed else Saved(newId);
    }

    method GetOrCreateBot(def: BotDef, newId: Id, f: Faults) returns (a: Answer)
      modifies this
      ensures exists found :: Lookup(old(State()), def.username, found)
                           && (State(), a) == GotOrCreated(old(State()), def, found, newId, f)
    {
      ghost var before := State();
      if f.userGet {
        ghost var found := if NameTaken(before, def.username)
                           then var id :| IsUserNamed(before, id, def.username); Some(id) else None;
        assert Lookup(before, def.username, found);
        return Failed;
      }
      var ids := set id | id in users && users[id].username == def.username;
      if ids != {} {
        var id :| id in ids;
        assert Lookup(before, def.username, Some(id));
        return if !f.botGet && id in bots && bots[id].deleteAt == 0 then Saved(id) else Failed;
      }
      assert Lookup(before, def.username, None) by {
        forall id | id in users
          ensures !IsUserNamed(before, id, def.username)
        {
          assert id !in ids;
        }
      }
      var saved := SaveUser(def, newId, f);
      if !saved {
        return Failed;
      }
      saved := SaveBot(def.owner, newId, f);
      a := if saved then Saved(newId) else Crashed;
    }

    method ConvertUserToBot(id: Id, f: Faults) returns (a: Answer)
      modifies this
      ensures (State(), a) == Converted(old(State()), id, f)
    {
      var saved := SaveBot(id, id, f);
      a := if saved then Saved(id) else Failed;
    }

    method PermanentDeleteBot(id: Id, f: Faults) returns (ok: bool)
      modifies this
      ensures (State(), ok) == PermanentlyDeleted(old(State()), id, f)
    {
      if f.botDelete {
        return false;
      }
      bots := bots - {id};
      if f.userDelete {
        return false;
      }
      users := users - {id};
      ok := true;
    }
  }
}
