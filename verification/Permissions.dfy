/**
 Resolving a permission on a channel (app/authorization.go): for a session or for a user ID, by channel ID or by post.
 Role names are lists here; store reads may fail.
 */
module Permissions {
  import opened Prelude

  type Id = string
  type Names = seq<string>

  datatype Role = Role(deleteAt: int, permissions: seq<string>)

  datatype TeamMember = TeamMember(teamId: Id, userId: Id, roles: Names, deleteAt: int)

  /** `channels` gives the team of a channel, "" for direct and group messages; `rolesFail`: roles cannot be read. */
  datatype Store = Store(roles: map<string, Role>, rolesFail: bool, users: map<Id, Names>, teamMembers: seq<TeamMember>,
                         channelMembers: map<(Id, Id), Names>, channels: map<Id, Id>, posts: map<Id, Id>)

  datatype Session = Session(userId: Id, roles: Names, teamMembers: seq<TeamMember>, local: bool)

  /** Reads that fail for another reason than a missing row. */
  datatype Faults = Faults(allMembers: bool, channel: bool, memberForPost: bool, channelForPost: bool)

  const NO_FAULTS := Faults(false, false, false, false)

  // ---------- Roles ----------

  /** The inner loop: is the permission listed? */
  predicate Lists(permissions: seq<string>, permission: string) {
    permissions != [] && (permissions[0] == permission || Lists(permissions[1..], permission))
  }

  /** The loop over the roles read; deleted roles are skipped, unknown names give none. */
  predicate AnyRoleGrants(st: Store, names: Names, permission: string) {
    names != [] && (
      (names[0] in st.roles && st.roles[names[0]].deleteAt == 0 && Lists(st.roles[names[0]].permissions, permission))
      || AnyRoleGrants(st, names[1..], permission))
  }

  predicate RolesGrantPermission(st: Store, names: Names, permission: string) {
    !st.rolesFail && AnyRoleGrants(st, names, permission)
  }

  lemma {:induction false} ListsIff(permissions: seq<string>, permission: string)
    ensures Lists(permissions, permission) <==> permission in permissions
  {
    if permissions != [] {
      ListsIff(permissions[1..], permission);
      assert permissions == [permissions[0]] + permissions[1..];
    }
  }

  ghost predicate GrantedBy(st: Store, name: string, permission: string) {
    name in st.roles && st.roles[name].deleteAt == 0 && permission in st.roles[name].permissions
  }

  lemma {:induction false} AnyRoleGrantsIff(st: Store, names: Names, permission: string)
    ensures AnyRoleGrants(st, names, permission) <==> exists name :: name in names && GrantedBy(st, name, permission)
  {
    if names != [] {
      AnyRoleGrantsIff(st, names[1..], permission);
      assert names == [names[0]] + names[1..];
      if names[0] in st.roles {
        ListsIff(st.roles[names[0]].permissions, permission);
      }
      assert names[0] in names;
    }
  }

  /** A permission is granted exactly when the roles can be read and one of the names is a live role that lists it; so
      neither order nor repetition of names matters. */
  lemma RolesGrantPermissionIff(st: Store, names: Names, permission: string)
    ensures RolesGrantPermission(st, names, permission) <==>
              !st.rolesFail && exists name :: name in names && GrantedBy(st, name, permission)
  {
    AnyRoleGrantsIff(st, names, permission);
  }

  // ---------- Session-based checks ----------

  predicate SessionHasPermissionTo(st: Store, s: Session, permission: string) {
    s.local || RolesGrantPermission(st, s.roles, permission)
  }

  function GetTeamByTeamId(members: seq<TeamMember>, teamId: Id): Option<TeamMember> {
    if members == [] then None
    else if members[0].teamId == teamId then Some(members[0])
    else GetTeamByTeamId(members[1..], teamId)
  }

  predicate SessionHasPermissionToTeam(st: Store, s: Session, teamId: Id, permission: string) {
    if teamId == "" then false
    else if s.local then true
    else
      var member := GetTeamByTeamId(s.teamMembers, teamId);
      (member.Some? && RolesGrantPermission(st, member.value.roles, permission))
      || RolesGrantPermission(st, s.roles, permission)
  }

  /** A membership row as the queries see it: they join it with its channel. */
  predicate ChannelRolesGrant(st: Store, channelId: Id, userId: Id, permission: string) {
    && channelId in st.channels && (channelId, userId) in st.channelMembers
    && RolesGrantPermission(st, st.channelMembers[(channelId, userId)], permission)
  }

  predicate SessionHasPermissionToChannel(st: Store, f: Faults, s: Session, channelId: Id, permission: string) {
    if channelId == "" then false
    else if !f.allMembers && ChannelRolesGrant(st, channelId, s.userId, permission) then true
    else if !f.channel && channelId !in st.channels then false
    else if s.local then true
    else if !f.channel && st.channels[channelId] != "" then
      SessionHasPermissionToTeam(st, s, st.channels[channelId], permission)
    else SessionHasPermissionTo(st, s, permission)
  }

  predicate SessionHasPermissionToChannelByPost(st: Store, f: Faults, s: Session, postId: Id, permission: string) {
    if !f.memberForPost && postId in st.posts && ChannelRolesGrant(st, st.posts[postId], s.userId, permission) then true
    else if !f.channelForPost && postId in st.posts && st.posts[postId] in st.channels
            && st.channels[st.posts[postId]] != "" then
      SessionHasPermissionToTeam(st, s, st.channels[st.posts[postId]], permission)
    else SessionHasPermissionTo(st, s, permission)
  }

  // ---------- User-based checks ----------

  predicate HasPermissionTo(st: Store, userId: Id, permission: string) {
    userId in st.users && RolesGrantPermission(st, st.users[userId], permission)
  }

  function GetTeamMember(members: seq<TeamMember>, teamId: Id, userId: Id): Option<TeamMember> {
    if members == [] then None
    else if members[0].teamId == teamId && members[0].userId == userId then Some(members[0])
    else GetTeamMember(members[1..], teamId, userId)
  }

  predicate HasPermissionToTeam(st: Store, userId: Id, teamId: Id, permission: string) {
    if teamId == "" || userId == "" then false
    else
      var member := GetTeamMember(st.teamMembers, teamId, userId);
      if member.Some? && member.value.deleteAt == 0 && RolesGrantPermission(st, member.value.roles, permission)
      then true
      else HasPermissionTo(st, userId, permission)
  }

  predicate HasPermissionToChannel(st: Store, userId: Id, channelId: Id, permission: string) {
    if channelId == "" || userId == "" then false
    else if ChannelRolesGrant(st, channelId, userId, permission) then true
    else if channelId in st.channels then HasPermissionToTeam(st, userId, st.channels[channelId], permission)
    else HasPermissionTo(st, userId, permission)
  }

  // ---------- Who may do what ----------

  /** The roles can be read, and a live one of them lists the permission. */
  ghost predicate NamesGrant(st: Store, names: Names, permission: string) {
    !st.rolesFail && exists name :: name in names && GrantedBy(st, name, permission)
  }

  /** The user is a member of an existing channel, in a role that lists the permission. */
  ghost predicate MemberGrants(st: Store, channelId: Id, userId: Id, permission: string) {
    && channelId in st.channels && (channelId, userId) in st.channelMembers
    && NamesGrant(st, st.channelMembers[(channelId, userId)], permission)
  }

  /** The first membership of that team in the session has a role that lists the permission. */
  ghost predicate SessionTeamGrants(st: Store, s: Session, teamId: Id, permission: string) {
    exists i :: 0 <= i < |s.teamMembers| && s.teamMembers[i].teamId == teamId
             && (forall j :: 0 <= j < i ==> s.teamMembers[j].teamId != teamId)
             && NamesGrant(st, s.teamMembers[i].roles, permission)
  }

  /** The first row of that user in that team is live and has a role that lists the permission. */
  ghost predicate UserTeamGrants(st: Store, userId: Id, teamId: Id, permission: string) {
    exists i :: 0 <= i < |st.teamMembers| && st.teamMembers[i].teamId == teamId && st.teamMembers[i].userId == userId
             && (forall j :: 0 <= j < i ==> st.teamMembers[j].teamId != teamId || st.teamMembers[j].userId != userId)
             && st.teamMembers[i].deleteAt == 0 && NamesGrant(st, st.teamMembers[i].roles, permission)
  }

  lemma {:induction false} FirstOfTeam(members: seq<TeamMember>, teamId: Id)
    ensures var m := GetTeamByTeamId(members, teamId);
            if m.None? then forall i :: 0 <= i < |members| ==> members[i].teamId != teamId
            else exists i :: 0 <= i < |members| && members[i] == m.value && members[i].teamId == teamId
                          && forall j :: 0 <= j < i ==> members[j].teamId != teamId
  {
    if members != [] && members[0].teamId != teamId {
      FirstOfTeam(members[1..], teamId);
      var m := GetTeamByTeamId(members[1..], teamId);
      if m.Some? {
        var i :| 0 <= i < |members[1..]| && members[1..][i] == m.value && members[1..][i].teamId == teamId
              && forall j :: 0 <= j < i ==> members[1..][j].teamId != teamId;
        assert members[i + 1] == m.value;
        assert forall j :: 0 < j < i + 1 ==> members[j] == members[1..][j - 1];
      }
    }
  }

  lemma {:induction false} FirstOfUser(members: seq<TeamMember>, teamId: Id, userId: Id)
    ensures var m := GetTeamMember(members, teamId, userId);
            if m.None? then
              forall i :: 0 <= i < |members| ==> members[i].teamId != teamId || members[i].userId != userId
            else exists i :: 0 <= i < |members| && members[i] == m.value
                          && members[i].teamId == teamId && members[i].userId == userId
                          && forall j :: 0 <= j < i ==> members[j].teamId != teamId || members[j].userId != userId
  {
    if members != [] && (members[0].teamId != teamId || members[0].userId != userId) {
      FirstOfUser(members[1..], teamId, userId);
      var m := GetTeamMember(members[1..], teamId, userId);
      if m.Some? {
        var i :| 0 <= i < |members[1..]| && members[1..][i] == m.value
              && members[1..][i].teamId == teamId && members[1..][i].userId == userId
              && forall j :: 0 <= j < i ==> members[1..][j].teamId != teamId || members[1..][j].userId != userId;
        assert members[i + 1] == m.value;
        assert forall j :: 0 < j < i + 1 ==> members[j] == members[1..][j - 1];
      }
    }
  }

  lemma RolesGrantNames(st: Store)
    ensures forall names, permission ::
              RolesGrantPermission(st, names, permission) <==> NamesGrant(st, names, permission)
  {
    forall names, permission
      ensures RolesGrantPermission(st, names, permission) <==> NamesGrant(st, names, permission)
    {
      RolesGrantPermissionIff(st, names, permission);
    }
  }

  lemma SessionTeamIff(st: Store, s: Session, teamId: Id, permission: string)
    ensures SessionHasPermissionToTeam(st, s, teamId, permission) <==>
              && teamId != ""
              && (s.local || SessionTeamGrants(st, s, teamId, permission) || NamesGrant(st, s.roles, permission))
  {
    RolesGrantNames(st);
    FirstOfTeam(s.teamMembers, teamId);
  }

  /** A session may do something in a channel exactly when a live role lists it that is among its user's roles in the
      channel, its roles in the channel's team, or its system roles, or the session is local; the channel has to exist,
      or its absence to be unreadable, in which case only the system roles count. */
  lemma SessionChannelIff(st: Store, f: Faults, s: Session, channelId: Id, permission: string)
    ensures SessionHasPermissionToChannel(st, f, s, channelId, permission) <==>
              && channelId != ""
              && (|| (!f.allMembers && MemberGrants(st, channelId, s.userId, permission))
                  || ((channelId in st.channels || f.channel) && (s.local || NamesGrant(st, s.roles, permission)))
                  || (channelId in st.channels && !f.channel && st.channels[channelId] != ""
                      && SessionTeamGrants(st, s, st.channels[channelId], permission)))
  {
    RolesGrantNames(st);
    if channelId in st.channels {
      SessionTeamIff(st, s, st.channels[channelId], permission);
    }
  }

  /** The same for the channel of a post, except that the system roles always count. */
  lemma SessionPostIff(st: Store, f: Faults, s: Session, postId: Id, permission: string)
    ensures SessionHasPermissionToChannelByPost(st, f, s, postId, permission) <==>
              || s.local || NamesGrant(st, s.roles, permission)
              || (postId in st.posts
                  && (|| (!f.memberForPost && MemberGrants(st, st.posts[postId], s.userId, permission))
                      || (!f.channelForPost && st.posts[postId] in st.channels && st.channels[st.posts[postId]] != ""
                          && SessionTeamGrants(st, s, st.channels[st.posts[postId]], permission))))
  {
    RolesGrantNames(st);
    if postId in st.posts && st.posts[postId] in st.channels {
      SessionTeamIff(st, s, st.channels[st.posts[postId]], permission);
    }
  }

  lemma UserTeamIff(st: Store, userId: Id, teamId: Id, permission: string)
    ensures HasPermissionToTeam(st, userId, teamId, permission) <==>
              && teamId != "" && userId != ""
              && (|| UserTeamGrants(st, userId, teamId, permission)
                  || (userId in st.users && NamesGrant(st, st.users[userId], permission)))
  {
    RolesGrantNames(st);
    FirstOfUser(st.teamMembers, teamId, userId);
  }

  /** A user may do something in a channel exactly when a live role lists it that is among the user's roles in the
      channel, in a live membership of the channel's team, or, for a channel that is in a team or does not exist, among
      the user's system roles. */
  lemma UserChannelIff(st: Store, userId: Id, channelId: Id, permission: string)
    ensures HasPermissionToChannel(st, userId, channelId, permission) <==>
              && channelId != "" && userId != ""
              && (|| MemberGrants(st, channelId, userId, permission)
                  || (channelId in st.channels && st.channels[channelId] != ""
                      && UserTeamGrants(st, userId, st.channels[channelId], permission))
                  || ((channelId !in st.channels || st.channels[channelId] != "")
                      && userId in st.users && NamesGrant(st, st.users[userId], permission)))
  {
    RolesGrantNames(st);
    if channelId in st.channels {
      UserTeamIff(st, userId, st.channels[channelId], permission);
    }
  }

  // ---------- Agreement ----------

  /** On error-free reads the check by post equals the check of the post's channel, except that a post whose channel is
      gone still grants what the system roles grant. */
  lemma ByPostAgreesIff(st: Store, s: Session, postId: Id, permission: string)
    requires postId in st.posts && st.posts[postId] != ""
    ensures (SessionHasPermissionToChannelByPost(st, NO_FAULTS, s, postId, permission) ==
             SessionHasPermissionToChannel(st, NO_FAULTS, s, st.posts[postId], permission))
            <==> st.posts[postId] in st.channels || !SessionHasPermissionTo(st, s, permission)
  {
  }

  /** The session that the session store builds for a user: its live team memberships, in the order of the rows. */
  function LiveMembers(members: seq<TeamMember>, userId: Id): seq<TeamMember> {
    if members == [] then []
    else
      (if members[0].userId == userId && members[0].deleteAt == 0 then [members[0]] else [])
      + LiveMembers(members[1..], userId)
  }

  function LoadSession(st: Store, userId: Id): Session
    requires userId in st.users
  {
    Session(userId, st.users[userId], LiveMembers(st.teamMembers, userId), false)
  }

  /** A user is a member of a team in one row. */
  ghost predicate UniqueMembers(members: seq<TeamMember>) {
    forall i, j :: 0 <= i < j < |members| ==>
                     members[i].teamId != members[j].teamId || members[i].userId != members[j].userId
  }

  lemma {:induction false} LiveMemberIsTheRow(members: seq<TeamMember>, teamId: Id, userId: Id)
    requires UniqueMembers(members)
    ensures GetTeamByTeamId(LiveMembers(members, userId), teamId) ==
              var m := GetTeamMember(members, teamId, userId);
              if m.Some? && m.value.deleteAt == 0 then m else None
  {
    if members != [] {
      var rest := LiveMembers(members[1..], userId);
      LiveMemberIsTheRow(members[1..], teamId, userId);
      assert ([members[0]] + rest)[1..] == rest && [] + rest == rest;
      if members[0].teamId == teamId && members[0].userId == userId {
        NoOtherRow(members[1..], teamId, userId);
      }
    }
  }

  lemma {:induction false} NoOtherRow(members: seq<TeamMember>, teamId: Id, userId: Id)
    requires forall i :: 0 <= i < |members| ==> members[i].teamId != teamId || members[i].userId != userId
    ensures GetTeamMember(members, teamId, userId) == None
  {
    if members != [] {
      NoOtherRow(members[1..], teamId, userId);
    }
  }

  /** For a team, the check of a user and of the session loaded for that user are the same. */
  lemma TeamChecksAgree(st: Store, userId: Id, teamId: Id, permission: string)
    requires UniqueMembers(st.teamMembers) && userId in st.users && userId != ""
    ensures HasPermissionToTeam(st, userId, teamId, permission) ==
            SessionHasPermissionToTeam(st, LoadSession(st, userId), teamId, permission)
  {
    LiveMemberIsTheRow(st.teamMembers, teamId, userId);
  }

  /** For a channel that exists, what the user-based check grants the session-based one grants too; over all channel
      IDs the two are the same exactly when the channel is in a team, its membership decides, or the system roles do
      not grant the permission. (Outside a team only the session falls back on the system roles; for a channel that
      does not exist only the user does.) */
  lemma ChannelChecksAgreeIff(st: Store, userId: Id, channelId: Id, permission: string)
    requires UniqueMembers(st.teamMembers) && userId in st.users && userId != ""
    ensures var byUser, session := HasPermissionToChannel(st, userId, channelId, permission), LoadSession(st, userId);
            var bySession := SessionHasPermissionToChannel(st, NO_FAULTS, session, channelId, permission);
            && (channelId in st.channels && byUser ==> bySession)
            && (byUser == bySession <==>
                  || channelId == ""
                  || (channelId in st.channels && st.channels[channelId] != "")
                  || ChannelRolesGrant(st, channelId, userId, permission)
                  || !HasPermissionTo(st, userId, permission))
  {
    if channelId in st.channels {
      TeamChecksAgree(st, userId, st.channels[channelId], permission);
    }
  }

  /** A failing read never widens what a session may do in a channel that exists; it does so exactly when the channel
      does not exist, its absence could not be read, and the system roles (or a local session) grant. */
  lemma FaultsWidenIff(st: Store, f: Faults, s: Session, channelId: Id, permission: string)
    ensures (SessionHasPermissionToChannel(st, f, s, channelId, permission) &&
             !SessionHasPermissionToChannel(st, NO_FAULTS, s, channelId, permission))
            <==> channelId != "" && channelId !in st.channels && f.channel && SessionHasPermissionTo(st, s, permission)
  {
  }
}
