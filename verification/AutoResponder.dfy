/**
 Automatic replies to direct messages (app/auto_responder.go): at most one a day for each receiver and channel. The day
 is reckoned from the date of the triggering post in the server's time zone.
 */
module AutoResponder {

  /** Milliseconds since the Unix epoch. */
  type Millis = int

  const DAY: int := 86_400_000

  /** The number of the UTC day of an instant. */
  function UtcDay(t: Millis): int { t / DAY }

  /** The number of the calendar day that the server's clock shows at an instant. */
  type Zone = Millis -> int

  datatype Post = Post(id: string, rootId: string, channelId: string, userId: string, autoReply: bool, createAt: Millis,
                       updateAt: Millis)

  /** A direct channel of users `a` and `b`, who may be the same. */
  datatype Channel = Channel(id: string, direct: bool, a: string, b: string)

  datatype User = User(id: string, isBot: bool, autoResponderActive: bool, autoResponderMessage: string)

  function GetOtherUserIdForDM(ch: Channel, userId: string): string {
    if !ch.direct || ch.a == ch.b then "" else if ch.a == userId then ch.b else ch.a
  }

  function ReceiverId(ch: Channel, sender: User): string {
    var other := GetOtherUserIdForDM(ch, sender.id);
    if other == "" then sender.id else other
  }

  predicate IsReply(p: Post, channelId: string, userId: string) {
    p.autoReply && p.channelId == channelId && p.userId == userId
  }

  predicate HasAutoResponsePostByUserSince(posts: seq<Post>, channelId: string, userId: string, since: Millis) {
    exists i :: 0 <= i < |posts| && IsReply(posts[i], channelId, userId) && posts[i].updateAt >= since
  }

  /** Midnight UTC of the server's calendar day. */
  function Since(zone: Zone, createAt: Millis): Millis { zone(createAt) * DAY }

  predicate RespondedToday(zone: Zone, posts: seq<Post>, createAt: Millis, channelId: string, userId: string) {
    HasAutoResponsePostByUserSince(posts, channelId, userId, Since(zone, createAt))
  }

  function Reply(ch: Channel, receiver: User, trigger: Post, newId: string, now: Millis): Post {
    Post(newId, if trigger.rootId != "" then trigger.rootId else trigger.id, ch.id, receiver.id, true, now, now)
  }

  /** What the handler appends: a reply created at `now` under the ID `newId`, or nothing. */
  function Appended(zone: Zone, posts: seq<Post>, ch: Channel, sender: User, receiver: User, trigger: Post,
                    newId: string, now: Millis): seq<Post> {
    if ch.direct && !sender.isBot && !RespondedToday(zone, posts, trigger.createAt, trigger.channelId, receiver.id)
       && receiver.autoResponderActive && receiver.autoResponderMessage != ""
    then [Reply(ch, receiver, trigger, newId, now)] else []
  }

  // ---------- Runs ----------

  datatype Event =
    | Trigger(ch: Channel, sender: User, receiver: User, post: Post, newId: string, now: Millis, ok: bool)
    | OtherPost(post: Post)
    | Touch(i: nat, at: Millis) // a post is edited or deleted: the row stays, its update time moves on

  ghost predicate Permitted(posts: seq<Post>, e: Event) {
    match e
    case Trigger(ch, sender, receiver, post, _, now, _) =>
      receiver.id == ReceiverId(ch, sender) && post.channelId == ch.id && !post.autoReply && post.createAt <= now
    case OtherPost(post) => !post.autoReply
    case Touch(i, at) => i < |posts| && posts[i].updateAt <= at
  }

  /** `ok`: the reads and the creation of the reply do not fail. */
  function Perform(zone: Zone, posts: seq<Post>, e: Event): seq<Post> {
    match e
    case Trigger(ch, sender, receiver, post, newId, now, ok) =>
      posts + if ok then Appended(zone, posts, ch, sender, receiver, post, newId, now) else []
    case OtherPost(post) => posts + [post]
    case Touch(i, at) => if i < |posts| then posts[i := posts[i].(updateAt := at)] else posts
  }

  ghost predicate Run(zone: Zone, stores: seq<seq<Post>>, events: seq<Event>) {
    && |stores| == |events| + 1 && stores[0] == []
    && forall k :: 0 <= k < |events| ==>
         Permitted(stores[k], events[k]) && stores[k + 1] == Perform(zone, stores[k], events[k])
  }

  /** No channel holds two automatic replies of one receiver created on the same UTC day. */
  ghost predicate OncePerDay(posts: seq<Post>) {
    forall i, j ::
      0 <= i < j < |posts| && posts[i].autoReply && IsReply(posts[j], posts[i].channelId, posts[i].userId) ==>
                     UtcDay(posts[i].createAt) != UtcDay(posts[j].createAt)
  }

  ghost predicate Dated(posts: seq<Post>) {
    forall i :: 0 <= i < |posts| && posts[i].autoReply ==> posts[i].createAt <= posts[i].updateAt
  }

  /** The server's calendar is never ahead of UTC. A server that runs in UTC is the case `zone == UtcDay`. */
  ghost predicate NeverAhead(zone: Zone) { forall t: Millis :: zone(t) <= UtcDay(t) }

  /** A reply of that receiver on the UTC day of `now` is seen by the check, even if the trigger is of the day
      before. */
  lemma ReplySeen(zone: Zone, posts: seq<Post>, i: nat, createAt: Millis, now: Millis)
    requires NeverAhead(zone) && Dated(posts) && i < |posts| && posts[i].autoReply && createAt <= now
    requires UtcDay(posts[i].createAt) == UtcDay(now)
    ensures RespondedToday(zone, posts, createAt, posts[i].channelId, posts[i].userId)
  {
    assert zone(createAt) <= UtcDay(createAt) <= UtcDay(now);
    assert Since(zone, createAt) <= UtcDay(posts[i].createAt) * DAY <= posts[i].createAt <= posts[i].updateAt;
    assert IsReply(posts[i], posts[i].channelId, posts[i].userId);
  }

  lemma PerformKeepsOncePerDay(zone: Zone, posts: seq<Post>, e: Event)
    requires NeverAhead(zone) && OncePerDay(posts) && Dated(posts) && Permitted(posts, e)
    ensures OncePerDay(Perform(zone, posts, e)) && Dated(Perform(zone, posts, e))
  {
    var posts' := Perform(zone, posts, e);
    if e.Trigger? && |posts'| > |posts| {
      forall i | 0 <= i < |posts| && posts[i].autoReply && IsReply(posts'[|posts|], posts[i].channelId, posts[i].userId)
        ensures UtcDay(posts[i].createAt) != UtcDay(e.now)
      {
        if UtcDay(posts[i].createAt) == UtcDay(e.now) {
          ReplySeen(zone, posts, i, e.post.createAt, e.now);
        }
      }
    }
  }

  lemma {:induction false} RunKeepsOncePerDay(zone: Zone, stores: seq<seq<Post>>, events: seq<Event>, k: nat)
    requires NeverAhead(zone) && Run(zone, stores, events) && k < |stores|
    ensures OncePerDay(stores[k]) && Dated(stores[k])
  {
    if k > 0 {
      RunKeepsOncePerDay(zone, stores, events, k - 1);
      PerformKeepsOncePerDay(zone, stores[k - 1], events[k - 1]);
    }
  }

  /** Two messages and their replies at an instant `t` at which the server's calendar is ahead of UTC. */
  lemma TwiceWhenAhead(zone: Zone, t: Millis) returns (stores: seq<seq<Post>>, events: seq<Event>)
    requires zone(t) > UtcDay(t)
    ensures Run(zone, stores, events) && !OncePerDay(stores[|events|])
  {
    var ch, sender := Channel("dm", true, "u", "v"), User("u", false, false, "");
    var receiver := User("v", false, true, "away");
    var post := Post("p", "", "dm", "u", false, t, t);
    var first, second := Reply(ch, receiver, post, "r", t), Reply(ch, receiver, post, "s", t);
    events := [Trigger(ch, sender, receiver, post, "r", t, true), Trigger(ch, sender, receiver, post, "s", t, true)];
    stores := [[], [first], [first, second]];
    assert Since(zone, t) > t;
    assert Perform(zone, [], events[0]) == [first];
    assert Perform(zone, [first], events[1]) == [first, second];
    var last := stores[2];
    assert last[0].autoReply && IsReply(last[1], last[0].channelId, last[0].userId);
  }

  /** At most one automatic reply a UTC day in every sequential run in which no reply precedes its trigger: this holds
      if and only if the server's calendar is never ahead of UTC. */
  lemma OncePerDayIff(zone: Zone)
    ensures (forall stores, events :: Run(zone, stores, events) ==> OncePerDay(stores[|events|])) <==> NeverAhead(zone)
  {
    if NeverAhead(zone) {
      forall stores, events | Run(zone, stores, events)
        ensures OncePerDay(stores[|events|])
      {
        RunKeepsOncePerDay(zone, stores, events, |events|);
      }
    } else {
      var t: Millis :| zone(t) > UtcDay(t);
      var stores, events := TwiceWhenAhead(zone, t);
    }
  }

  /** A reply is appended exactly when the channel is direct, the sender is no bot, the receiver's responder is active
      and has a message, and the receiver has no automatic reply in the channel of the trigger that was updated since
      midnight UTC of the day the server's clock showed for it. It is a new automatic reply of the receiver in the
      trigger's thread. */
  lemma RepliesIff(zone: Zone, posts: seq<Post>, ch: Channel, sender: User, receiver: User, trigger: Post,
                   newId: string, now: Millis)
    ensures var replies := Appended(zone, posts, ch, sender, receiver, trigger, newId, now);
            && |replies| <= 1
            && (|replies| == 1 <==>
                  && ch.direct && !sender.isBot && receiver.autoResponderActive && receiver.autoResponderMessage != ""
                  && forall i :: 0 <= i < |posts| ==>
                       !(posts[i].autoReply && posts[i].channelId == trigger.channelId && posts[i].userId == receiver.id
                         && posts[i].updateAt >= zone(trigger.createAt) * DAY))
            && (|replies| == 1 ==>
                  var r := replies[0];
                  && r.id == newId && r.autoReply && r.channelId == ch.id && r.userId == receiver.id
                  && r.createAt == now && r.updateAt == now
                  && (trigger.rootId == "" ==> r.rootId == trigger.id)
                  && (trigger.rootId != "" ==> r.rootId == trigger.rootId))
  {
    assert forall i :: 0 <= i < |posts| ==>
        (IsReply(posts[i], trigger.channelId, receiver.id) <==>
           posts[i].autoReply && posts[i].channelId == trigger.channelId && posts[i].userId == receiver.id);
  }

  /** In a direct channel the other one replies; in a channel with oneself it is oneself. */
  lemma ReceiverIsTheOther(ch: Channel, sender: User)
    requires ch.direct && sender.id in {ch.a, ch.b} && ch.a != "" && ch.b != ""
    ensures {ReceiverId(ch, sender), sender.id} == {ch.a, ch.b}
  {
  }

  /** The conditions on the people that have nothing to do with the day. */
  predicate Eligible(ch: Channel, sender: User, receiver: User) {
    ch.direct && !sender.isBot && receiver.autoResponderActive && receiver.autoResponderMessage != ""
  }

  /** On a UTC server a reply is withheld from an eligible message exactly when the receiver has a reply in the channel
      written or last touched on the day of the message or later; and otherwise there is one afterwards. */
  lemma WithheldIff(posts: seq<Post>, ch: Channel, sender: User, receiver: User, trigger: Post, newId: string,
                    now: Millis)
    requires trigger.channelId == ch.id && trigger.createAt <= now && Eligible(ch, sender, receiver)
    ensures var posts' := posts + Appended(UtcDay, posts, ch, sender, receiver, trigger, newId, now);
            && (posts' == posts <==> RepliedOnOrAfter(posts, ch.id, receiver.id, UtcDay(trigger.createAt)))
            && RepliedOnOrAfter(posts', ch.id, receiver.id, UtcDay(trigger.createAt))
  {
    var reply := Reply(ch, receiver, trigger, newId, now);
    assert posts + [] == posts && (posts + [reply])[|posts|] == reply;
    assert IsReply(reply, ch.id, receiver.id) && UtcDay(trigger.createAt) <= UtcDay(reply.updateAt);
    SinceIsDay(posts, ch.id, receiver.id, trigger.createAt);
    SinceIsDay(posts + [reply], ch.id, receiver.id, trigger.createAt);
  }

  ghost predicate RepliedOnOrAfter(posts: seq<Post>, channelId: string, userId: string, day: int) {
    exists i :: 0 <= i < |posts| && IsReply(posts[i], channelId, userId) && UtcDay(posts[i].updateAt) >= day
  }

  lemma SinceIsDay(posts: seq<Post>, channelId: string, userId: string, createAt: Millis)
    ensures RespondedToday(UtcDay, posts, createAt, channelId, userId)
       <==> RepliedOnOrAfter(posts, channelId, userId, UtcDay(createAt))
  {
    assert forall t: Millis :: UtcDay(t) >= UtcDay(createAt) <==> t >= UtcDay(createAt) * DAY;
  }

  // ---------- The source's object ----------

  class App {
    const zone: Zone
    var posts: seq<Post>

    constructor (zone: Zone)
      ensures this.zone == zone && posts == []
    {
      this.zone, posts := zone, [];
    }

    method CheckIfRespondedToday(createAt: Millis, channelId: string, userId: string) returns (responded: bool)
      ensures responded == RespondedToday(zone, posts, createAt, channelId, userId)
    {
      var since := Since(zone, createAt);
      responded := HasAutoResponsePostByUserSince(posts, channelId, userId, since);
    }

    method SendAutoResponse(ch: Channel, receiver: User, trigger: Post, newId: string, now: Millis) returns (sent: bool)
      modifies this
      ensures sent == (receiver.autoResponderActive && receiver.autoResponderMessage != "")
      ensures posts == old(posts) + if sent then [Reply(ch, receiver, trigger, newId, now)] else []
    {
      if !receiver.autoResponderActive || receiver.autoResponderMessage == "" {
        return false;
      }
      var rootId := trigger.id;
      if trigger.rootId != "" {
        rootId := trigger.rootId;
      }
      posts := posts + [Post(newId, rootId, ch.id, receiver.id, true, now, now)];
      sent := true;
    }

    /** `receiver` is the user that GetUser finds for ReceiverId. */
    method SendAutoResponseIfNecessary(ch: Channel, sender: User, receiver: User, trigger: Post, newId: string,
                                       now: Millis)
      returns (sent: bool)
      requires receiver.id == ReceiverId(ch, sender)
      modifies this
      ensures posts == old(posts) + Appended(zone, old(posts), ch, sender, receiver, trigger, newId, now)
      ensures sent == (posts != old(posts))
    {
      if !ch.direct {
        return false;
      }
      if sender.isBot {
        return false;
      }
      var responded := CheckIfRespondedToday(trigger.createAt, trigger.channelId, receiver.id);
      if responded {
        return false;
      }
      sent := SendAutoResponse(ch, receiver, trigger, newId, now);
    }
  }
}
