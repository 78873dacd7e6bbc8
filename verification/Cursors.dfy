/** The GraphQL cursors of channels and channel members (api4/resolver_channel.go, api4/resolver_channel_member.go). */
module Cursors {
  import opened Prelude
  import opened Base64

  const DASH: byte := 45

  /** "channel" */
  const CHANNEL_PREFIX: Bytes := [99, 104, 97, 110, 110, 101, 108]

  /** "channelMember" */
  const CHANNEL_MEMBER_PREFIX: Bytes := CHANNEL_PREFIX + [77, 101, 109, 98, 101, 114]

  function ChannelText(id: Bytes): Bytes { CHANNEL_PREFIX + [DASH] + id }

  function MemberText(channelId: Bytes, userId: Bytes): Bytes {
    CHANNEL_MEMBER_PREFIX + [DASH] + channelId + [DASH] + userId
  }

  function ChannelCursor(id: Bytes): Bytes { Encode(ChannelText(id)) }

  function ChannelMemberCursor(channelId: Bytes, userId: Bytes): Bytes { Encode(MemberText(channelId, userId)) }

  /** `strings.Split` at the dashes. */
  function Split(s: Bytes): (parts: seq<Bytes>)
    ensures parts != []
  {
    if s == [] then [[]]
    else
      var rest := Split(s[1..]);
      if s[0] == DASH then [[]] + rest else [[s[0]] + rest[0]] + rest[1..]
  }

  function ParseChannelCursor(cursor: Bytes): Option<Bytes> {
    match Decode(cursor)
    case None => None
    case Some(text) =>
      var parts := Split(text);
      if |parts| != 2 || parts[0] != CHANNEL_PREFIX then None else Some(parts[1])
  }

  function ParseChannelMemberCursor(cursor: Bytes): Option<(Bytes, Bytes)> {
    match Decode(cursor)
    case None => None
    case Some(text) =>
      var parts := Split(text);
      if |parts| != 3 || parts[0] != CHANNEL_MEMBER_PREFIX then None else Some((parts[1], parts[2]))
  }

  function Join(parts: seq<Bytes>): Bytes
    requires parts != []
  {
    if |parts| == 1 then parts[0] else parts[0] + [DASH] + Join(parts[1..])
  }

  /** The parts hold no dash, and joined again give the text. */
  lemma {:induction false} SplitJoins(s: Bytes)
    ensures Join(Split(s)) == s
    ensures forall i :: 0 <= i < |Split(s)| ==> DASH !in Split(s)[i]
  {
    if s != [] {
      var rest, parts := Split(s[1..]), Split(s);
      SplitJoins(s[1..]);
      assert parts[1..] == if s[0] == DASH then rest else rest[1..];
      assert s == [s[0]] + s[1..];
    }
  }

  lemma {:induction false} SplitFirst(a: Bytes, b: Bytes)
    requires DASH !in a
    ensures Split(a) == [a] && Split(a + [DASH] + b) == [a] + Split(b)
  {
    var s := a + [DASH] + b;
    if a == [] {
      assert s[1..] == b;
    } else {
      SplitFirst(a[1..], b);
      assert s[1..] == a[1..] + [DASH] + b;
      assert a == [a[0]] + a[1..];
    }
  }

  /** A text splits into given dash-free parts exactly when it is those parts joined. */
  lemma SplitInTwoIff(s: Bytes, a: Bytes, b: Bytes)
    ensures Split(s) == [a, b] <==> s == a + [DASH] + b && DASH !in a && DASH !in b
  {
    if Split(s) == [a, b] {
      SplitJoins(s);
      assert a == Split(s)[0] && b == Split(s)[1] && Split(s)[1..] == [b];
    } else if DASH !in a && DASH !in b {
      SplitFirst(a, b);
      SplitFirst(b, []);
      assert [a] + [b] == [a, b];
    }
  }

  lemma SplitInThreeIff(s: Bytes, a: Bytes, b: Bytes, c: Bytes)
    ensures Split(s) == [a, b, c] <==>
              s == a + [DASH] + (b + [DASH] + c) && DASH !in a && DASH !in b && DASH !in c
  {
    if Split(s) == [a, b, c] {
      SplitJoins(s);
      assert a == Split(s)[0] && b == Split(s)[1] && c == Split(s)[2] && Split(s)[1..] == [b, c] && [b, c][1..] == [c];
      assert Join([b, c]) == b + [DASH] + c;
    } else if DASH !in a && DASH !in b && DASH !in c {
      SplitFirst(a, b + [DASH] + c);
      SplitInTwoIff(b + [DASH] + c, b, c);
      assert [a] + [b, c] == [a, b, c];
    }
  }

  /** The channel parser accepts exactly the encodings of the prefix, a dash and an ID without dashes. */
  lemma ParseChannelIff(cursor: Bytes, id: Bytes)
    ensures ParseChannelCursor(cursor) == Some(id) <==> DASH !in id && Decode(cursor) == Some(ChannelText(id))
  {
    if Decode(cursor).Some? {
      var text := Decode(cursor).value;
      SplitInTwoIff(text, CHANNEL_PREFIX, id);
      assert ParseChannelCursor(cursor) == Some(id) <==> Split(text) == [CHANNEL_PREFIX, id];
    }
  }

  lemma ParseChannelMemberIff(cursor: Bytes, channelId: Bytes, userId: Bytes)
    ensures ParseChannelMemberCursor(cursor) == Some((channelId, userId)) <==>
              DASH !in channelId && DASH !in userId && Decode(cursor) == Some(MemberText(channelId, userId))
  {
    if Decode(cursor).Some? {
      var text := Decode(cursor).value;
      SplitInThreeIff(text, CHANNEL_MEMBER_PREFIX, channelId, userId);
      assert MemberText(channelId, userId) == CHANNEL_MEMBER_PREFIX + [DASH] + (channelId + [DASH] + userId);
      assert ParseChannelMemberCursor(cursor) == Some((channelId, userId)) <==>
             Split(text) == [CHANNEL_MEMBER_PREFIX, channelId, userId];
    }
  }

  /** Parsing a printed cursor gives the ID back if and only if the ID has no dash. */
  lemma ChannelRoundTripIff(id: Bytes)
    ensures ParseChannelCursor(ChannelCursor(id)) == Some(id) <==> DASH !in id
  {
    DecodeEncode(ChannelText(id));
    ParseChannelIff(ChannelCursor(id), id);
  }

  lemma ChannelMemberRoundTripIff(channelId: Bytes, userId: Bytes)
    ensures ParseChannelMemberCursor(ChannelMemberCursor(channelId, userId)) == Some((channelId, userId)) <==>
              DASH !in channelId && DASH !in userId
  {
    DecodeEncode(MemberText(channelId, userId));
    ParseChannelMemberIff(ChannelMemberCursor(channelId, userId), channelId, userId);
  }

  /** Printing channel cursors is injective, for all IDs. */
  lemma ChannelPrintingIsInjective(id: Bytes, id': Bytes)
    requires ChannelCursor(id) == ChannelCursor(id')
    ensures id == id'
  {
    DecodeEncode(ChannelText(id));
    DecodeEncode(ChannelText(id'));
    assert ChannelText(id)[8..] == id && ChannelText(id')[8..] == id';
  }

  /** Printing member cursors is injective when the channel IDs have no dash. */
  lemma MemberPrintingIsInjective(c: Bytes, u: Bytes, c': Bytes, u': Bytes)
    requires DASH !in c && DASH !in c' && ChannelMemberCursor(c, u) == ChannelMemberCursor(c', u')
    ensures c == c' && u == u'
  {
    DecodeEncode(MemberText(c, u));
    DecodeEncode(MemberText(c', u'));
    var text, text' := c + [DASH] + u, c' + [DASH] + u';
    assert MemberText(c, u)[14..] == text && MemberText(c', u')[14..] == text';
    SplitFirst(c, u);
    SplitFirst(c', u');
    assert c == Split(text)[0] == c';
    assert text[|c| + 1..] == u && text'[|c| + 1..] == u';
  }

  /** The same text with the dash between the IDs put elsewhere. */
  lemma DashesCollide(a: Bytes, b: Bytes, c: Bytes)
    ensures ChannelMemberCursor(a + [DASH] + b, c) == ChannelMemberCursor(a, b + [DASH] + c)
  {
    assert MemberText(a + [DASH] + b, c) == MemberText(a, b + [DASH] + c);
  }

  lemma SplitAtDash(s: Bytes) returns (a: Bytes, b: Bytes)
    requires DASH in s
    ensures s == a + [DASH] + b
  {
    var i :| 0 <= i < |s| && s[i] == DASH;
    a, b := s[..i], s[i + 1..];
  }

  /** Two IDs with one dash between them: without other dashes the text has only that one. */
  lemma OneDash(c: Bytes, u: Bytes, c': Bytes, u': Bytes)
    requires DASH !in c && DASH !in u && ChannelMemberCursor(c, u) == ChannelMemberCursor(c', u')
    ensures c == c' && u == u'
  {
    DecodeEncode(MemberText(c, u));
    DecodeEncode(MemberText(c', u'));
    var text, text' := c + [DASH] + u, c' + [DASH] + u';
    assert MemberText(c, u)[14..] == text && MemberText(c', u')[14..] == text';
    forall i | 0 <= i < |text| && i != |c|
      ensures text[i] != DASH
    {
      assert text[i] in c || text[i] in u;
    }
    assert text'[|c'|] == DASH;
    assert text[..|c|] == c && text'[..|c'|] == c' && text[|c| + 1..] == u && text'[|c'| + 1..] == u';
  }

  /** The cursor of a member is that of no other member, if and only if neither ID has a dash. */
  lemma MemberCursorUniqueIff(c: Bytes, u: Bytes)
    ensures (forall c': Bytes, u': Bytes ::
               ChannelMemberCursor(c, u) == ChannelMemberCursor(c', u') ==> c == c' && u == u')
       <==> DASH !in c && DASH !in u
  {
    if DASH !in c && DASH !in u {
      forall c': Bytes, u': Bytes | ChannelMemberCursor(c, u) == ChannelMemberCursor(c', u')
        ensures c == c' && u == u'
      {
        OneDash(c, u, c', u');
      }
    } else if DASH in c {
      var a, b := SplitAtDash(c);
      DashesCollide(a, b, u);
      assert |a| < |c|;
    } else {
      var a, b := SplitAtDash(u);
      DashesCollide(c, a, b);
      assert |b| < |u|;
    }
  }

  /** No string is a cursor of both kinds; in particular neither parser accepts the other kind's cursor, whatever the
      IDs. */
  lemma KindsAreDisjoint(cursor: Bytes, id: Bytes, channelId: Bytes, userId: Bytes)
    ensures ParseChannelCursor(cursor).None? || ParseChannelMemberCursor(cursor).None?
    ensures ParseChannelCursor(ChannelMemberCursor(channelId, userId)).None?
    ensures ParseChannelMemberCursor(ChannelCursor(id)).None?
  {
    DecodeEncode(MemberText(channelId, userId));
    DecodeEncode(ChannelText(id));
    EighthByte(cursor);
    EighthByte(ChannelMemberCursor(channelId, userId));
    EighthByte(ChannelCursor(id));
  }

  /** The byte after "channel" tells the kinds apart. */
  lemma EighthByte(cursor: Bytes)
    ensures ParseChannelCursor(cursor).Some? ==> |Decode(cursor).value| > 7 && Decode(cursor).value[7] == DASH
    ensures ParseChannelMemberCursor(cursor).Some? ==> |Decode(cursor).value| > 7 && Decode(cursor).value[7] != DASH
  {
    if ParseChannelCursor(cursor).Some? {
      ParseChannelIff(cursor, ParseChannelCursor(cursor).value);
    }
    if ParseChannelMemberCursor(cursor).Some? {
      var (c, u) := ParseChannelMemberCursor(cursor).value;
      ParseChannelMemberIff(cursor, c, u);
    }
  }
}
