/**
 Streaming all channels of a user as one JSON array (api4/channel.go, getChannelsForUser): pages of 100, each read from
 the store after the last ID of the page before, written out as they come.
 */
module ChannelStream {
  import opened Prelude

  const PAGE_SIZE: nat := 100

  datatype Channel = Channel(id: string, json: string)

  /** What is written to the response; the newline the encoder appends is insignificant whitespace. */
  datatype Token = Open | Close | Comma | Item(channel: Channel)

  datatype Error = NotFound | StoreError | PropsError

  // ---------- The store ----------

  /** The order of IDs: bytewise, as in the store's index. */
  predicate Less(a: string, b: string) {
    b != [] && (a == [] || a[0] < b[0] || (a[0] == b[0] && Less(a[1..], b[1..])))
  }

  lemma {:induction false} LessTransitive(a: string, b: string, c: string)
    requires Less(a, b) && Less(b, c)
    ensures Less(a, c)
  {
    if a != [] && a[0] == b[0] && b[0] == c[0] {
      LessTransitive(a[1..], b[1..], c[1..]);
    }
  }

  lemma {:induction false} LessIrreflexive(a: string)
    ensures !Less(a, a)
  {
    if a != [] {
      LessIrreflexive(a[1..]);
    }
  }

  lemma {:induction false} LessTotal(a: string, b: string)
    ensures a == b || Less(a, b) || Less(b, a)
  {
    if a != [] && b != [] && a[0] == b[0] {
      LessTotal(a[1..], b[1..]);
      assert a == [a[0]] + a[1..] && b == [b[0]] + b[1..];
    }
  }

  /** The user's channels as the query orders them: by ID, without duplicates, and no ID is empty. */
  ghost predicate Ordered(channels: seq<Channel>) {
    && (forall i :: 0 <= i < |channels| ==> channels[i].id != "")
    && (forall i, j :: 0 <= i < j < |channels| ==> Less(channels[i].id, channels[j].id))
  }

  /** The channels with an ID beyond `from`. */
  function Beyond(channels: seq<Channel>, from: string): seq<Channel> {
    if channels == [] then []
    else (if Less(from, channels[0].id) then [channels[0]] else []) + Beyond(channels[1..], from)
  }

  function Take(channels: seq<Channel>, n: nat): seq<Channel> { if |channels| <= n then channels else channels[..n] }

  /** One page; an empty answer is reported as not found. */
  function GetChannelsForUser(channels: seq<Channel>, from: string): Result<seq<Channel>, Error> {
    var page := Take(if from == "" then channels else Beyond(channels, from), PAGE_SIZE);
    if page == [] then Err(NotFound) else Ok(page)
  }

  lemma {:induction false} BeyondIndex(channels: seq<Channel>, i: nat)
    requires Ordered(channels) && i < |channels|
    ensures Beyond(channels, channels[i].id) == channels[i + 1..]
  {
    if i == 0 {
      LessIrreflexive(channels[0].id);
      BeyondAll(channels[1..], channels[0].id);
    } else {
      if Less(channels[i].id, channels[0].id) {
        LessTransitive(channels[0].id, channels[i].id, channels[0].id);
        LessIrreflexive(channels[0].id);
      }
      BeyondIndex(channels[1..], i - 1);
      assert channels[1..][i..] == channels[i + 1..];
    }
  }

  lemma {:induction false} BeyondAll(channels: seq<Channel>, from: string)
    requires forall i :: 0 <= i < |channels| ==> Less(from, channels[i].id)
    ensures Beyond(channels, from) == channels
  {
    if channels != [] {
      BeyondAll(channels[1..], from);
    }
  }

  // ---------- The array ----------

  /** The first `n` channels separated by commas. */
  function Join(channels: seq<Channel>, n: nat): seq<Token>
    requires n <= |channels|
  {
    if n == 0 then [] else Join(channels, n - 1) + (if n > 1 then [Comma] else []) + [Item(channels[n - 1])]
  }

  function Array(channels: seq<Channel>): seq<Token> { [Open] + Join(channels, |channels|) + [Close] }

  /** A reader of arrays by the grammar of section 5 of RFC 8259: `[`, values separated by commas, `]`, and no more. */
  function ReadArray(tokens: seq<Token>): Option<seq<Channel>> {
    if tokens == [] || tokens[0] != Open then None
    else if tokens[1..] == [Close] then Some([])
    else ReadItems(tokens[1..])
  }

  function ReadItems(tokens: seq<Token>): Option<seq<Channel>> {
    if |tokens| < 2 || !tokens[0].Item? then None
    else if tokens[1..] == [Close] then Some([tokens[0].channel])
    else if tokens[1] != Comma then None
    else
      match ReadItems(tokens[2..])
      case None => None
      case Some(rest) => Some([tokens[0].channel] + rest)
  }

  /** The channels from `i` on separated by commas. */
  function JoinFrom(channels: seq<Channel>, i: nat): seq<Token>
    requires i < |channels|
    decreases |channels| - i
  {
    [Item(channels[i])] + if i + 1 == |channels| then [] else [Comma] + JoinFrom(channels, i + 1)
  }

  lemma {:induction false} JoinIsJoinFrom(channels: seq<Channel>, i: nat)
    requires i < |channels|
    ensures Join(channels, |channels|) == Join(channels, i) + (if i > 0 then [Comma] else []) + JoinFrom(channels, i)
    decreases |channels| - i
  {
    if i + 1 < |channels| {
      JoinIsJoinFrom(channels, i + 1);
    }
  }

  lemma {:induction false} ReadJoin(channels: seq<Channel>, i: nat)
    requires i < |channels|
    ensures ReadItems(JoinFrom(channels, i) + [Close]) == Some(channels[i..])
    decreases |channels| - i
  {
    var tokens := JoinFrom(channels, i) + [Close];
    if i + 1 < |channels| {
      ReadJoin(channels, i + 1);
      assert tokens[2..] == JoinFrom(channels, i + 1) + [Close];
      assert tokens[1] == Comma && tokens[1..][0] == Comma;
      assert channels[i..] == [channels[i]] + channels[i + 1..];
    } else {
      assert tokens[1..] == [Close] && channels[i..] == [channels[i]];
    }
  }

  /** What is written is one well-formed array holding exactly the channels, each once, in order. */
  lemma ArrayIsWellFormed(channels: seq<Channel>)
    ensures ReadArray(Array(channels)) == Some(channels)
  {
    var tail := Join(channels, |channels|) + [Close];
    assert Array(channels) == [Open] + tail && Array(channels)[1..] == tail;
    if channels != [] {
      JoinIsJoinFrom(channels, 0);
      assert Join(channels, |channels|) == JoinFrom(channels, 0);
      ReadJoin(channels, 0);
      assert tail[0] == JoinFrom(channels, 0)[0] == Item(channels[0]) && channels[0..] == channels;
    }
  }

  lemma {:induction false} ReadNeedsClose(tokens: seq<Token>)
    requires ReadItems(tokens).Some?
    ensures tokens[|tokens| - 1] == Close
  {
    if tokens[1..] != [Close] {
      ReadNeedsClose(tokens[2..]);
    }
  }

  lemma {:induction false} NoCloseInside(channels: seq<Channel>, n: nat)
    requires n <= |channels|
    ensures Close !in Join(channels, n)
  {
    if n > 0 {
      NoCloseInside(channels, n - 1);
    }
  }

  /** An answer cut short by an error is not an array. */
  lemma CutShortIsMalformed(channels: seq<Channel>, n: nat)
    requires n <= |channels|
    ensures ReadArray([Open] + Join(channels, n)) == None
  {
    var tokens := Join(channels, n);
    assert ([Open] + tokens)[1..] == tokens;
    NoCloseInside(channels, n);
    if ReadItems(tokens).Some? {
      ReadNeedsClose(tokens);
    }
  }

  // ---------- The handler ----------

  /** The ID after which the page that starts at channel `done` is read. */
  function After(channels: seq<Channel>, done: nat): string
    requires done <= |channels|
  {
    if done == 0 then "" else channels[done - 1].id
  }

  /** The page read after channel `done` holds the channels that follow it, and is full unless it reaches the end. */
  ghost predicate IsPage(channels: seq<Channel>, done: nat, page: seq<Channel>) {
    && 0 < |page| <= PAGE_SIZE && done + |page| <= |channels| && page == channels[done..done + |page|]
    && (|page| < PAGE_SIZE ==> done + |page| == |channels|)
  }

  lemma TakeIsPage(channels: seq<Channel>, done: nat)
    requires done < |channels|
    ensures IsPage(channels, done, Take(channels[done..], PAGE_SIZE))
  {
  }

  lemma NextPage(channels: seq<Channel>, done: nat)
    requires Ordered(channels) && done <= |channels|
    ensures var answer := GetChannelsForUser(channels, After(channels, done));
            if done == |channels| then answer == Err(NotFound) else answer.Ok? && IsPage(channels, done, answer.value)
  {
    if done > 0 {
      BeyondIndex(channels, done - 1);
    } else {
      assert channels[0..] == channels;
    }
    if done < |channels| {
      TakeIsPage(channels, done);
    }
  }

  /** The loop over one page, which starts at channel `done`. */
  method WriteBatch(before: seq<Token>, batch: seq<Channel>, ghost channels: seq<Channel>, ghost done: nat)
    returns (written: seq<Token>)
    requires IsPage(channels, done, batch)
    requires before == [Open] + Join(channels, done) + if done > 0 then [Comma] else []
    ensures written == [Open] + Join(channels, done + |batch|)
  {
    written := before;
    for i := 0 to |batch|
      invariant written == [Open] + Join(channels, done + i) + if 0 < done + i && i < |batch| then [Comma] else []
    {
      ghost var k := done + i;
      assert Join(channels, k + 1) == Join(channels, k) + (if k > 0 then [Comma] else []) + [Item(batch[i])];
      written := written + [Item(batch[i])];
      assert written == [Open] + Join(channels, k + 1);
      if i < |batch| - 1 {
        written := written + [Comma];
      }
    }
  }

  ghost predicate NoneFails(fails: nat -> bool, propsFail: nat -> bool, pages: nat) {
    forall k: nat :: k < pages ==> !fails(k) && !propsFail(k)
  }

  /** No page that has to be read fails: behind a last page that is full comes an empty one. */
  ghost predicate AllAnswer(channels: seq<Channel>, fails: nat -> bool, propsFail: nat -> bool) {
    && (forall k: nat :: k * PAGE_SIZE <= |channels| ==> !fails(k))
    && (forall k: nat :: k * PAGE_SIZE < |channels| ==> !propsFail(k))
  }

  /** The answer stops at page `k`: the pages before it are written, and nothing of it is. */
  ghost predicate StopsAt(channels: seq<Channel>, fails: nat -> bool, propsFail: nat -> bool, k: nat,
                          written: seq<Token>, error: Error) {
    && k * PAGE_SIZE <= |channels| && NoneFails(fails, propsFail, k)
    && written == [Open] + Join(channels, k * PAGE_SIZE)
    && match error
       case StoreError => fails(k)
       case NotFound => !fails(k) && channels == []
       case PropsError => !fails(k) && k * PAGE_SIZE < |channels| && propsFail(k)
  }

  /** The answer is the whole array exactly when there are channels and no page that has to be read fails. Otherwise
      what was written stays, and is not an array. */
  ghost predicate Answered(channels: seq<Channel>, fails: nat -> bool, propsFail: nat -> bool, written: seq<Token>,
                           error: Option<Error>) {
    && (error == None <==> channels != [] && AllAnswer(channels, fails, propsFail))
    && match error
       case None => written == Array(channels)
       case Some(e) => exists k: nat :: StopsAt(channels, fails, propsFail, k, written, e)
  }

  lemma AnsweredStop(channels: seq<Channel>, fails: nat -> bool, propsFail: nat -> bool, k: nat, written: seq<Token>,
                     error: Error)
    requires StopsAt(channels, fails, propsFail, k, written, error)
    ensures Answered(channels, fails, propsFail, written, Some(error))
  {
  }

  /** `pages` pages have been read in full; there is nothing behind them, which one more read has told if the last of
      them was full. */
  lemma AnsweredAll(channels: seq<Channel>, fails: nat -> bool, propsFail: nat -> bool, pages: nat)
    requires channels != [] && NoneFails(fails, propsFail, pages)
    requires |channels| < pages * PAGE_SIZE || (|channels| == pages * PAGE_SIZE && !fails(pages))
    ensures Answered(channels, fails, propsFail, Array(channels), None)
  {
  }

  lemma CloseArray(channels: seq<Channel>, written: seq<Token>)
    requires written == [Open] + Join(channels, |channels|)
    ensures written + [Close] == Array(channels)
  {
  }

  lemma PageRead(channels: seq<Channel>, fails: nat -> bool, propsFail: nat -> bool, pages: nat, batch: seq<Channel>)
    requires NoneFails(fails, propsFail, pages) && !fails(pages) && !propsFail(pages)
    requires IsPage(channels, pages * PAGE_SIZE, batch)
    ensures NoneFails(fails, propsFail, pages + 1)
    ensures var done := pages * PAGE_SIZE + |batch|;
            if |batch| < PAGE_SIZE then done == |channels| < (pages + 1) * PAGE_SIZE
            else done == (pages + 1) * PAGE_SIZE && After(channels, done) == batch[|batch| - 1].id
  {
  }

  /** `fails(k)`: reading page `k` fails in the store; `propsFail(k)`: filling in its channels does. */
  method StreamChannelsForUser(channels: seq<Channel>, fails: nat -> bool, propsFail: nat -> bool)
    returns (written: seq<Token>, error: Option<Error>)
    requires Ordered(channels)
    ensures Answered(channels, fails, propsFail, written, error)
  {
    written := [Open];
    var from, page := "", 0;
    ghost var done := 0;
    while true
      invariant done <= |channels| && from == After(channels, done) && written == [Open] + Join(channels, done)
      invariant done == page * PAGE_SIZE && NoneFails(fails, propsFail, page)
      decreases |channels| - done
    {
      assert from == "" <==> done == 0;
      if fails(page) {
        AnsweredStop(channels, fails, propsFail, page, written, StoreError);
        return written, Some(StoreError);
      }
      NextPage(channels, done);
      var answer := GetChannelsForUser(channels, from);
      if answer.Err? {
        if from != "" {
          AnsweredAll(channels, fails, propsFail, page);
          CloseArray(channels, written);
          break;
        }
        AnsweredStop(channels, fails, propsFail, page, written, answer.error);
        return written, Some(answer.error);
      }
      if propsFail(page) {
        AnsweredStop(channels, fails, propsFail, page, written, PropsError);
        return written, Some(PropsError);
      }
      var batch := answer.value;
      if from != "" {
        written := written + [Comma];
      }
      written := WriteBatch(written, batch, channels, done);
      PageRead(channels, fails, propsFail, page, batch);
      done, page := done + |batch|, page + 1;
      if |batch| < PAGE_SIZE {
        AnsweredAll(channels, fails, propsFail, page);
        CloseArray(channels, written);
        break;
      }
      from := batch[|batch| - 1].id;
    }
    written, error := written + [Close], None;
  }
}
