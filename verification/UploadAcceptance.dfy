/** Which requests succeed, told from the parts, the permissions and the store alone, and how the others fail. */
module UploadAcceptance {
  import opened Prelude
  import opened UploadProperties
  import opened UploadSpec

  // ---------- What an acceptable form is ----------

  /** The channel ID that a pass begun with `channelId` has after `parts`, and all it has met on the way. */
  function ChannelsMet(channelId: string, parts: seq<Part>): seq<string> { [channelId] + Read(parts).channels }

  function ChannelMet(channelId: string, parts: seq<Part>): string {
    var met := ChannelsMet(channelId, parts);
    met[|met| - 1]
  }

  /** After the first ID that is not empty all are the same. */
  ghost predicate Fitting(ids: seq<string>) {
    forall i, j :: 0 <= i < j < |ids| && ids[i] != "" ==> ids[j] == ids[i]
  }

  /** When a file comes, the channel is known, valid, and open to the session. */
  ghost predicate Placed(env: Env, parts: seq<Part>, channelId: string) {
    forall k :: 0 <= k < |parts| && IsFile(parts[k]) ==>
                  ValidId(ChannelMet(channelId, parts[..k])) && env.mayUpload(ChannelMet(channelId, parts[..k]))
  }

  predicate MoreIds(parts: seq<Part>) { |Files(parts)| <= |Values(parts, "client_ids")| }

  /** No file comes before its client ID. */
  ghost predicate InTime(parts: seq<Part>) {
    forall k :: 0 <= k <= |parts| ==> MoreIds(parts[..k])
  }

  /** The uploads of the given files, in order, the `i`-th under the `i`-th client ID if there are any. */
  function Wanted(channelId: string, files: seq<Part>, ids: seq<string>): seq<Upload>
    requires ids == [] || |files| <= |ids|
  {
    seq(|files|, i requires 0 <= i < |files| => UploadOf(channelId, files[i], if ids == [] then "" else ids[i]))
  }

  ghost predicate StoreTakes(env: Env, uploads: seq<Upload>, wanted: seq<Upload>) {
    forall i :: 0 <= i < |wanted| ==> env.upload(uploads + wanted[..i], wanted[i]).Some?
  }

  ghost predicate AllKnown(parts: seq<Part>) { forall k :: 0 <= k < |parts| ==> KnownValue(parts[k]) }

  ghost predicate Formed(env: Env, parts: seq<Part>, channelId: string) {
    && AllKnown(parts)
    && Fitting(ChannelsMet(channelId, parts)) && Placed(env, parts, channelId)
    && (Read(parts).ids == [] || InTime(parts))
  }

  lemma FilesHaveIds(env: Env, parts: seq<Part>, channelId: string)
    requires Formed(env, parts, channelId)
    ensures Read(parts).ids == [] || |Read(parts).files| <= |Read(parts).ids|
  {
    assert parts[..|parts|] == parts;
  }

  function WantedOf(channelId: string, parts: seq<Part>): seq<Upload>
    requires Read(parts).ids == [] || |Read(parts).files| <= |Read(parts).ids|
  {
    Wanted(ChannelMet(channelId, parts), Read(parts).files, Read(parts).ids)
  }

  /** What a stream pass gets through, as far as it has come. */
  ghost predicate Takes(env: Env, parts: seq<Part>, channelId: string, uploads: seq<Upload>) {
    && Formed(env, parts, channelId)
    && (Read(parts).ids == [] || |Read(parts).files| <= |Read(parts).ids|)
    && StoreTakes(env, uploads, WantedOf(channelId, parts))
  }

  /** A complete body with either no client ID or one for each file. */
  ghost predicate Acceptable(env: Env, b: Body, channelId: string, uploads: seq<Upload>) {
    && b.clean && Takes(env, b.parts, channelId, uploads)
    && (Read(b.parts).ids == [] || |Read(b.parts).ids| == |Read(b.parts).files|)
  }

  // ---------- The variables of the loop ----------

  lemma {:induction false} ReadOfPrefix(parts: seq<Part>, k: nat)
    requires k <= |parts|
    ensures Read(parts[..k]).files <= Read(parts).files && Read(parts[..k]).ids <= Read(parts).ids
    ensures Read(parts[..k]).channels <= Read(parts).channels
  {
    if k < |parts| {
      var n := |parts| - 1;
      ReadOfPrefix(parts[..n], k);
      ReadLast(parts);
      assert parts[..n][..k] == parts[..k];
    } else {
      assert parts[..k] == parts;
    }
  }

  lemma StepMeets(env: Env, st: State, p: Part, inp: Input, channelId: string)
    requires st.channelId == ([channelId] + inp.channels)[|inp.channels|] && Step(env, st, p, true).Continue?
    ensures var channels := ReadPart(inp, p).channels;
            Step(env, st, p, true).st.channelId == ([channelId] + channels)[|channels|]
  {
  }

  lemma {:induction false} ChannelIsMet(env: Env, parts: seq<Part>, channelId: string, uploads: seq<Upload>)
    requires Loop(env, parts, Initial(channelId, uploads), true).Continue?
    ensures Loop(env, parts, Initial(channelId, uploads), true).st.channelId == ChannelMet(channelId, parts)
  {
    if parts != [] {
      var n := |parts| - 1;
      ChannelIsMet(env, parts[..n], channelId, uploads);
      ReadLast(parts);
      var st := Loop(env, parts[..n], Initial(channelId, uploads), true).st;
      StepMeets(env, st, parts[n], Read(parts[..n]), channelId);
    }
  }

  /** The state of a pass, in full, by what it has read and the channel ID it has met. */
  ghost predicate StandsAt(env: Env, inp: Input, met: string, uploads: seq<Upload>, st: State) {
    && (inp.ids == [] || |inp.files| <= |inp.ids|)
    && st.channelId == met && st.clientIds == inp.ids && |st.infos| == |inp.files|
    && st.uploads == uploads + Wanted(met, inp.files, inp.ids)
    && st.expectClientIds == (inp.ids != [] || inp.files == [])
    && st.respIds == inp.ids[..if inp.ids == [] then 0 else |inp.files|]
    && (forall i :: 0 <= i < |inp.files| ==>
          var wanted := Wanted(met, inp.files, inp.ids);
          env.upload(uploads + wanted[..i], wanted[i]) == Some(st.infos[i]))
  }

  ghost predicate Stands(env: Env, parts: seq<Part>, channelId: string, uploads: seq<Upload>, st: State) {
    StandsAt(env, Read(parts), ChannelMet(channelId, parts), uploads, st)
  }

  lemma TracksStands(env: Env, inp: Input, channelId: string, uploads: seq<Upload>, st: State)
    requires Tracks(env, inp, channelId, uploads, st)
    ensures StandsAt(env, inp, st.channelId, uploads, st)
  {
    var base, wanted := |uploads|, Wanted(st.channelId, inp.files, inp.ids);
    forall i | 0 <= i < |inp.files|
      ensures st.uploads[base + i] == wanted[i]
    {
      assert st.uploads[base + i] == Expected(inp, st, i);
    }
    assert st.uploads == uploads + wanted;
    forall i | 0 <= i < |inp.files|
      ensures env.upload(uploads + wanted[..i], wanted[i]) == Some(st.infos[i])
    {
      assert st.uploads[..base + i] == uploads + wanted[..i];
    }
  }

  lemma LoopStands(env: Env, parts: seq<Part>, channelId: string, uploads: seq<Upload>)
    requires Loop(env, parts, Initial(channelId, uploads), true).Continue?
    ensures Stands(env, parts, channelId, uploads, Loop(env, parts, Initial(channelId, uploads), true).st)
  {
    var k := LoopTracks(env, parts, channelId, uploads);
    assert parts[..|parts|] == parts;
    ChannelIsMet(env, parts, channelId, uploads);
    TracksStands(env, Read(parts), channelId, uploads, Loop(env, parts, Initial(channelId, uploads), true).st);
  }

  // ---------- One part more ----------

  lemma MetOfPrefix(channelId: string, parts: seq<Part>, n: nat)
    requires n <= |parts|
    ensures ChannelsMet(channelId, parts[..n]) <= ChannelsMet(channelId, parts)
    ensures Fitting(ChannelsMet(channelId, parts)) ==> Fitting(ChannelsMet(channelId, parts[..n]))
    ensures Fitting(ChannelsMet(channelId, parts)) && ChannelMet(channelId, parts[..n]) != "" ==>
              ChannelMet(channelId, parts[..n]) == ChannelMet(channelId, parts)
  {
    ReadOfPrefix(parts, n);
    PrefixFits(ChannelsMet(channelId, parts[..n]), ChannelsMet(channelId, parts));
  }

  lemma PrefixFits(early: seq<string>, late: seq<string>)
    requires early != [] && early <= late
    ensures Fitting(late) ==> Fitting(early)
    ensures Fitting(late) && early[|early| - 1] != "" ==> early[|early| - 1] == late[|late| - 1]
  {
    assert late[|early| - 1] == early[|early| - 1];
  }

  /** With a file behind it, the channel ID does not change any more. */
  lemma ChannelStays(env: Env, parts: seq<Part>, n: nat, channelId: string)
    requires n <= |parts| && Fitting(ChannelsMet(channelId, parts)) && Placed(env, parts, channelId)
    requires Files(parts[..n]) != []
    ensures ChannelMet(channelId, parts[..n]) == ChannelMet(channelId, parts)
    ensures ValidId(ChannelMet(channelId, parts)) && env.mayUpload(ChannelMet(channelId, parts))
  {
    FilesNeedAFile(parts[..n]);
    var k :| 0 <= k < n && IsFile(parts[..n][k]);
    assert parts[..n][..k] == parts[..k] && IsFile(parts[k]);
    MetOfPrefix(channelId, parts, k);
    MetOfPrefix(channelId, parts, n);
    MetOfPrefix(channelId, parts[..n], k);
  }

  lemma FormedPrefix(env: Env, parts: seq<Part>, n: nat, channelId: string)
    requires n <= |parts| && Formed(env, parts, channelId)
    ensures Formed(env, parts[..n], channelId)
  {
    var front := parts[..n];
    ReadOfPrefix(parts, n);
    MetOfPrefix(channelId, parts, n);
    assert forall k :: 0 <= k < n ==> front[k] == parts[k] && front[..k] == parts[..k];
    if Read(front).ids != [] {
      assert forall k :: 0 <= k <= n ==> front[..k] == parts[..k];
    }
  }

  lemma WantedPrefix(env: Env, parts: seq<Part>, n: nat, channelId: string)
    requires n <= |parts| && Formed(env, parts, channelId)
    ensures Formed(env, parts[..n], channelId)
    ensures Read(parts).ids == [] || |Read(parts).files| <= |Read(parts).ids|
    ensures Read(parts[..n]).ids == [] || |Read(parts[..n]).files| <= |Read(parts[..n]).ids|
    ensures WantedOf(channelId, parts[..n]) <= WantedOf(channelId, parts)
  {
    FormedPrefix(env, parts, n, channelId);
    FilesHaveIds(env, parts, channelId);
    FilesHaveIds(env, parts[..n], channelId);
    ReadOfPrefix(parts, n);
    if Files(parts[..n]) != [] {
      ChannelStays(env, parts, n, channelId);
      assert Read(parts).ids != [] ==> MoreIds(parts[..n]);
    }
  }

  lemma TakesPrefix(env: Env, parts: seq<Part>, n: nat, channelId: string, uploads: seq<Upload>)
    requires n <= |parts| && Takes(env, parts, channelId, uploads)
    ensures Takes(env, parts[..n], channelId, uploads)
  {
    WantedPrefix(env, parts, n, channelId);
    var wanted, all := WantedOf(channelId, parts[..n]), WantedOf(channelId, parts);
    assert forall i :: 0 <= i < |wanted| ==> wanted[..i] == all[..i] && wanted[i] == all[i];
  }

  lemma FittingNext(ids: seq<string>, id: string)
    requires ids != []
    ensures Fitting(ids + [id]) <==> Fitting(ids) && (ids[|ids| - 1] == "" || id == ids[|ids| - 1])
  {
    var all := ids + [id];
    assert all[|ids|] == id && all[|ids| - 1] == ids[|ids| - 1];
    if Fitting(ids) && (ids[|ids| - 1] == "" || id == ids[|ids| - 1]) {
      forall i, j | 0 <= i < j < |all| && all[i] != ""
        ensures all[j] == all[i]
      {
        assert i < |ids| - 1 ==> ids[|ids| - 1] == ids[i];
      }
    }
    if Fitting(all) {
      assert forall i :: 0 <= i < |ids| ==> all[i] == ids[i];
    }
  }

  lemma MetNext(channelId: string, parts: seq<Part>)
    requires parts != []
    ensures var n := |parts| - 1; var met := ChannelsMet(channelId, parts[..n]);
            ChannelsMet(channelId, parts) == if IsChannel(parts[n]) then met + [Cut(parts[n].content)] else met
  {
    ReadLast(parts);
  }

  lemma AllKnownNext(parts: seq<Part>)
    requires parts != []
    ensures AllKnown(parts) <==> AllKnown(parts[..|parts| - 1]) && KnownValue(parts[|parts| - 1])
  {
    assert forall k :: 0 <= k < |parts| - 1 ==> parts[..|parts| - 1][k] == parts[k];
  }

  lemma PlacedNext(env: Env, parts: seq<Part>, channelId: string)
    requires parts != []
    ensures var n := |parts| - 1; var met := ChannelMet(channelId, parts[..n]);
            Placed(env, parts, channelId) <==>
              Placed(env, parts[..n], channelId) && (IsFile(parts[n]) ==> ValidId(met) && env.mayUpload(met))
  {
    var n := |parts| - 1;
    assert forall k :: 0 <= k < n ==> parts[..n][k] == parts[k] && parts[..n][..k] == parts[..k];
  }

  lemma InTimeNext(parts: seq<Part>)
    requires parts != []
    ensures InTime(parts) <==> InTime(parts[..|parts| - 1]) && MoreIds(parts)
  {
    var n := |parts| - 1;
    assert parts[..n + 1] == parts && forall k :: 0 <= k <= n ==> parts[..n][..k] == parts[..k];
  }

  lemma InTimeWithoutFiles(parts: seq<Part>)
    requires Files(parts) == []
    ensures InTime(parts)
  {
    forall k | 0 <= k <= |parts|
      ensures MoreIds(parts[..k])
    {
      ReadOfPrefix(parts, k);
    }
  }

  /** May the part come next, after what was read? */
  predicate Follows(env: Env, inp: Input, met: string, p: Part) {
    && KnownValue(p)
    && (IsChannel(p) ==> met == "" || Cut(p.content) == met)
    && (IsValue(p) && p.formName == "client_ids" ==> inp.files == [] || inp.ids != [])
    && (IsFile(p) ==> ValidId(met) && env.mayUpload(met) && (inp.ids == [] || |inp.files| < |inp.ids|))
  }

  lemma IdsInTimeNext(parts: seq<Part>)
    requires parts != []
    requires var front := Read(parts[..|parts| - 1]); front.ids == [] || InTime(parts[..|parts| - 1])
    ensures var inp, front, p := Read(parts), Read(parts[..|parts| - 1]), parts[|parts| - 1];
            (inp.ids == [] || InTime(parts)) <==>
              && (IsValue(p) && p.formName == "client_ids" ==> front.files == [] || front.ids != [])
              && (IsFile(p) ==> front.ids == [] || |front.files| < |front.ids|)
  {
    var n := |parts| - 1;
    ReadLast(parts);
    InTimeNext(parts);
    if Files(parts[..n]) == [] {
      InTimeWithoutFiles(parts[..n]);
    }
    assert InTime(parts[..n]) ==> MoreIds(parts[..n]) by {
      assert parts[..n][..n] == parts[..n];
    }
  }

  lemma FormedNext(env: Env, parts: seq<Part>, channelId: string)
    requires parts != [] && Formed(env, parts[..|parts| - 1], channelId)
    ensures var n := |parts| - 1;
            Formed(env, parts, channelId) <==>
              Follows(env, Read(parts[..n]), ChannelMet(channelId, parts[..n]), parts[n])
  {
    var n := |parts| - 1;
    MetNext(channelId, parts);
    PlacedNext(env, parts, channelId);
    IdsInTimeNext(parts);
    FittingNext(ChannelsMet(channelId, parts[..n]), Cut(parts[n].content));
    AllKnownNext(parts);
  }

  lemma StoreTakesNext(env: Env, uploads: seq<Upload>, wanted: seq<Upload>, up: Upload)
    ensures StoreTakes(env, uploads, wanted + [up]) <==>
              StoreTakes(env, uploads, wanted) && env.upload(uploads + wanted, up).Some?
  {
    var all := wanted + [up];
    assert all[..|wanted|] == wanted && all[|wanted|] == up;
    assert forall i :: 0 <= i < |wanted| ==> all[..i] == wanted[..i] && all[i] == wanted[i];
  }

  /** The upload of the file `p` that comes next. */
  function UploadNext(inp: Input, met: string, p: Part): Upload
    requires inp.ids == [] || |inp.files| < |inp.ids|
  {
    UploadOf(met, p, if inp.ids == [] then "" else inp.ids[|inp.files|])
  }

  lemma WantedGrows(inp: Input, met: string, met': string, p: Part)
    requires inp.ids == [] || |inp.files| <= |inp.ids|
    requires inp.files != [] ==> met == met'
    requires IsValue(p) && p.formName == "client_ids" ==> inp.files == [] || inp.ids != []
    requires IsFile(p) ==> met == met' && (inp.ids == [] || |inp.files| < |inp.ids|)
    ensures var inp' := ReadPart(inp, p);
            && (inp'.ids == [] || |inp'.files| <= |inp'.ids|)
            && Wanted(met', inp'.files, inp'.ids)
               == Wanted(met, inp.files, inp.ids) + if IsFile(p) then [UploadNext(inp, met, p)] else []
  {
  }

  lemma WantedNext(env: Env, parts: seq<Part>, channelId: string)
    requires parts != [] && Formed(env, parts, channelId)
    ensures var n := |parts| - 1; var inp, p := Read(parts[..n]), parts[n];
            && (inp.ids == [] || |inp.files| <= |inp.ids|)
            && (IsFile(p) ==> inp.ids == [] || |inp.files| < |inp.ids|)
            && (Read(parts).ids == [] || |Read(parts).files| <= |Read(parts).ids|)
            && WantedOf(channelId, parts) ==
                 WantedOf(channelId, parts[..n])
                 + if IsFile(p) then [UploadNext(inp, ChannelMet(channelId, parts[..n]), p)] else []
  {
    var n := |parts| - 1;
    FormedPrefix(env, parts, n, channelId);
    FormedNext(env, parts, channelId);
    FilesHaveIds(env, parts[..n], channelId);
    ReadLast(parts);
    MetNext(channelId, parts);
    if Files(parts[..n]) != [] {
      ChannelStays(env, parts, n, channelId);
    }
    WantedGrows(Read(parts[..n]), ChannelMet(channelId, parts[..n]), ChannelMet(channelId, parts), parts[n]);
  }

  lemma StepFollows(env: Env, inp: Input, met: string, uploads: seq<Upload>, st: State, p: Part)
    requires StandsAt(env, inp, met, uploads, st)
    ensures Step(env, st, p, true).Continue? <==>
              && Follows(env, inp, met, p)
              && (IsFile(p) ==>
                    env.upload(uploads + Wanted(met, inp.files, inp.ids), UploadNext(inp, met, p)).Some?)
  {
  }

  /** A pass gets through `parts`. */
  lemma {:induction false} LoopAcceptsIff(env: Env, parts: seq<Part>, channelId: string, uploads: seq<Upload>)
    ensures Loop(env, parts, Initial(channelId, uploads), true).Continue? <==> Takes(env, parts, channelId, uploads)
  {
    if parts != [] {
      var n := |parts| - 1;
      var front, v := parts[..n], Loop(env, parts[..n], Initial(channelId, uploads), true);
      LoopAcceptsIff(env, front, channelId, uploads);
      if v.Continue? {
        LoopStands(env, front, channelId, uploads);
        StepFollows(env, Read(front), ChannelMet(channelId, front), uploads, v.st, parts[n]);
        FormedNext(env, parts, channelId);
        if Formed(env, parts, channelId) {
          TakesNext(env, parts, channelId, uploads);
        }
      } else if Takes(env, parts, channelId, uploads) {
        TakesPrefix(env, parts, n, channelId, uploads);
      }
    } else {
      assert ChannelsMet(channelId, parts) == [channelId];
    }
  }

  lemma TakesNext(env: Env, parts: seq<Part>, channelId: string, uploads: seq<Upload>)
    requires parts != [] && Formed(env, parts, channelId)
    requires Takes(env, parts[..|parts| - 1], channelId, uploads)
    ensures var n := |parts| - 1; var inp, p := Read(parts[..n]), parts[n];
            && (IsFile(p) ==> inp.ids == [] || |inp.files| < |inp.ids|)
            && (Takes(env, parts, channelId, uploads) <==>
                  (IsFile(p) ==> env.upload(uploads + WantedOf(channelId, parts[..n]),
                                            UploadNext(inp, ChannelMet(channelId, parts[..n]), p)).Some?))
  {
    var n := |parts| - 1;
    WantedNext(env, parts, channelId);
    if IsFile(parts[n]) {
      StoreTakesNext(env, uploads, WantedOf(channelId, parts[..n]),
                     UploadNext(Read(parts[..n]), ChannelMet(channelId, parts[..n]), parts[n]));
    } else {
      assert WantedOf(channelId, parts) == WantedOf(channelId, parts[..n]);
    }
  }

  // ---------- Stream passes ----------

  /** The answer to an acceptable form: every file uploaded, in order, to the channel met, under its client ID. */
  ghost predicate Fulfils(env: Env, b: Body, channelId: string, uploads: seq<Upload>, o: Outcome)
    requires Takes(env, b.parts, channelId, uploads)
  {
    var inp, wanted := Read(b.parts), WantedOf(channelId, b.parts);
    && o.result.Ok? && o.channelId == ChannelMet(channelId, b.parts) && o.uploads == uploads + wanted
    && o.result.value.clientIds == inp.ids && |o.result.value.fileInfos| == |inp.files|
    && forall i :: 0 <= i < |wanted| ==>
         env.upload(uploads + wanted[..i], wanted[i]) == Some(o.result.value.fileInfos[i])
  }

  /** A stream pass succeeds if and only if the body is complete; every form value is known and readable; all channel
      IDs from the first that is not empty on are the same; when a file comes the channel is known, valid and permitted;
      there is no client ID, or one for each file and none after its file; and the store takes each upload in turn. */
  lemma StreamAcceptsIff(env: Env, b: Body, channelId: string, uploads: seq<Upload>)
    ensures StreamPass(env, b, channelId, uploads).result.Ok? <==> Acceptable(env, b, channelId, uploads)
    ensures Acceptable(env, b, channelId, uploads) ==>
              Fulfils(env, b, channelId, uploads, StreamPass(env, b, channelId, uploads))
  {
    LoopAcceptsIff(env, b.parts, channelId, uploads);
    if Takes(env, b.parts, channelId, uploads) {
      LoopStands(env, b.parts, channelId, uploads);
    }
    var k := LoopTracks(env, b.parts, channelId, uploads);
  }

  // ---------- How a stream pass fails ----------

  /** The error for a part that cannot come next. */
  function Offence(env: Env, inp: Input, met: string, p: Part): Error {
    if IsValue(p) then
      if p.cut && |p.content| < MAX_FORM_VALUE then BadFormValue
      else if p.formName == "channel_id" then MultipleChannelIds
      else InvalidParam(p.formName)
    else if !ValidId(met) then InvalidUrlParam("channel_id")
    else if !env.mayUpload(met) then NoPermission
    else if inp.ids != [] && |inp.files| >= |inp.ids| then InvalidParam("client_ids")
    else UploadFailed
  }

  lemma TakesNothing(env: Env, channelId: string, uploads: seq<Upload>)
    ensures Takes(env, [], channelId, uploads)
  {
    LoopAcceptsIff(env, [], channelId, uploads);
  }

  lemma {:induction false} FirstOffence(env: Env, parts: seq<Part>, channelId: string, uploads: seq<Upload>)
    returns (k: nat)
    requires !Takes(env, parts, channelId, uploads)
    ensures k < |parts| && Takes(env, parts[..k], channelId, uploads) && !Takes(env, parts[..k + 1], channelId, uploads)
  {
    TakesNothing(env, channelId, uploads);
    k := |parts| - 1;
    assert parts[..k + 1] == parts;
    if !Takes(env, parts[..k], channelId, uploads) {
      var n := k;
      k := FirstOffence(env, parts[..n], channelId, uploads);
      assert parts[..n][..k] == parts[..k] && parts[..n][..k + 1] == parts[..k + 1];
    }
  }

  lemma StepOffends(env: Env, inp: Input, met: string, uploads: seq<Upload>, st: State, p: Part)
    requires StandsAt(env, inp, met, uploads, st) && !Step(env, st, p, true).Continue?
    ensures Step(env, st, p, true) == Failed(Offence(env, inp, met, p), st)
  {
  }

  /** A stream pass that is not acceptable uploads the files in front of the first part that does not fit and answers
      that part's error; if every part fits, it uploads them all and answers for the end of the body or the number of
      client IDs. */
  lemma StreamFailsAt(env: Env, b: Body, channelId: string, uploads: seq<Upload>)
    requires !Acceptable(env, b, channelId, uploads)
    ensures var o := StreamPass(env, b, channelId, uploads);
            if Takes(env, b.parts, channelId, uploads) then
              && o.result == Err(if b.clean then WrongNumberOfClientIds else BadRequest)
              && o.uploads == uploads + WantedOf(channelId, b.parts)
            else
              exists k :: 0 <= k < |b.parts|
                && Takes(env, b.parts[..k], channelId, uploads) && !Takes(env, b.parts[..k + 1], channelId, uploads)
                && o.result == Err(Offence(env, Read(b.parts[..k]), ChannelMet(channelId, b.parts[..k]), b.parts[k]))
                && o.uploads == uploads + WantedOf(channelId, b.parts[..k])
  {
    LoopAcceptsIff(env, b.parts, channelId, uploads);
    if Takes(env, b.parts, channelId, uploads) {
      LoopStands(env, b.parts, channelId, uploads);
    } else {
      var k := FirstOffence(env, b.parts, channelId, uploads);
      var front, st0 := b.parts[..k], Initial(channelId, uploads);
      LoopAcceptsIff(env, front, channelId, uploads);
      LoopAcceptsIff(env, b.parts[..k + 1], channelId, uploads);
      LoopStands(env, front, channelId, uploads);
      LoopStep(env, b.parts, k, st0, true);
      StepOffends(env, Read(front), ChannelMet(channelId, front), uploads, Loop(env, front, st0, true).st, b.parts[k]);
    }
  }

  // ---------- The buffered routine ----------

  /** What the buffered routine accepts: a whole body of which the values fit, with a valid and permitted first channel
      ID, no client ID or one for each file named "files", and a store that takes each upload in turn. */
  ghost predicate LegacyAcceptable(env: Env, b: Body, uploads: seq<Upload>) {
    var channels, ids := Values(b.parts, "channel_id"), Values(b.parts, "client_ids");
    var files := Named(Files(b.parts), "files");
    && b.clean && (forall p :: p in b.parts ==> !p.cut)
    && ValueBytes(b.parts) <= env.maxFileSize + READ_FORM_ALLOWANCE
    && channels != [] && ValidId(channels[0]) && env.mayUpload(channels[0])
    && (ids == [] || |ids| == |files|)
    && StoreTakes(env, uploads, Wanted(channels[0], files, ids))
  }

  lemma {:induction false} UploadFirstIff(env: Env, channelId: string, files: seq<Part>, ids: seq<string>,
                                          uploads: seq<Upload>, n: nat)
    requires n <= |files| && (ids == [] || |ids| == |files|)
    ensures var wanted, o := Wanted(channelId, files, ids), UploadFirst(env, channelId, files, ids, uploads, n);
            && (o.result.Ok? <==> StoreTakes(env, uploads, wanted[..n]))
            && (o.result.Ok? ==> o.uploads == uploads + wanted[..n] && o.channelId == channelId)
  {
    var wanted := Wanted(channelId, files, ids);
    if n > 0 {
      UploadFirstIff(env, channelId, files, ids, uploads, n - 1);
      StoreTakesNext(env, uploads, wanted[..n - 1], wanted[n - 1]);
      assert wanted[..n] == wanted[..n - 1] + [wanted[n - 1]];
    }
  }

  lemma LegacyAcceptsIff(env: Env, b: Body, channelId: string, uploads: seq<Upload>)
    ensures var o := Legacy(env, b, channelId, uploads);
            && (o.result.Ok? <==> LegacyAcceptable(env, b, uploads))
            && (o.result.Ok? ==>
                  var files, ids := Named(Files(b.parts), "files"), Values(b.parts, "client_ids");
                  && o.channelId == Values(b.parts, "channel_id")[0]
                  && o.uploads == uploads + Wanted(o.channelId, files, ids))
  {
    var channels, ids := Values(b.parts, "channel_id"), Values(b.parts, "client_ids");
    var files := Named(Files(b.parts), "files");
    assert (forall p :: p in b.parts ==> !p.cut) <==> forall i :: 0 <= i < |b.parts| ==> !b.parts[i].cut;
    if channels != [] && (ids == [] || |ids| == |files|) {
      UploadFirstIff(env, channels[0], files, ids, uploads, |files|);
      var wanted := Wanted(channels[0], files, ids);
      assert wanted[..|files|] == wanted;
    }
  }

  lemma {:induction false} OnlyStoreFails(env: Env, channelId: string, files: seq<Part>, ids: seq<string>,
                                          uploads: seq<Upload>, n: nat)
    requires n <= |files| && (ids == [] || |ids| == |files|)
    ensures var r := UploadFirst(env, channelId, files, ids, uploads, n).result; r.Ok? || r.error == UploadFailed
  {
    if n > 0 {
      OnlyStoreFails(env, channelId, files, ids, uploads, n - 1);
    }
  }

  /** The errors of the buffered routine, in their order; only the last comes after an upload. */
  lemma LegacyReasons(env: Env, b: Body, channelId: string, uploads: seq<Upload>)
    ensures var o := Legacy(env, b, channelId, uploads);
            var channels, ids := Values(b.parts, "channel_id"), Values(b.parts, "client_ids");
            var files := Named(Files(b.parts), "files");
            var readable := && b.clean && (forall p :: p in b.parts ==> !p.cut)
                            && ValueBytes(b.parts) <= env.maxFileSize + READ_FORM_ALLOWANCE;
            && (!readable <==> o.result == Err(BadRequest))
            && (readable && channels == [] <==> o.result == Err(InvalidParam("channel_id")))
            && (readable && channels != [] ==>
                  var valid, may := ValidId(channels[0]), env.mayUpload(channels[0]);
                  var numbers := ids == [] || |ids| == |files|;
                  && (!valid <==> o.result == Err(InvalidUrlParam("channel_id")))
                  && (valid && !may <==> o.result == Err(NoPermission))
                  && (valid && may && !numbers <==> o.result == Err(WrongNumberOfClientIds))
                  && (valid && may && numbers && !StoreTakes(env, uploads, Wanted(channels[0], files, ids)) <==>
                        o.result == Err(UploadFailed)))
            && (o.uploads != uploads ==> o.result.Ok? || o.result == Err(UploadFailed))
  {
    var channels, ids := Values(b.parts, "channel_id"), Values(b.parts, "client_ids");
    var files := Named(Files(b.parts), "files");
    LegacyAcceptsIff(env, b, channelId, uploads);
    assert (forall p :: p in b.parts ==> !p.cut) <==> forall i :: 0 <= i < |b.parts| ==> !b.parts[i].cut;
    if channels != [] && (ids == [] || |ids| == |files|) {
      OnlyStoreFails(env, channels[0], files, ids, uploads, |files|);
    }
  }

  /** The bytes that count against the limit of the form reader are those of all form values. */
  lemma {:induction false} ValueBytesAdd(parts: seq<Part>, more: seq<Part>)
    ensures ValueBytes(parts + more) == ValueBytes(parts) + ValueBytes(more)
    ensures |more| == 1 ==> ValueBytes(more) == if IsValue(more[0]) then |more[0].content| else 0
  {
    if more == [] {
      assert parts + more == parts;
    } else {
      var n := |more| - 1;
      ValueBytesAdd(parts, more[..n]);
      assert (parts + more)[..|parts| + n] == parts + more[..n];
    }
  }

  // ---------- Requests without a channel ID in the URL ----------

  /** The part at which the first pass decides between the two routines. */
  predicate Decides(p: Part) { IsChannel(p) || IsFile(p) }

  lemma {:induction false} PlainPass(env: Env, parts: seq<Part>, uploads: seq<Upload>)
    requires forall p :: p in parts ==> !Decides(p)
    ensures Loop(env, parts, Initial("", uploads), false) == Loop(env, parts, Initial("", uploads), true)
    ensures Read(parts).files == [] && Read(parts).channels == []
  {
    if parts != [] {
      var n := |parts| - 1;
      assert parts == parts[..n] + [parts[n]];
      PlainPass(env, parts[..n], uploads);
      assert !Decides(parts[n]);
      ReadLast(parts);
    }
  }

  lemma PlainTakesIff(env: Env, parts: seq<Part>, uploads: seq<Upload>)
    requires forall p :: p in parts ==> !Decides(p)
    ensures Takes(env, parts, "", uploads) <==> AllKnown(parts)
    ensures Takes(env, parts, "", uploads) ==> WantedOf("", parts) == []
  {
    PlainPass(env, parts, uploads);
    InTimeWithoutFiles(parts);
    assert forall k :: 0 <= k < |parts| ==> parts[k] in parts;
  }

  /** What the first pass makes of the part `p` behind `front`, which has got it nowhere. */
  lemma DecidingStep(env: Env, front: seq<Part>, p: Part, uploads: seq<Upload>, st: State)
    requires Stands(env, front, "", uploads, st) && Decides(p)
    requires Read(front).files == [] && Read(front).channels == []
    ensures Step(env, st, p, false) ==
              if IsFile(p) then Fallback(st)
              else if !KnownValue(p) then Failed(BadFormValue, st)
              else Restart(st.(channelId := Cut(p.content)))
    ensures st.uploads == uploads && st.channelId == ""
  {
    assert WantedOf("", front) == [];
  }

  lemma PlainRequest(env: Env, b: Body, uploads: seq<Upload>)
    requires forall p :: p in b.parts ==> !Decides(p)
    ensures Multipart(env, b, "", uploads) == StreamPass(env, b, "", uploads)
  {
    PlainPass(env, b.parts, uploads);
    var k := LoopTracks(env, b.parts, "", uploads);
  }

  lemma UnknownInFront(env: Env, b: Body, uploads: seq<Upload>)
    requires !AllKnown(Until(b.parts, Decides))
    ensures Multipart(env, b, "", uploads).result.Err?
  {
    var front := Until(b.parts, Decides);
    UntilStops(b.parts, Decides);
    PlainPass(env, front, uploads);
    PlainTakesIff(env, front, uploads);
    LoopAcceptsIff(env, front, "", uploads);
    var k := LoopTracks(env, front, "", uploads);
    assert front == b.parts[..|front|];
    LoopOfPrefix(env, b.parts, |front|, Initial("", uploads), false);
  }

  /** What becomes of a request without a channel ID in its URL. */
  lemma FirstPassDecides(env: Env, b: Body, uploads: seq<Upload>)
    requires var front := Until(b.parts, Decides); |front| < |b.parts| && AllKnown(front)
    ensures var p, o := b.parts[|Until(b.parts, Decides)|], Multipart(env, b, "", uploads);
            && Decides(p)
            && if IsFile(p) then o == Legacy(env, b, "", uploads)
               else if KnownValue(p) then o == StreamPass(env, b, Cut(p.content), uploads)
               else o.result.Err?
  {
    var front, st0 := Until(b.parts, Decides), Initial("", uploads);
    UntilStops(b.parts, Decides);
    PlainPass(env, front, uploads);
    PlainTakesIff(env, front, uploads);
    LoopAcceptsIff(env, front, "", uploads);
    LoopStands(env, front, "", uploads);
    assert front == b.parts[..|front|];
    LoopStep(env, b.parts, |front|, st0, false);
    DecidingStep(env, front, b.parts[|front|], uploads, Loop(env, front, st0, false).st);
  }

  lemma MetOnlyHere(channelId: string, channelId': string, parts: seq<Part>)
    requires Read(parts).channels != []
    ensures ChannelMet(channelId, parts) == ChannelMet(channelId', parts)
  {
  }

  /** The first channel ID of the form, when no file comes in front of it. */
  lemma FirstIsMet(env: Env, parts: seq<Part>, uploads: seq<Upload>, k: nat)
    requires var n := |Until(parts, Decides)|; n < |parts| && IsChannel(parts[n]) && n < k <= |parts|
    ensures var first := Cut(parts[|Until(parts, Decides)|].content);
            Read(parts[..k]).channels != [] && Read(parts[..k]).channels[0] == first
  {
    var n := |Until(parts, Decides)|;
    UntilStops(parts, Decides);
    PlainPass(env, parts[..n], uploads);
    ReadLast(parts[..n + 1]);
    assert parts[..n + 1][..n] == parts[..n] == Until(parts, Decides);
    assert parts[..k][..n + 1] == parts[..n + 1];
    ReadOfPrefix(parts[..k], n + 1);
  }

  lemma FittingFirst(first: string, ids: seq<string>)
    ensures Fitting([first] + ids) <==> Fitting(ids) && (first == "" || forall i :: 0 <= i < |ids| ==> ids[i] == first)
  {
    var all := [first] + ids;
    assert forall i :: 0 <= i < |ids| ==> all[i + 1] == ids[i];
    if Fitting(all) {
      forall i, j | 0 <= i < j < |ids| && ids[i] != ""
        ensures ids[j] == ids[i]
      {
        assert all[i + 1] == ids[i] && all[j + 1] == ids[j];
      }
      forall i | 0 <= i < |ids| && first != ""
        ensures ids[i] == first
      {
        assert all[i + 1] == all[0];
      }
    }
    if Fitting(ids) && (first == "" || forall i :: 0 <= i < |ids| ==> ids[i] == first) {
      forall i, j | 0 <= i < j < |all| && all[i] != ""
        ensures all[j] == all[i]
      {
        assert all[j] == ids[j - 1] && (i > 0 ==> all[i] == ids[i - 1]);
      }
    }
  }

  lemma FirstFits(first: string, ids: seq<string>)
    requires ids != [] && ids[0] == first
    ensures Fitting([first] + ids) <==> Fitting([""] + ids)
  {
    FittingFirst(first, ids);
    FittingFirst("", ids);
  }

  lemma RestartPlacesSame(env: Env, parts: seq<Part>, uploads: seq<Upload>)
    requires var n := |Until(parts, Decides)|; n < |parts| && IsChannel(parts[n])
    ensures var first := Cut(parts[|Until(parts, Decides)|].content);
            Placed(env, parts, first) <==> Placed(env, parts, "")
  {
    var n := |Until(parts, Decides)|;
    UntilStops(parts, Decides);
    assert forall k :: 0 <= k < n ==> parts[k] in Until(parts, Decides);
    forall k | 0 <= k < |parts| && IsFile(parts[k])
      ensures ChannelMet(Cut(parts[n].content), parts[..k]) == ChannelMet("", parts[..k])
    {
      FirstIsMet(env, parts, uploads, k);
      MetOnlyHere(Cut(parts[n].content), "", parts[..k]);
    }
  }

  /** Restarting with the first channel ID of the form accepts what a pass without any accepts. */
  lemma RestartAcceptsSame(env: Env, b: Body, uploads: seq<Upload>)
    requires var n := |Until(b.parts, Decides)|; n < |b.parts| && IsChannel(b.parts[n])
    ensures var first := Cut(b.parts[|Until(b.parts, Decides)|].content);
            Acceptable(env, b, first, uploads) <==> Acceptable(env, b, "", uploads)
  {
    var parts, first := b.parts, Cut(b.parts[|Until(b.parts, Decides)|].content);
    RestartPlacesSame(env, parts, uploads);
    UntilStops(parts, Decides);
    FirstIsMet(env, parts, uploads, |parts|);
    assert parts[..|parts|] == parts;
    FirstFits(first, Read(parts).channels);
    MetOnlyHere(first, "", parts);
  }

  /** A request without a channel ID in its URL succeeds if and only if, when a file comes first, the values in front of
      it are known and the buffered routine accepts the form, and otherwise a stream pass does. */
  lemma RequestAcceptsIff(env: Env, b: Body, uploads: seq<Upload>)
    ensures var n := |Until(b.parts, Decides)|;
            && n <= |b.parts|
            && (Multipart(env, b, "", uploads).result.Ok? <==>
                  if n < |b.parts| && IsFile(b.parts[n])
                  then AllKnown(b.parts[..n]) && LegacyAcceptable(env, b, uploads)
                  else Acceptable(env, b, "", uploads))
  {
    var n := |Until(b.parts, Decides)|;
    UntilStops(b.parts, Decides);
    assert Until(b.parts, Decides) == b.parts[..n];
    LegacyAcceptsIff(env, b, "", uploads);
    StreamAcceptsIff(env, b, "", uploads);
    if n == |b.parts| {
      PlainRequest(env, b, uploads);
    } else if !AllKnown(b.parts[..n]) {
      UnknownInFront(env, b, uploads);
      if Acceptable(env, b, "", uploads) {
        FormedPrefix(env, b.parts, n, "");
      }
    } else {
      FirstPassDecides(env, b, uploads);
      if !IsFile(b.parts[n]) {
        RestartAcceptsSame(env, b, uploads);
        StreamAcceptsIff(env, b, Cut(b.parts[n].content), uploads);
      }
    }
  }

  // ---------- Requests with a channel ID in the URL ----------

  /** A request with a channel ID in its URL succeeds if and only if a pass accepts the form, and, when the form has a
      channel ID too, a first pass gets through the parts in front of it; the store is then asked for these twice. */
  lemma UrlRequestAcceptsIff(env: Env, b: Body, channelId: string, uploads: seq<Upload>)
    requires channelId != ""
    ensures var front := Until(b.parts, IsChannel);
            Multipart(env, b, channelId, uploads).result.Ok? <==>
              if |front| == |b.parts| then Acceptable(env, b, channelId, uploads)
              else Takes(env, front, channelId, uploads)
                   && Acceptable(env, b, channelId, uploads + WantedOf(channelId, front))
  {
    var front := Until(b.parts, IsChannel);
    UntilStops(b.parts, IsChannel);
    UrlFirstPass(env, b.parts, channelId, uploads);
    LoopAcceptsIff(env, front, channelId, uploads);
    if |front| == |b.parts| {
      assert front == b.parts;
      StreamAcceptsIff(env, b, channelId, uploads);
    } else if Takes(env, front, channelId, uploads) {
      LoopStands(env, front, channelId, uploads);
      StreamAcceptsIff(env, b, channelId, uploads + WantedOf(channelId, front));
      if Acceptable(env, b, channelId, uploads + WantedOf(channelId, front)) {
        UrlIdIsRepeated(env, b.parts, channelId, |front|);
      }
    }
  }

  lemma UrlIdIsRepeated(env: Env, parts: seq<Part>, channelId: string, k: nat)
    requires channelId != "" && Formed(env, parts, channelId) && k < |parts| && IsChannel(parts[k])
    ensures KnownValue(parts[k]) && Cut(parts[k].content) == channelId
  {
    ReadOfPrefix(parts, k + 1);
    ReadLast(parts[..k + 1]);
    var met, i := ChannelsMet(channelId, parts), |Read(parts[..k + 1]).channels|;
    assert met[i] == Cut(parts[k].content) && met[0] == channelId;
  }
}
