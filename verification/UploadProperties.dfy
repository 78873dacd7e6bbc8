/** What the multipart upload promises: restart safety, pairing of client IDs, agreement of the two routines. */
module UploadProperties {
  import opened Prelude
  import opened UploadSpec

  // ---------- The stream pass, prefix by prefix ----------

  function CutAll(vs: seq<string>): seq<string> { seq(|vs|, i requires 0 <= i < |vs| => Cut(vs[i])) }

  /** What the pass read, by kind: the files, the client IDs and the channel IDs, each in order of arrival. */
  datatype Input = Input(files: seq<Part>, ids: seq<string>, channels: seq<string>)

  function Read(parts: seq<Part>): Input {
    Input(Files(parts), CutAll(Values(parts, "client_ids")), CutAll(Values(parts, "channel_id")))
  }

  function ReadPart(inp: Input, p: Part): Input {
    if IsFile(p) then inp.(files := inp.files + [p])
    else if IsValue(p) && p.formName == "client_ids" then inp.(ids := inp.ids + [Cut(p.content)])
    else if IsValue(p) && p.formName == "channel_id" then inp.(channels := inp.channels + [Cut(p.content)])
    else inp
  }

  lemma ReadLast(parts: seq<Part>)
    requires parts != []
    ensures Read(parts) == ReadPart(Read(parts[..|parts| - 1]), parts[|parts| - 1])
  {
  }

  /** The upload that file `i` must have become. */
  function Expected(inp: Input, st: State, i: nat): Upload
    requires i < |inp.files| && (st.expectClientIds ==> |inp.files| <= |inp.ids|)
  {
    UploadOf(st.channelId, inp.files[i], if st.expectClientIds then inp.ids[i] else "")
  }

  /** The variables of the loop in terms of what was read, for a pass begun with `channelId` and `uploads`. */
  ghost predicate Tracks(env: Env, inp: Input, channelId: string, uploads: seq<Upload>, st: State) {
    var n, base := |inp.files|, |uploads|;
    && st.clientIds == inp.ids && |st.infos| == n && |st.uploads| == base + n && st.uploads[..base] == uploads
    && (n == 0 ==> st.expectClientIds)
    && (if st.expectClientIds then n <= |inp.ids| else inp.ids == [])
    && st.respIds == (if st.expectClientIds then inp.ids[..n] else [])
    && (n > 0 ==> ValidId(st.channelId) && env.mayUpload(st.channelId))
    && (channelId != "" ==> st.channelId == channelId)
    && (forall i :: 0 <= i < n ==> st.uploads[base + i] == Expected(inp, st, i))
    && (forall i :: 0 <= i < n ==> env.upload(st.uploads[..base + i], st.uploads[base + i]) == Some(st.infos[i]))
    && (forall v :: v in inp.channels ==> v == st.channelId || (v == "" && channelId == ""))
  }

  lemma FileStepTracks(env: Env, inp: Input, p: Part, channelId: string, uploads: seq<Upload>, st: State, st': State)
    requires Tracks(env, inp, channelId, uploads, st) && IsFile(p) && FileStep(env, st, p, true) == Continue(st')
    ensures Tracks(env, ReadPart(inp, p), channelId, uploads, st')
  {
    var base, n, inp' := |uploads|, |inp.files|, ReadPart(inp, p);
    forall i | 0 <= i < n + 1
      ensures st'.uploads[base + i] == Expected(inp', st', i)
      ensures env.upload(st'.uploads[..base + i], st'.uploads[base + i]) == Some(st'.infos[i])
    {
      assert st'.uploads[..base + i] == st.uploads[..base + i];
      if i == n {
        assert st.uploads[..base + n] == st.uploads;
      } else {
        assert st.uploads[base + i] == Expected(inp, st, i);
      }
    }
  }

  lemma ValueStepTracks(env: Env, inp: Input, p: Part, channelId: string, uploads: seq<Upload>, st: State, st': State)
    requires Tracks(env, inp, channelId, uploads, st) && IsValue(p) && ValueStep(st, p, true) == Continue(st')
    ensures Tracks(env, ReadPart(inp, p), channelId, uploads, st')
  {
    forall i | 0 <= i < |inp.files|
      ensures st'.uploads[|uploads| + i] == Expected(ReadPart(inp, p), st', i)
    {
      assert st.uploads[|uploads| + i] == Expected(inp, st, i);
    }
  }

  lemma StepTracks(env: Env, inp: Input, p: Part, channelId: string, uploads: seq<Upload>, st: State, v: Verdict)
    requires Tracks(env, inp, channelId, uploads, st) && v == Step(env, st, p, true)
    ensures v.Continue? || (v.Failed? && v.st == st)
    ensures v.Continue? ==> Tracks(env, ReadPart(inp, p), channelId, uploads, v.st)
  {
    if v.Continue? {
      if IsFile(p) {
        FileStepTracks(env, inp, p, channelId, uploads, st, v.st);
      } else if IsValue(p) {
        ValueStepTracks(env, inp, p, channelId, uploads, st, v.st);
      }
    }
  }

  ghost predicate TracksUpTo(env: Env, parts: seq<Part>, k: nat, channelId: string, uploads: seq<Upload>, v: Verdict) {
    && k <= |parts|
    && Tracks(env, Read(parts[..k]), channelId, uploads, v.st)
    && (if k == |parts| then v.Continue? else v.Failed?)
  }

  lemma TracksNext(env: Env, parts: seq<Part>, channelId: string, uploads: seq<Upload>, v: Verdict, p: Part)
    requires TracksUpTo(env, parts, |parts|, channelId, uploads, v)
    ensures var v' := Step(env, v.st, p, true);
            TracksUpTo(env, parts + [p], if v'.Continue? then |parts| + 1 else |parts|, channelId, uploads, v')
  {
    var all, n := parts + [p], |parts|;
    assert parts[..n] == all[..n] == parts && all[..n + 1] == all;
    ReadLast(all);
    StepTracks(env, Read(parts), p, channelId, uploads, v.st, Step(env, v.st, p, true));
  }

  /** Every stream pass, up to its end or its first error, has done exactly what the parts read so far ask for. */
  lemma {:induction false} LoopTracks(env: Env, parts: seq<Part>, channelId: string, uploads: seq<Upload>)
    returns (k: nat)
    ensures TracksUpTo(env, parts, k, channelId, uploads, Loop(env, parts, Initial(channelId, uploads), true))
  {
    if parts == [] {
      k := 0;
      assert Initial(channelId, uploads).uploads[..|uploads|] == uploads;
    } else {
      var n := |parts| - 1;
      k := LoopTracks(env, parts[..n], channelId, uploads);
      var v := Loop(env, parts[..n], Initial(channelId, uploads), true);
      if v.Continue? {
        assert parts == parts[..n] + [parts[n]];
        TracksNext(env, parts[..n], channelId, uploads, v, parts[n]);
        k := if Step(env, v.st, parts[n], true).Continue? then n + 1 else n;
      } else {
        assert parts[..n][..k] == parts[..k];
      }
    }
  }

  // ---------- Pairing of client IDs with files ----------

  /** Whatever the interleaving of values and files, a successful stream pass uploaded every file part, in order; and
      either no client ID was received and none returned, or there was one per file and file `i` got the `i`-th. */
  lemma ClientIdPairing(env: Env, b: Body, channelId: string, uploads: seq<Upload>)
    requires StreamPass(env, b, channelId, uploads).result.Ok?
    ensures var o, inp := StreamPass(env, b, channelId, uploads), Read(b.parts);
            var r := o.result.value;
            && |o.uploads| == |uploads| + |inp.files| && |r.fileInfos| == |inp.files|
            && r.clientIds == inp.ids && (inp.ids == [] || |inp.ids| == |inp.files|)
            && forall i :: 0 <= i < |inp.files| ==>
                 o.uploads[|uploads| + i] ==
                 UploadOf(o.channelId, inp.files[i], if inp.ids == [] then "" else inp.ids[i])
  {
    var k := LoopTracks(env, b.parts, channelId, uploads);
    assert b.parts[..|b.parts|] == b.parts;
    var st, inp := Loop(env, b.parts, Initial(channelId, uploads), true).st, Read(b.parts);
    forall i | 0 <= i < |inp.files|
      ensures st.uploads[|uploads| + i] ==
              UploadOf(st.channelId, inp.files[i], if inp.ids == [] then "" else inp.ids[i])
    {
      assert st.uploads[|uploads| + i] == Expected(inp, st, i);
    }
  }

  predicate KnownValue(p: Part) {
    IsValue(p) ==> p.formName in {"channel_id", "client_ids"} && !(p.cut && |p.content| < MAX_FORM_VALUE)
  }

  lemma {:induction false} LoopKnowsValues(env: Env, parts: seq<Part>, st: State)
    requires Loop(env, parts, st, true).Continue?
    ensures forall p :: p in parts ==> KnownValue(p)
  {
    if parts != [] {
      var n := |parts| - 1;
      LoopKnowsValues(env, parts[..n], st);
      assert parts == parts[..n] + [parts[n]];
    }
  }

  /** What a successful stream pass has checked: the body is complete, every form value is known and readable, and every
      channel ID sent is the one uploaded to (or empty, if there was none before). */
  lemma AcceptedForm(env: Env, b: Body, channelId: string, uploads: seq<Upload>)
    requires StreamPass(env, b, channelId, uploads).result.Ok?
    ensures b.clean && forall p :: p in b.parts ==> KnownValue(p)
    ensures forall v :: v in Read(b.parts).channels ==>
                          v == StreamPass(env, b, channelId, uploads).channelId || (v == "" && channelId == "")
  {
    var k := LoopTracks(env, b.parts, channelId, uploads);
    assert b.parts[..|b.parts|] == b.parts;
    LoopKnowsValues(env, b.parts, Initial(channelId, uploads));
  }

  // ---------- Restart safety ----------

  /** The upload is that of the file, as far as it was received. */
  predicate SameFile(up: Upload, file: Part) {
    up.fileName == file.fileName && up.content == file.content && up.cut == file.cut
  }

  /** `after` extends `before` by the uploads of the first `n` files, one each, in order. */
  ghost predicate UploadedInOrder(before: seq<Upload>, after: seq<Upload>, files: seq<Part>, n: nat) {
    && n <= |files| && |after| == |before| + n && after[..|before|] == before
    && forall i :: 0 <= i < n ==>
         SameFile(after[|before| + i], files[i])
  }

  /** A first pass without a channel ID in the URL: it has uploaded nothing, and it leaves the parts it has read only
      when it meets a channel ID (which it then remembers) or a file. */
  ghost predicate FirstPass(v: Verdict, inp: Input, uploads: seq<Upload>) {
    && v.st.uploads == uploads && v.st.infos == [] && v.st.respIds == []
    && (v.Restart? ==> inp.channels != [] && inp.channels[0] == v.st.channelId)
    && (!v.Restart? ==> v.st.channelId == "")
    && (v.Continue? ==> inp.files == [] && inp.channels == [])
    && (v.Fallback? ==> inp.files != [])
  }

  lemma FirstPassStep(env: Env, v: Verdict, inp: Input, uploads: seq<Upload>, p: Part)
    requires FirstPass(v, inp, uploads)
    ensures FirstPass(if v.Continue? then Step(env, v.st, p, false) else v, ReadPart(inp, p), uploads)
  {
  }

  lemma {:induction false} FirstPassUploadsNothing(env: Env, parts: seq<Part>, uploads: seq<Upload>)
    ensures FirstPass(Loop(env, parts, Initial("", uploads), false), Read(parts), uploads)
  {
    if parts != [] {
      var n := |parts| - 1;
      FirstPassUploadsNothing(env, parts[..n], uploads);
      FirstPassStep(env, Loop(env, parts[..n], Initial("", uploads), false), Read(parts[..n]), uploads, parts[n]);
      ReadLast(parts);
    }
  }

  lemma {:induction false} FilesOfPrefix(parts: seq<Part>, k: nat)
    requires k <= |parts|
    ensures Files(parts[..k]) <= Files(parts)
  {
    if k < |parts| {
      var n := |parts| - 1;
      FilesOfPrefix(parts[..n], k);
      assert parts[..n][..k] == parts[..k];
    } else {
      assert parts[..k] == parts;
    }
  }

  lemma PassUploadsInOrder(env: Env, parts: seq<Part>, channelId: string, uploads: seq<Upload>)
    ensures var v := Loop(env, parts, Initial(channelId, uploads), true);
            && |uploads| <= |v.st.uploads|
            && UploadedInOrder(uploads, v.st.uploads, Files(parts), |v.st.uploads| - |uploads|)
            && (v.Continue? ==> |v.st.uploads| - |uploads| == |Files(parts)|)
            && (v.Continue? || v.Failed?)
  {
    var k := LoopTracks(env, parts, channelId, uploads);
    assert parts[..|parts|] == parts;
    FilesOfPrefix(parts, k);
    var st, inp := Loop(env, parts, Initial(channelId, uploads), true).st, Read(parts[..k]);
    forall i | 0 <= i < |inp.files|
      ensures SameFile(st.uploads[|uploads| + i], Files(parts)[i])
    {
      assert st.uploads[|uploads| + i] == Expected(inp, st, i);
    }
  }

  lemma StreamUploadsInOrder(env: Env, b: Body, channelId: string, uploads: seq<Upload>)
    ensures var o, files := StreamPass(env, b, channelId, uploads), Files(b.parts);
            && |uploads| <= |o.uploads|
            && UploadedInOrder(uploads, o.uploads, files, |o.uploads| - |uploads|)
            && (o.result.Ok? ==> |o.uploads| - |uploads| == |files|)
  {
    PassUploadsInOrder(env, b.parts, channelId, uploads);
  }

  lemma InOrderNext(before: seq<Upload>, after: seq<Upload>, files: seq<Part>, n: nat, up: Upload)
    requires n < |files| && UploadedInOrder(before, after, files, n) && SameFile(up, files[n])
    ensures UploadedInOrder(before, after + [up], files, n + 1)
  {
  }

  lemma {:induction false} LegacyUploadsInOrder(env: Env, channelId: string, files: seq<Part>, ids: seq<string>,
                                                uploads: seq<Upload>, n: nat)
    requires n <= |files| && (ids == [] || |ids| == |files|)
    ensures var o := UploadFirst(env, channelId, files, ids, uploads, n);
            && |uploads| <= |o.uploads|
            && UploadedInOrder(uploads, o.uploads, files, |o.uploads| - |uploads|)
            && (o.result.Ok? ==> |o.uploads| == |uploads| + n && |o.result.value.fileInfos| == n)
            && (o.result.Err? ==> |o.uploads| < |uploads| + n)
  {
    if n > 0 {
      LegacyUploadsInOrder(env, channelId, files, ids, uploads, n - 1);
      var o := UploadFirst(env, channelId, files, ids, uploads, n - 1);
      if o.result.Ok? {
        InOrderNext(uploads, o.uploads, files, n - 1,
                    UploadOf(channelId, files[n - 1], if ids == [] then "" else ids[n - 1]));
      }
    }
  }

  /** Over the whole request, restart or fallback included, the file parts taken (every one in stream mode, those named
      "files" in the buffered routine) are uploaded at most once each, in order, and all of them on success. */
  lemma RestartSafety(env: Env, b: Body, uploads: seq<Upload>)
    ensures var first, o := Loop(env, b.parts, Initial("", uploads), false), Multipart(env, b, "", uploads);
            var taken := if first.Fallback? then Named(Files(b.parts), "files") else Files(b.parts);
            && first.st.uploads == uploads
            && |uploads| <= |o.uploads|
            && UploadedInOrder(uploads, o.uploads, taken, |o.uploads| - |uploads|)
            && (o.result.Ok? ==> |o.uploads| - |uploads| == |taken|)
  {
    FirstPassUploadsNothing(env, b.parts, uploads);
    var first := Loop(env, b.parts, Initial("", uploads), false);
    match first
    case Restart(st) => StreamUploadsInOrder(env, b, st.channelId, uploads);
    case Fallback(st) =>
      var form := FormOf(b);
      if form.clientIds == [] || |form.clientIds| == |form.files| {
        LegacyUploadsInOrder(env, if form.channelIds == [] then "" else form.channelIds[0], form.files, form.clientIds,
                             uploads, |form.files|);
      }
    case _ =>
  }

  /** All uploads beyond `before` went to `channelId`, which is valid and open to the session. */
  ghost predicate OnlyTo(env: Env, before: seq<Upload>, after: seq<Upload>, channelId: string) {
    && |before| <= |after|
    && (|before| < |after| ==> ValidId(channelId) && env.mayUpload(channelId))
    && forall i :: |before| <= i < |after| ==> after[i].channelId == channelId
  }

  lemma {:induction false} LegacyUploadsOnlyTo(env: Env, channelId: string, files: seq<Part>, ids: seq<string>,
                                               uploads: seq<Upload>, n: nat)
    requires n <= |files| && (ids == [] || |ids| == |files|) && ValidId(channelId) && env.mayUpload(channelId)
    ensures var o := UploadFirst(env, channelId, files, ids, uploads, n);
            o.channelId == channelId && OnlyTo(env, uploads, o.uploads, channelId)
  {
    if n > 0 {
      LegacyUploadsOnlyTo(env, channelId, files, ids, uploads, n - 1);
    }
  }

  lemma StreamUploadsOnlyTo(env: Env, b: Body, channelId: string, uploads: seq<Upload>)
    ensures var o := StreamPass(env, b, channelId, uploads); OnlyTo(env, uploads, o.uploads, o.channelId)
  {
    var k := LoopTracks(env, b.parts, channelId, uploads);
    var st, inp := Loop(env, b.parts, Initial(channelId, uploads), true).st, Read(b.parts[..k]);
    forall k | |uploads| <= k < |st.uploads|
      ensures st.uploads[k].channelId == st.channelId
    {
      var i := k - |uploads|;
      assert st.uploads[|uploads| + i] == Expected(inp, st, i);
    }
  }

  /** Whatever the parts, and however the request ends, every file it uploaded went to one valid channel in which the
      session may upload, whichever routine took it. */
  lemma UploadsArePermitted(env: Env, b: Body, uploads: seq<Upload>)
    ensures var o := Multipart(env, b, "", uploads); OnlyTo(env, uploads, o.uploads, o.channelId)
  {
    FirstPassUploadsNothing(env, b.parts, uploads);
    match Loop(env, b.parts, Initial("", uploads), false)
    case Restart(st) => StreamUploadsOnlyTo(env, b, st.channelId, uploads);
    case Fallback(st) =>
      var form := FormOf(b);
      if form.channelIds != [] && ValidId(form.channelIds[0]) && env.mayUpload(form.channelIds[0])
         && (form.clientIds == [] || |form.clientIds| == |form.files|) {
        LegacyUploadsOnlyTo(env, form.channelIds[0], form.files, form.clientIds, uploads, |form.files|);
      }
    case _ =>
  }

  // ---------- A channel ID in the URL ----------

  predicate IsChannel(p: Part) { IsValue(p) && p.formName == "channel_id" }

  /** The parts in front of the first one that `stop` tells of. */
  function Until(parts: seq<Part>, stop: Part -> bool): seq<Part> {
    if parts == [] then []
    else
      var n := |parts| - 1;
      var front := Until(parts[..n], stop);
      if |front| == n && !stop(parts[n]) then parts else front
  }

  lemma {:induction false} UntilStops(parts: seq<Part>, stop: Part -> bool)
    ensures Until(parts, stop) <= parts
    ensures forall p :: p in Until(parts, stop) ==> !stop(p)
    ensures |Until(parts, stop)| < |parts| ==> stop(parts[|Until(parts, stop)|])
  {
    if parts != [] {
      var n := |parts| - 1;
      UntilStops(parts[..n], stop);
      assert parts == parts[..n] + [parts[n]];
    }
  }

  function WithUploads(v: Verdict, uploads: seq<Upload>): Verdict { v.(st := v.st.(uploads := uploads)) }

  lemma StepWithoutFile(env: Env, st: State, p: Part, others: seq<Upload>)
    requires !IsFile(p)
    ensures var v := Step(env, st, p, true);
            v.st.uploads == st.uploads && Step(env, st.(uploads := others), p, true) == WithUploads(v, others)
  {
  }

  /** As long as no file has come, a pass does not depend on what was uploaded before. */
  lemma {:induction false} LoopWithoutFiles(env: Env, parts: seq<Part>, channelId: string, uploads: seq<Upload>,
                                            others: seq<Upload>)
    requires forall p :: p in parts ==> !IsFile(p)
    ensures var v := Loop(env, parts, Initial(channelId, uploads), true);
            var w := Loop(env, parts, Initial(channelId, others), true);
            v.st.uploads == uploads && w == WithUploads(v, others)
  {
    if parts != [] {
      var n := |parts| - 1;
      assert parts == parts[..n] + [parts[n]];
      LoopWithoutFiles(env, parts[..n], channelId, uploads, others);
      assert !IsFile(parts[n]);
      StepWithoutFile(env, Loop(env, parts[..n], Initial(channelId, uploads), true).st, parts[n], others);
    }
  }

  lemma ChannelKept(env: Env, parts: seq<Part>, channelId: string, uploads: seq<Upload>)
    requires channelId != ""
    ensures Loop(env, parts, Initial(channelId, uploads), true).st.channelId == channelId
  {
    var k := LoopTracks(env, parts, channelId, uploads);
  }

  /** Up to the first channel ID of the form, the first pass is a stream pass. */
  lemma {:induction false} FirstPassStreams(env: Env, parts: seq<Part>, channelId: string, uploads: seq<Upload>)
    requires channelId != "" && forall p :: p in parts ==> !IsChannel(p)
    ensures Loop(env, parts, Initial(channelId, uploads), false) == Loop(env, parts, Initial(channelId, uploads), true)
  {
    if parts != [] {
      var n := |parts| - 1;
      assert parts == parts[..n] + [parts[n]];
      FirstPassStreams(env, parts[..n], channelId, uploads);
      ChannelKept(env, parts[..n], channelId, uploads);
      assert !IsChannel(parts[n]);
    }
  }

  /** A first pass with the channel ID of the URL: it never falls back, and it restarts exactly when it has got through
      the parts in front of the first channel ID of the form and reads there the ID of the URL. */
  lemma UrlFirstPass(env: Env, parts: seq<Part>, channelId: string, uploads: seq<Upload>)
    requires channelId != ""
    ensures var first, front := Loop(env, parts, Initial(channelId, uploads), false), Until(parts, IsChannel);
            var v := Loop(env, front, Initial(channelId, uploads), true);
            && front <= parts && !first.Fallback?
            && first.st.uploads == v.st.uploads && first.st.channelId == channelId
            && (first.Continue? <==> front == parts && v.Continue?) && (first.Continue? ==> first == v)
            && (first.Restart? <==> && v.Continue? && |front| < |parts|
                                    && !(parts[|front|].cut && |parts[|front|].content| < MAX_FORM_VALUE)
                                    && FormValue(parts[|front|]) == channelId)
  {
    var front := Until(parts, IsChannel);
    UntilStops(parts, IsChannel);
    FirstPassStreams(env, front, channelId, uploads);
    ChannelKept(env, front, channelId, uploads);
    LoopOfPrefix(env, parts, |front|, Initial(channelId, uploads), false);
    assert front == parts[..|front|];
    if Loop(env, front, Initial(channelId, uploads), false).Continue? && |front| < |parts| {
      LoopStep(env, parts, |front|, Initial(channelId, uploads), false);
      LoopOfPrefix(env, parts, |front| + 1, Initial(channelId, uploads), false);
    }
  }

  function FilesInFront(parts: seq<Part>): seq<Part> { Files(Until(parts, IsChannel)) }

  /** All that a request with a channel ID in its URL uploads: the files in front of the first channel ID of the form,
      or the first of them; and, if that channel ID restarts the request, all files from the start, or the first of
      them. */
  lemma UrlChannelUploads(env: Env, b: Body, channelId: string, uploads: seq<Upload>)
    requires channelId != ""
    ensures var first := Loop(env, b.parts, Initial(channelId, uploads), false);
            var o, front := Multipart(env, b, channelId, uploads), FilesInFront(b.parts);
            var once, twice := |first.st.uploads| - |uploads|, |o.uploads| - |first.st.uploads|;
            && once >= 0 && twice >= 0
            && UploadedInOrder(uploads, first.st.uploads, front, once)
            && UploadedInOrder(first.st.uploads, o.uploads, Files(b.parts), twice)
            && (twice > 0 ==> first.Restart?) && (first.Restart? ==> once == |front|)
            && (o.result.Ok? ==> once == |front| && (if first.Restart? then twice else once) == |Files(b.parts)|)
  {
    var first, front := Loop(env, b.parts, Initial(channelId, uploads), false), Until(b.parts, IsChannel);
    UrlFirstPass(env, b.parts, channelId, uploads);
    PassUploadsInOrder(env, front, channelId, uploads);
    if first.Restart? {
      StreamUploadsInOrder(env, b, channelId, first.st.uploads);
    }
  }

  lemma {:induction false} FilesNeedAFile(parts: seq<Part>)
    ensures Files(parts) != [] <==> exists p :: p in parts && IsFile(p)
  {
    if parts != [] {
      var n := |parts| - 1;
      FilesNeedAFile(parts[..n]);
      assert parts == parts[..n] + [parts[n]];
    }
  }

  lemma FileStepAgain(env: Env, st: State, p: Part, others: seq<Upload>)
    requires IsFile(p) && Step(env, st, p, true).Continue?
    ensures var v, w := Step(env, st, p, true), Step(env, st.(uploads := others), p, true);
            && |v.st.uploads| == |st.uploads| + 1
            && var up := v.st.uploads[|st.uploads|];
               if env.upload(others, up).Some? then w.Continue? && w.st.uploads == others + [up]
               else w.Failed? && w.st.uploads == others
  {
  }

  /** The first file of a pass, uploaded again in another pass: it is if and only if the store takes it. */
  lemma FirstFileAgain(env: Env, parts: seq<Part>, k: nat, channelId: string, uploads: seq<Upload>, others: seq<Upload>)
    requires k < |parts| && IsFile(parts[k]) && forall p :: p in parts[..k] ==> !IsFile(p)
    requires Loop(env, parts[..k + 1], Initial(channelId, uploads), true).Continue?
    ensures var st := Loop(env, parts[..k + 1], Initial(channelId, uploads), true).st;
            var again := Loop(env, parts, Initial(channelId, others), true).st.uploads;
            && |uploads| < |st.uploads| && |others| <= |again|
            && (|others| < |again| <==> env.upload(others, st.uploads[|uploads|]).Some?)
            && (|others| < |again| ==> again[|others|] == st.uploads[|uploads|])
  {
    var st0, st1 := Initial(channelId, uploads), Initial(channelId, others);
    LoopWithoutFiles(env, parts[..k], channelId, uploads, others);
    LoopOfPrefix(env, parts[..k + 1], k, st0, true);
    assert parts[..k + 1][..k] == parts[..k];
    LoopStep(env, parts, k, st0, true);
    LoopStep(env, parts, k, st1, true);
    FileStepAgain(env, Loop(env, parts[..k], st0, true).st, parts[k], others);
    LoopOfPrefix(env, parts, k + 1, st1, true);
  }

  /** A pass that has got through its parts, and the same pass begun with other uploads. */
  lemma SecondPassBegins(env: Env, parts: seq<Part>, channelId: string, uploads: seq<Upload>, others: seq<Upload>)
    requires Loop(env, Until(parts, IsChannel), Initial(channelId, uploads), true).Continue?
    requires FilesInFront(parts) != []
    ensures var st := Loop(env, Until(parts, IsChannel), Initial(channelId, uploads), true).st;
            var again := Loop(env, parts, Initial(channelId, others), true).st.uploads;
            && |uploads| < |st.uploads| && |others| <= |again|
            && (|others| < |again| <==> env.upload(others, st.uploads[|uploads|]).Some?)
            && (|others| < |again| ==> again[|others|] == st.uploads[|uploads|])
  {
    var front := Until(parts, IsChannel);
    UntilStops(parts, IsChannel);
    FilesNeedAFile(front);
    var k := |Until(front, IsFile)|;
    UntilStops(front, IsFile);
    assert front[..k] == parts[..k] == Until(front, IsFile) && front[..k + 1] == parts[..k + 1];
    LoopOfPrefix(env, front, k + 1, Initial(channelId, uploads), true);
    FirstFileAgain(env, parts, k, channelId, uploads, others);
  }

  /** A successful request with a channel ID in its URL uploads every file once if and only if no file comes in front of
      the form's first channel ID; otherwise it uploads the files in front of it twice. */
  lemma UrlChannelOnceIff(env: Env, b: Body, channelId: string, uploads: seq<Upload>)
    requires channelId != "" && Multipart(env, b, channelId, uploads).result.Ok?
    ensures var o, files := Multipart(env, b, channelId, uploads), Files(b.parts);
            var restarts := exists p :: p in b.parts && IsChannel(p);
            && (|o.uploads| == |uploads| + |files| <==> !restarts || FilesInFront(b.parts) == [])
            && |o.uploads| == |uploads| + |files| + if restarts then |FilesInFront(b.parts)| else 0
  {
    UrlChannelUploads(env, b, channelId, uploads);
    UrlFirstPass(env, b.parts, channelId, uploads);
    UntilStops(b.parts, IsChannel);
  }

  /** However the request ends, some file is uploaded twice, the first one then, if and only if a file comes in front of
      the form's first channel ID, the request restarts there, and the store takes the first file again. */
  lemma UrlChannelTwiceIff(env: Env, b: Body, channelId: string, uploads: seq<Upload>)
    requires channelId != "" && FilesInFront(b.parts) != []
    ensures var first := Loop(env, b.parts, Initial(channelId, uploads), false);
            var o := Multipart(env, b, channelId, uploads);
            var n := |uploads| + |FilesInFront(b.parts)|;
            && (|o.uploads| > n <==> && first.Restart? && |first.st.uploads| == n
                                     && env.upload(first.st.uploads, first.st.uploads[|uploads|]).Some?)
            && (|o.uploads| > n ==> o.uploads[n] == o.uploads[|uploads|])
  {
    var first := Loop(env, b.parts, Initial(channelId, uploads), false);
    UrlChannelUploads(env, b, channelId, uploads);
    if first.Restart? {
      UrlFirstPass(env, b.parts, channelId, uploads);
      SecondPassBegins(env, b.parts, channelId, uploads, first.st.uploads);
    }
  }

  /** With a channel ID in the URL the first pass itself uploads, and a later channel ID restarts it: the file is
      uploaded twice. */
  lemma UrlChannelUploadsTwice(env: Env, channelId: string, file: Part, info: FileInfo)
    requires ValidId(channelId) && env.mayUpload(channelId) && IsFile(file) && !file.cut
    requires forall us, u :: env.upload(us, u) == Some(info)
    ensures var up := UploadOf(channelId, file, "");
            var o := Multipart(env, Body([file, Part("channel_id", "", channelId, false)], true), channelId, []);
            o.result.Ok? && o.uploads == [up, up] && |o.result.value.fileInfos| == 1
  {
    var parts := [file, Part("channel_id", "", channelId, false)];
    var up, st := UploadOf(channelId, file, ""), Initial(channelId, []);
    assert parts[..1] == [file] && parts[..1][..0] == [];
    var once := State(channelId, false, [], [info], [], [up]);
    assert Loop(env, [], st, false) == Continue(st);
    assert Loop(env, parts[..1], st, false) == Continue(once);
    assert Loop(env, parts, st, false) == Restart(once);
    var again := Initial(channelId, [up]);
    assert Loop(env, [], again, true) == Continue(again);
    assert Loop(env, parts[..1], again, true) == Continue(once.(uploads := [up, up]));
  }

  // ---------- The stream pass against the buffered routine ----------

  /** When the buffered routine would have given the same answer, said of the parts alone. */
  ghost predicate SameForm(env: Env, b: Body) {
    && (forall p :: p in Files(b.parts) ==> p.formName == "files")
    && (forall v :: v in Values(b.parts, "client_ids") ==> 0 < |v| <= MAX_FORM_VALUE)
    && Values(b.parts, "channel_id") != [] && Values(b.parts, "channel_id")[0] != ""
    && ValueBytes(b.parts) <= env.maxFileSize + READ_FORM_ALLOWANCE
  }

  lemma {:induction false} NamedLength(files: seq<Part>, name: string)
    ensures |Named(files, name)| <= |files|
    ensures |Named(files, name)| == |files| <==> forall p :: p in files ==> p.formName == name
    ensures |Named(files, name)| == |files| ==> Named(files, name) == files
  {
    if files != [] {
      var front, last := files[..|files| - 1], files[|files| - 1];
      NamedLength(front, name);
      assert files == front + [last];
      assert forall p :: p in files <==> p in front || p == last;
    }
  }

  /** The outcome of the first `n` files of a stream pass that ended in `st`. */
  function FirstFiles(inp: Input, base: nat, st: State, n: nat): Outcome
    requires n <= |st.infos| && base + n <= |st.uploads| && (inp.ids == [] || n <= |inp.ids|)
  {
    Outcome(Ok(Response(st.infos[..n], if inp.ids == [] then [] else inp.ids[..n])),
            st.channelId, st.uploads[..base + n])
  }

  lemma FirstFilesNext(env: Env, inp: Input, channelId: string, uploads: seq<Upload>, st: State, i: nat)
    requires Tracks(env, inp, channelId, uploads, st) && i < |inp.files|
    requires (inp.ids == [] || |inp.ids| == |inp.files|) && forall v :: v in inp.ids ==> v != ""
    ensures var id := if inp.ids == [] then "" else inp.ids[i];
            var up, o := UploadOf(st.channelId, inp.files[i], id), FirstFiles(inp, |uploads|, st, i);
            && env.upload(o.uploads, up) == Some(st.infos[i])
            && FirstFiles(inp, |uploads|, st, i + 1) == Taken(o, up, st.infos[i])
  {
    var o, o' := FirstFiles(inp, |uploads|, st, i), FirstFiles(inp, |uploads|, st, i + 1);
    assert st.uploads[|uploads| + i] == Expected(inp, st, i);
    assert o'.uploads == o.uploads + [st.uploads[|uploads| + i]];
    assert o'.result.value.fileInfos == o.result.value.fileInfos + [st.infos[i]];
    if inp.ids != [] {
      assert inp.ids[i] in inp.ids;
      assert o'.result.value.clientIds == o.result.value.clientIds + [inp.ids[i]];
    }
  }

  lemma UploadFirstNext(env: Env, channelId: string, files: seq<Part>, ids: seq<string>, uploads: seq<Upload>, n: nat,
                        o: Outcome, info: FileInfo)
    requires n < |files| && (ids == [] || |ids| == |files|)
    requires UploadFirst(env, channelId, files, ids, uploads, n) == o && o.result.Ok?
    requires env.upload(o.uploads, UploadOf(channelId, files[n], if ids == [] then "" else ids[n])) == Some(info)
    ensures UploadFirst(env, channelId, files, ids, uploads, n + 1)
         == Taken(o, UploadOf(channelId, files[n], if ids == [] then "" else ids[n]), info)
  {
  }

  /** The buffered uploads repeat, one by one, what a stream pass that took the same files and IDs did. */
  lemma {:induction false} LegacyRepeats(env: Env, inp: Input, channelId: string, uploads: seq<Upload>, st: State,
                                         n: nat)
    requires Tracks(env, inp, channelId, uploads, st) && n <= |inp.files|
    requires (inp.ids == [] || |inp.ids| == |inp.files|) && forall v :: v in inp.ids ==> v != ""
    ensures UploadFirst(env, st.channelId, inp.files, inp.ids, uploads, n) == FirstFiles(inp, |uploads|, st, n)
  {
    if n > 0 {
      LegacyRepeats(env, inp, channelId, uploads, st, n - 1);
      FirstFilesNext(env, inp, channelId, uploads, st, n - 1);
      UploadFirstNext(env, st.channelId, inp.files, inp.ids, uploads, n - 1, FirstFiles(inp, |uploads|, st, n - 1),
                      st.infos[n - 1]);
    }
  }

  /** What a buffered run that got past `n` files uploaded and how many client IDs it echoed. */
  ghost predicate Carries(channelId: string, files: seq<Part>, ids: seq<string>, uploads: seq<Upload>, n: nat,
                          o: Outcome)
    requires n <= |files| && (ids == [] || |ids| == |files|)
  {
    && o.result.Ok? && |o.uploads| == |uploads| + n
    && |o.result.value.fileInfos| == n && |o.result.value.clientIds| <= n
    && (forall i :: 0 <= i < n ==>
          o.uploads[|uploads| + i] == UploadOf(channelId, files[i], if ids == [] then "" else ids[i]))
    && (|o.result.value.clientIds| == n > 0 ==> ids != [] && forall i :: 0 <= i < n ==> ids[i] != "")
  }

  lemma CarriesNext(channelId: string, files: seq<Part>, ids: seq<string>, uploads: seq<Upload>, n: nat, o: Outcome,
                    info: FileInfo)
    requires n < |files| && (ids == [] || |ids| == |files|) && Carries(channelId, files, ids, uploads, n, o)
    ensures Carries(channelId, files, ids, uploads, n + 1,
                    Taken(o, UploadOf(channelId, files[n], if ids == [] then "" else ids[n]), info))
  {
  }

  lemma {:induction false} LegacyCarries(env: Env, channelId: string, files: seq<Part>, ids: seq<string>,
                                         uploads: seq<Upload>, n: nat)
    requires n <= |files| && (ids == [] || |ids| == |files|)
    requires UploadFirst(env, channelId, files, ids, uploads, n).result.Ok?
    ensures Carries(channelId, files, ids, uploads, n, UploadFirst(env, channelId, files, ids, uploads, n))
    ensures UploadFirst(env, channelId, files, ids, uploads, n).channelId == channelId
  {
    if n > 0 {
      LegacyCarries(env, channelId, files, ids, uploads, n - 1);
      var o, id := UploadFirst(env, channelId, files, ids, uploads, n - 1), if ids == [] then "" else ids[n - 1];
      CarriesNext(channelId, files, ids, uploads, n - 1, o,
                  env.upload(o.uploads, UploadOf(channelId, files[n - 1], id)).value);
    }
  }

  lemma CutNothing(vs: seq<string>)
    requires forall v :: v in vs ==> 0 < |v| <= MAX_FORM_VALUE
    ensures CutAll(vs) == vs
  {
    assert forall i :: 0 <= i < |vs| ==> vs[i] in vs;
  }

  lemma FirstChannelKept(env: Env, inp: Input, channelId: string, uploads: seq<Upload>, st: State, first: string)
    requires Tracks(env, inp, channelId, uploads, st) && inp.files != []
    requires inp.channels != [] && inp.channels[0] == Cut(first) && first != ""
    ensures first == st.channelId
  {
    assert inp.channels[0] in inp.channels;
  }

  lemma SameFormIsRead(env: Env, b: Body, channelId: string, uploads: seq<Upload>)
    requires b.clean && WellFormed(b) && SameForm(env, b)
    ensures Legacy(env, b, channelId, uploads) == LegacyForm(env, FormOf(b), channelId, uploads)
  {
    assert ReadFormOk(env, b);
  }

  lemma AllNamed(parts: seq<Part>)
    requires forall p :: p in Files(parts) ==> p.formName == "files"
    ensures Named(Files(parts), "files") == Files(parts)
  {
    NamedLength(Files(parts), "files");
  }

  /** What ReadForm collects is then what the stream pass read. */
  lemma SameFormReads(env: Env, b: Body, channelId: string, uploads: seq<Upload>, st: State)
    returns (form: Form, inp: Input)
    requires Tracks(env, Read(b.parts), channelId, uploads, st)
    requires b.clean && WellFormed(b) && Files(b.parts) != [] && SameForm(env, b)
    ensures Tracks(env, inp, channelId, uploads, st) && inp.files != []
    ensures form.clientIds == inp.ids && form.files == inp.files && forall v :: v in inp.ids ==> v != ""
    ensures form.channelIds != [] && form.channelIds[0] == st.channelId
    ensures Legacy(env, b, channelId, uploads) == LegacyForm(env, form, channelId, uploads)
  {
    form, inp := FormOf(b), Read(b.parts);
    SameFormIsRead(env, b, channelId, uploads);
    CutNothing(form.clientIds);
    AllNamed(b.parts);
    FirstChannelKept(env, inp, channelId, uploads, st, form.channelIds[0]);
  }

  lemma AllRepeated(env: Env, inp: Input, channelId: string, uploads: seq<Upload>, st: State)
    requires Tracks(env, inp, channelId, uploads, st) && (inp.ids == [] || |inp.ids| == |inp.files|)
    requires forall v :: v in inp.ids ==> v != ""
    ensures UploadFirst(env, st.channelId, inp.files, inp.ids, uploads, |inp.files|) ==
              Outcome(Ok(Response(st.infos, inp.ids)), st.channelId, st.uploads)
  {
    LegacyRepeats(env, inp, channelId, uploads, st, |inp.files|);
    assert st.uploads[..|uploads| + |inp.files|] == st.uploads && st.infos[..|inp.files|] == st.infos;
    assert inp.ids != [] ==> inp.ids[..|inp.files|] == inp.ids;
  }

  lemma FinishedPass(env: Env, inp: Input, channelId: string, uploads: seq<Upload>, st: State)
    requires Tracks(env, inp, channelId, uploads, st) && Finish(true, st).result.Ok?
    ensures inp.ids == [] || |inp.ids| == |inp.files|
    ensures Finish(true, st) == Outcome(Ok(Response(st.infos, inp.ids)), st.channelId, st.uploads)
  {
    assert inp.ids[..|inp.ids|] == inp.ids;
  }

  lemma FormRepeats(env: Env, form: Form, inp: Input, channelId: string, uploads: seq<Upload>, st: State)
    requires Tracks(env, inp, channelId, uploads, st) && inp.files != [] && (inp.ids == [] || |inp.ids| == |inp.files|)
    requires forall v :: v in inp.ids ==> v != ""
    requires form.clientIds == inp.ids && form.files == inp.files
    requires form.channelIds != [] && form.channelIds[0] == st.channelId
    ensures LegacyForm(env, form, channelId, uploads) ==
              Outcome(Ok(Response(st.infos, inp.ids)), st.channelId, st.uploads)
  {
    AllRepeated(env, inp, channelId, uploads, st);
  }

  lemma SameFormAgrees(env: Env, b: Body, channelId: string, uploads: seq<Upload>, st: State)
    requires Tracks(env, Read(b.parts), channelId, uploads, st) && Finish(true, st).result.Ok?
    requires b.clean && WellFormed(b) && Files(b.parts) != [] && SameForm(env, b)
    ensures Legacy(env, b, channelId, uploads) == Finish(true, st)
  {
    var form, inp := SameFormReads(env, b, channelId, uploads, st);
    FinishedPass(env, inp, channelId, uploads, st);
    FormRepeats(env, form, inp, channelId, uploads, st);
  }

  /** A buffered run that agrees with a stream pass took as many files and uncut, non-empty IDs. */
  lemma AgreementFixesForm(env: Env, form: Form, inp: Input, channelId: string, uploads: seq<Upload>, st: State)
    requires Tracks(env, inp, channelId, uploads, st) && inp.files != []
    requires inp.ids == CutAll(form.clientIds) && (inp.ids == [] || |inp.ids| == |inp.files|)
    requires LegacyForm(env, form, channelId, uploads) ==
               Outcome(Ok(Response(st.infos, inp.ids)), st.channelId, st.uploads)
    ensures |form.files| == |inp.files| && form.channelIds != [] && form.channelIds[0] != ""
    ensures forall i :: 0 <= i < |form.clientIds| ==> 0 < |form.clientIds[i]| <= MAX_FORM_VALUE
  {
    LegacyCarries(env, form.channelIds[0], form.files, form.clientIds, uploads, |form.files|);
    forall i | 0 <= i < |form.clientIds|
      ensures 0 < |form.clientIds[i]| <= MAX_FORM_VALUE
    {
      assert st.uploads[|uploads| + i] == Expected(inp, st, i);
      assert inp.ids[i] == Cut(form.clientIds[i]);
    }
  }

  lemma AgreementNeedsSameForm(env: Env, b: Body, channelId: string, uploads: seq<Upload>, st: State)
    requires Tracks(env, Read(b.parts), channelId, uploads, st)
    requires Finish(true, st).result.Ok? && Files(b.parts) != []
    requires Legacy(env, b, channelId, uploads) == Finish(true, st)
    ensures SameForm(env, b)
  {
    FinishedPass(env, Read(b.parts), channelId, uploads, st);
    AgreementFixesForm(env, FormOf(b), Read(b.parts), channelId, uploads, st);
    NamedLength(Files(b.parts), "files");
  }

  /** A successful stream pass over at least one file and the buffered routine on the same parts give the same
      response, uploads and channel if and only if every file is named "files", no client ID is empty or longer than
      the stream pass reads, the first channel ID is not empty, and the values fit the form reader's allowance. */
  lemma LegacyAgreesIff(env: Env, b: Body, channelId: string, uploads: seq<Upload>)
    requires WellFormed(b) && Files(b.parts) != [] && StreamPass(env, b, channelId, uploads).result.Ok?
    ensures Legacy(env, b, channelId, uploads) == StreamPass(env, b, channelId, uploads) <==> SameForm(env, b)
  {
    var k := LoopTracks(env, b.parts, channelId, uploads);
    assert b.parts[..|b.parts|] == b.parts;
    var st := Loop(env, b.parts, Initial(channelId, uploads), true).st;
    if SameForm(env, b) {
      SameFormAgrees(env, b, channelId, uploads, st);
    }
    if Legacy(env, b, channelId, uploads) == StreamPass(env, b, channelId, uploads) {
      AgreementNeedsSameForm(env, b, channelId, uploads, st);
    }
  }

  /** The same for a whole request without a channel ID in its URL that was restarted in stream mode. */
  lemma RequestAgreesIff(env: Env, b: Body, uploads: seq<Upload>)
    requires WellFormed(b) && Files(b.parts) != [] && Multipart(env, b, "", uploads).result.Ok?
    requires Loop(env, b.parts, Initial("", uploads), false).Restart?
    ensures Legacy(env, b, "", uploads) == Multipart(env, b, "", uploads) <==> SameForm(env, b)
  {
    FirstPassUploadsNothing(env, b.parts, uploads);
    LegacyAgreesIff(env, b, Loop(env, b.parts, Initial("", uploads), false).st.channelId, uploads);
  }
}
