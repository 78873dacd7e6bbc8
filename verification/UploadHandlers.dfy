/**
 The upload handlers themselves (api4/file.go): a part loop over a reader that tees the body into a buffer, and the
 restart that reads the buffer and then the rest of the body.
 */
module UploadHandlers {
  import opened Prelude
  import opened UploadSpec
  import opened UploadProperties

  /** The request body: `unread` has not been taken from the connection yet. */
  class RequestBody {
    var unread: seq<Part>
    const clean: bool

    constructor (parts: seq<Part>, clean: bool)
      ensures unread == parts && this.clean == clean
    {
      unread := parts;
      this.clean := clean;
    }
  }

  /** A multipart reader over the body. `ahead` has been read from the stream but not returned yet; when `tee` is set
      everything taken from the body is also appended to `buf`. */
  class PartReader {
    const body: RequestBody
    const tee: bool
    var ahead: seq<Part>
    var buf: seq<Part>

    /** `prefix` is what an io.MultiReader puts in front of the body. */
    constructor (body: RequestBody, prefix: seq<Part>, tee: bool)
      ensures this.body == body && this.tee == tee && ahead == prefix && buf == []
    {
      this.body, this.tee, ahead, buf := body, tee, prefix, [];
    }

    ghost function Rest(): seq<Part>
      reads this, body
    {
      ahead + body.unread
    }

    /** Takes some more of the body, at least one part if nothing is ahead; how much is the reader's own business. */
    method Fill()
      modifies this, body
      ensures Rest() == old(Rest()) && (ahead == [] ==> body.unread == [])
      ensures if tee then buf + body.unread == old(buf + body.unread) else buf == old(buf)
    {
      var k: nat :| k <= |body.unread| && (ahead == [] && body.unread != [] ==> k > 0);
      var chunk, left := body.unread[..k], body.unread[k..];
      assert body.unread == chunk + left;
      assert ahead + body.unread == (ahead + chunk) + left && buf + body.unread == (buf + chunk) + left;
      ahead := ahead + chunk;
      if tee {
        buf := buf + chunk;
      }
      body.unread := left;
    }

    /** Returns the next part, or None at the end. */
    method NextPart() returns (part: Option<Part>)
      modifies this, body
      ensures if old(Rest()) == [] then part == None && Rest() == []
              else part == Some(old(Rest())[0]) && Rest() == old(Rest())[1..]
      ensures tee ==> buf + body.unread == old(buf + body.unread)
    {
      Fill();
      if ahead == [] {
        return None;
      }
      part := Some(ahead[0]);
      ahead := ahead[1..];
    }
  }

  /** The request context: the channel ID of the URL or form, and the uploads made in the application. */
  class Context {
    const env: Env
    var channelId: string
    var uploads: seq<Upload>
    var passes: nat // how often uploadFileMultipart has been entered

    constructor (env: Env, channelId: string)
      ensures this.env == env && this.channelId == channelId && uploads == [] && passes == 0
    {
      this.env, this.channelId, uploads, passes := env, channelId, [], 0;
    }

    ghost predicate Is(o: Outcome, r: Result<Response, Error>)
      reads this
    {
      o == Outcome(r, channelId, uploads)
    }

    /** The body of the part loop for a form value, up to the restart: gives the client IDs read so far. */
    method ReadValue(part: Part, clientIds: seq<string>, expectClientIds: bool, ghost st: State, ghost streaming: bool)
      returns (r: Result<seq<string>, Error>)
      requires st == State(channelId, expectClientIds, clientIds, st.infos, st.respIds, uploads)
      modifies this`channelId
      ensures ValueStep(st, part, streaming) ==
              match r
              case Err(e) => Failed(e, st)
              case Ok(ids) =>
                var st' := st.(channelId := channelId, clientIds := ids);
                if part.formName == "channel_id" && !streaming then Restart(st') else Continue(st')
      ensures r.Err? ==> channelId == old(channelId)
    {
      if part.cut && |part.content| < MAX_FORM_VALUE {
        return Err(BadFormValue);
      }
      var v := FormValue(part);
      if part.formName == "channel_id" {
        if channelId != "" && channelId != v {
          return Err(MultipleChannelIds);
        }
        if v != "" {
          channelId := v;
        }
        return Ok(clientIds);
      } else if part.formName == "client_ids" {
        if !expectClientIds {
          return Err(InvalidParam("client_ids"));
        }
        return Ok(clientIds + [v]);
      } else {
        return Err(InvalidParam(part.formName));
      }
    }

    /** The body of the part loop for a file part: checks, the choice of the client ID, and the upload. */
    method UploadPart(part: Part, clientIds: seq<string>, nFiles: nat, expectClientIds: bool, ghost st: State,
                      ghost streaming: bool)
      returns (r: Result<FileInfo, Error>, clientId: string, paired: bool)
      requires st.channelId == channelId && st.uploads == uploads && st.clientIds == clientIds
      requires st.expectClientIds == expectClientIds && |st.infos| == nFiles && (channelId == "" ==> streaming)
      modifies this`uploads
      ensures FileStep(env, st, part, streaming) ==
              match r
              case Err(e) => Failed(e, st)
              case Ok(info) => Continue(State(channelId, paired, clientIds, st.infos + [info],
                                              if paired then st.respIds + [clientId] else st.respIds, uploads))
      ensures r.Err? ==> uploads == old(uploads)
    {
      clientId, paired := "", expectClientIds;
      if !ValidId(channelId) {
        return Err(InvalidUrlParam("channel_id")), clientId, paired;
      }
      if !env.mayUpload(channelId) {
        return Err(NoPermission), clientId, paired;
      }
      if nFiles == 0 && |clientIds| == 0 {
        paired := false;
      }
      if paired {
        if nFiles >= |clientIds| {
          return Err(InvalidParam("client_ids")), clientId, paired;
        }
        clientId := clientIds[nFiles];
      }
      var up := UploadOf(channelId, part, clientId);
      var info := env.upload(uploads, up);
      if info.None? {
        return Err(UploadFailed), clientId, paired;
      }
      uploads := uploads + [up];
      r := Ok(info.value);
    }

    /** `asStream` is None on the first pass, and otherwise what was buffered in front of the rest of the body. The
        result is that of the parts of the whole original body, the pass is entered at most twice, and in stream mode
        once. */
    method UploadFileMultipart(body: RequestBody, asStream: Option<seq<Part>>) returns (r: Result<Response, Error>)
      modifies this, body
      ensures asStream.None? ==> Is(Multipart(env, Body(old(body.unread), body.clean), old(channelId), old(uploads)), r)
      ensures asStream.Some? ==>
                Is(StreamPass(env, Body(asStream.value + old(body.unread), body.clean), old(channelId), old(uploads)),
                   r)
      ensures old(passes) + 1 <= passes <= old(passes) + if asStream.None? then 2 else 1
      decreases asStream.None?
    {
      passes := passes + 1;
      var expectClientIds, nFiles := true, 0;
      var clientIds: seq<string>, infos: seq<FileInfo>, respIds: seq<string> := [], [], [];
      var streaming := asStream.Some?;
      var mr := new PartReader(body, if streaming then asStream.value else [], !streaming);
      ghost var parts, st0 := mr.Rest(), Initial(channelId, uploads);
      ghost var k := 0;
      assert !streaming ==> parts == body.unread;
      while true
        invariant k <= |parts| && mr.Rest() == parts[k..] && passes == old(passes) + 1
        invariant !streaming ==> mr.buf + body.unread == parts
        invariant nFiles == |infos|
        invariant Loop(env, parts[..k], st0, streaming) ==
                  Continue(State(channelId, expectClientIds, clientIds, infos, respIds, uploads))
        decreases |parts| - k
      {
        ghost var st := State(channelId, expectClientIds, clientIds, infos, respIds, uploads);
        var next := mr.NextPart();
        if next.None? {
          assert parts[..k] == parts;
          break;
        }
        var part := next.value;
        LoopStep(env, parts, k, st0, streaming);
        k := k + 1;
        if part.formName == "" {
          continue;
        }
        if part.fileName == "" {
          var ids := ReadValue(part, clientIds, expectClientIds, st, streaming);
          if ids.Err? {
            return Err(ids.error);
          }
          clientIds := ids.value;
          if part.formName == "channel_id" && !streaming {
            assert Loop(env, parts, st0, false) == Restart(Loop(env, parts, st0, false).st);
            r := UploadFileMultipart(body, Some(mr.buf));
            return;
          }
          continue;
        }
        if channelId == "" && !streaming {
          r := UploadFileMultipartLegacy(Body(mr.buf + body.unread, body.clean));
          return;
        }
        var taken, clientId, paired := UploadPart(part, clientIds, nFiles, expectClientIds, st, streaming);
        if taken.Err? {
          return Err(taken.error);
        }
        expectClientIds := paired;
        infos := infos + [taken.value];
        if expectClientIds {
          respIds := respIds + [clientId];
        }
        nFiles := nFiles + 1;
      }
      assert Loop(env, parts, st0, streaming) ==
               Continue(State(channelId, expectClientIds, clientIds, infos, respIds, uploads));
      if !body.clean {
        return Err(BadRequest);
      }
      if expectClientIds && |clientIds| != nFiles {
        return Err(WrongNumberOfClientIds);
      }
      r := Ok(Response(infos, respIds));
    }

    /** The buffered routine on the parts of the whole body. */
    method UploadFileMultipartLegacy(b: Body) returns (r: Result<Response, Error>)
      modifies this
      ensures Is(Legacy(env, b, old(channelId), old(uploads)), r) && passes == old(passes)
    {
      var read := ReadForm(b);
      if read.Err? {
        return Err(read.error);
      }
      var form := read.value;
      if |form.channelIds| == 0 {
        return Err(InvalidParam("channel_id"));
      }
      channelId := form.channelIds[0];
      if !ValidId(channelId) {
        return Err(InvalidUrlParam("channel_id"));
      }
      if !env.mayUpload(channelId) {
        return Err(NoPermission);
      }
      var clientIds, files := form.clientIds, form.files;
      if |clientIds| != 0 && |clientIds| != |files| {
        return Err(WrongNumberOfClientIds);
      }
      r := UploadAll(files, clientIds);
    }

    /** The loop over the file headers. */
    method UploadAll(files: seq<Part>, clientIds: seq<string>) returns (r: Result<Response, Error>)
      requires clientIds == [] || |clientIds| == |files|
      modifies this`uploads
      ensures Is(UploadFirst(env, channelId, files, clientIds, old(uploads), |files|), r)
    {
      var infos: seq<FileInfo>, respIds: seq<string> := [], [];
      for i := 0 to |files|
        invariant Is(UploadFirst(env, channelId, files, clientIds, old(uploads), i), Ok(Response(infos, respIds)))
      {
        var clientId := if |clientIds| > 0 then clientIds[i] else "";
        var up := UploadOf(channelId, files[i], clientId);
        var info := env.upload(uploads, up);
        if info.None? {
          UploadFirstStops(env, channelId, files, clientIds, old(uploads), i + 1, |files|);
          return Err(UploadFailed);
        }
        uploads := uploads + [up];
        infos := infos + [info.value];
        if clientId != "" {
          respIds := respIds + [clientId];
        }
      }
      r := Ok(Response(infos, respIds));
    }

    /** multipart.Reader.ReadForm, as far as the routine depends on it. */
    method ReadForm(b: Body) returns (r: Result<Form, Error>)
      ensures r == if ReadFormOk(env, b) then Ok(FormOf(b)) else Err(BadRequest)
    {
      var cut := exists i :: 0 <= i < |b.parts| && b.parts[i].cut;
      if !b.clean || cut || ValueBytes(b.parts) > env.maxFileSize + READ_FORM_ALLOWANCE {
        return Err(BadRequest);
      }
      r := Ok(FormOf(b));
    }
  }

  lemma {:induction false} UploadFirstStops(env: Env, channelId: string, files: seq<Part>, ids: seq<string>,
                                            uploads: seq<Upload>, k: nat, n: nat)
    requires k <= n <= |files| && (ids == [] || |ids| == |files|)
    requires UploadFirst(env, channelId, files, ids, uploads, k).result.Err?
    ensures UploadFirst(env, channelId, files, ids, uploads, n) == UploadFirst(env, channelId, files, ids, uploads, k)
  {
    if k < n {
      UploadFirstStops(env, channelId, files, ids, uploads, k, n - 1);
    }
  }
}
