/**
 Multipart file upload (api4/file.go, uploadFileMultipart and uploadFileMultipartLegacy) as functions on the part list.
 Form names and file names are those of section 4.2 of RFC 7578.
 */
module UploadSpec {
  import opened Prelude

  const MAX_FORM_VALUE: nat := 10 * 1024
  const READ_FORM_ALLOWANCE: nat := 10 * 1024 * 1024

  /** `cut`: the body breaks off inside this part. */
  datatype Part = Part(formName: string, fileName: string, content: string, cut: bool)

  /** `clean`: the body ends with the closing boundary; otherwise reading past the parts is an error. */
  datatype Body = Body(parts: seq<Part>, clean: bool)

  ghost predicate WellFormed(b: Body) {
    forall i :: 0 <= i < |b.parts| && b.parts[i].cut ==> !b.clean && i == |b.parts| - 1
  }

  /** One call of App.UploadFileX. */
  datatype Upload = Upload(channelId: string, fileName: string, content: string, cut: bool, clientId: string)

  type FileInfo = string

  /** Session permissions, the file store (its answer may depend on all earlier uploads), and configuration. */
  datatype Env = Env(mayUpload: string -> bool, upload: (seq<Upload>, Upload) -> Option<FileInfo>, maxFileSize: nat)

  datatype Error =
    | BadRequest | BadFormValue | MultipleChannelIds | InvalidParam(name: string) | InvalidUrlParam(name: string)
    | NoPermission | WrongNumberOfClientIds | UploadFailed

  datatype Response = Response(fileInfos: seq<FileInfo>, clientIds: seq<string>)

  datatype Outcome = Outcome(result: Result<Response, Error>, channelId: string, uploads: seq<Upload>)

  predicate AlphaNumeric(c: char) { 'a' <= c <= 'z' || 'A' <= c <= 'Z' || '0' <= c <= '9' }

  predicate ValidId(id: string) { |id| == 26 && forall i :: 0 <= i < 26 ==> AlphaNumeric(id[i]) }

  predicate IsFile(p: Part) { p.formName != "" && p.fileName != "" }

  predicate IsValue(p: Part) { p.formName != "" && p.fileName == "" }

  function Cut(v: string): string { if |v| <= MAX_FORM_VALUE then v else v[..MAX_FORM_VALUE] }

  function FormValue(p: Part): string { Cut(p.content) }

  function UploadOf(channelId: string, p: Part, clientId: string): Upload {
    Upload(channelId, p.fileName, p.content, p.cut, clientId)
  }

  // ---------- The part loop ----------

  /** The variables of the loop; `nFiles` is the length of `infos`. */
  datatype State = State(channelId: string, expectClientIds: bool, clientIds: seq<string>, infos: seq<FileInfo>,
                         respIds: seq<string>, uploads: seq<Upload>)

  datatype Verdict = Continue(st: State) | Failed(error: Error, st: State) | Restart(st: State) | Fallback(st: State)

  function Initial(channelId: string, uploads: seq<Upload>): State {
    State(channelId, true, [], [], [], uploads)
  }

  function ValueStep(st: State, p: Part, streaming: bool): Verdict {
    if p.cut && |p.content| < MAX_FORM_VALUE then Failed(BadFormValue, st)
    else
      var v := FormValue(p);
      if p.formName == "channel_id" then
        if st.channelId != "" && st.channelId != v then Failed(MultipleChannelIds, st)
        else
          var st' := if v != "" then st.(channelId := v) else st;
          if streaming then Continue(st') else Restart(st')
      else if p.formName == "client_ids" then
        if st.expectClientIds then Continue(st.(clientIds := st.clientIds + [v]))
        else Failed(InvalidParam("client_ids"), st)
      else Failed(InvalidParam(p.formName), st)
  }

  function FileStep(env: Env, st: State, p: Part, streaming: bool): Verdict {
    if st.channelId == "" && !streaming then Fallback(st)
    else if !ValidId(st.channelId) then Failed(InvalidUrlParam("channel_id"), st)
    else if !env.mayUpload(st.channelId) then Failed(NoPermission, st)
    else
      var nFiles := |st.infos|;
      var paired := st.expectClientIds && !(nFiles == 0 && st.clientIds == []);
      if paired && nFiles >= |st.clientIds| then Failed(InvalidParam("client_ids"), st)
      else
        var clientId := if paired then st.clientIds[nFiles] else "";
        var up := UploadOf(st.channelId, p, clientId);
        match env.upload(st.uploads, up)
        case None => Failed(UploadFailed, st)
        case Some(info) =>
          Continue(State(st.channelId, paired, st.clientIds, st.infos + [info],
                         if paired then st.respIds + [clientId] else st.respIds, st.uploads + [up]))
  }

  function Step(env: Env, st: State, p: Part, streaming: bool): Verdict {
    if p.formName == "" then Continue(st)
    else if p.fileName == "" then ValueStep(st, p, streaming)
    else FileStep(env, st, p, streaming)
  }

  function Loop(env: Env, parts: seq<Part>, st: State, streaming: bool): Verdict {
    if parts == [] then Continue(st)
    else
      var n := |parts| - 1;
      match Loop(env, parts[..n], st, streaming)
      case Continue(st') => Step(env, st', parts[n], streaming)
      case v => v
  }

  lemma StepOnlyAdds(env: Env, st: State, p: Part, streaming: bool)
    ensures st.uploads <= Step(env, st, p, streaming).st.uploads
  {
  }

  /** A pass only adds uploads, and once it has left the loop the parts that follow do not matter. */
  lemma {:induction false} LoopOfPrefix(env: Env, parts: seq<Part>, k: nat, st: State, streaming: bool)
    requires k <= |parts|
    ensures var v, w := Loop(env, parts, st, streaming), Loop(env, parts[..k], st, streaming);
            w.st.uploads <= v.st.uploads && (!w.Continue? ==> v == w)
  {
    if k < |parts| {
      var n := |parts| - 1;
      LoopOfPrefix(env, parts[..n], k, st, streaming);
      assert parts[..n][..k] == parts[..k];
      var v := Loop(env, parts[..n], st, streaming);
      StepOnlyAdds(env, v.st, parts[n], streaming);
    } else {
      assert parts[..k] == parts;
    }
  }

  lemma LoopStep(env: Env, parts: seq<Part>, k: nat, st: State, streaming: bool)
    requires k < |parts| && Loop(env, parts[..k], st, streaming).Continue?
    ensures Loop(env, parts[..k + 1], st, streaming) ==
              Step(env, Loop(env, parts[..k], st, streaming).st, parts[k], streaming)
    ensures var v := Step(env, Loop(env, parts[..k], st, streaming).st, parts[k], streaming);
            !v.Continue? ==> Loop(env, parts, st, streaming) == v
  {
    assert parts[..k + 1][..k] == parts[..k];
    LoopOfPrefix(env, parts, k + 1, st, streaming);
  }

  /** After the last part. */
  function Finish(clean: bool, st: State): Outcome {
    if !clean then Outcome(Err(BadRequest), st.channelId, st.uploads)
    else if st.expectClientIds && |st.clientIds| != |st.infos| then
      Outcome(Err(WrongNumberOfClientIds), st.channelId, st.uploads)
    else Outcome(Ok(Response(st.infos, st.respIds)), st.channelId, st.uploads)
  }

  function StreamPass(env: Env, b: Body, channelId: string, uploads: seq<Upload>): Outcome {
    match Loop(env, b.parts, Initial(channelId, uploads), true)
    case Failed(e, st) => Outcome(Err(e), st.channelId, st.uploads)
    case v => Finish(b.clean, v.st)
  }

  /** The whole request: a first pass that may restart in stream mode or fall back to the buffered routine. */
  ghost function Multipart(env: Env, b: Body, channelId: string, uploads: seq<Upload>): Outcome {
    match Loop(env, b.parts, Initial(channelId, uploads), false)
    case Failed(e, st) => Outcome(Err(e), st.channelId, st.uploads)
    case Restart(st) => StreamPass(env, b, st.channelId, st.uploads)
    case Fallback(st) => Legacy(env, b, st.channelId, st.uploads)
    case Continue(st) => Finish(b.clean, st)
  }

  // ---------- The buffered routine ----------

  function Values(parts: seq<Part>, name: string): seq<string> {
    if parts == [] then []
    else
      var n := |parts| - 1;
      var p := parts[n];
      Values(parts[..n], name) + if IsValue(p) && p.formName == name then [p.content] else []
  }

  function Files(parts: seq<Part>): seq<Part> {
    if parts == [] then []
    else
      var n := |parts| - 1;
      Files(parts[..n]) + if IsFile(parts[n]) then [parts[n]] else []
  }

  function Named(files: seq<Part>, name: string): seq<Part> {
    if files == [] then []
    else
      var n := |files| - 1;
      Named(files[..n], name) + if files[n].formName == name then [files[n]] else []
  }

  function ValueBytes(parts: seq<Part>): nat {
    if parts == [] then 0
    else
      var n := |parts| - 1;
      ValueBytes(parts[..n]) + if IsValue(parts[n]) then |parts[n].content| else 0
  }

  /** multipart.Reader.ReadForm fails on a broken body and on too many bytes of form values. */
  ghost predicate ReadFormOk(env: Env, b: Body) {
    && b.clean
    && (forall i :: 0 <= i < |b.parts| ==> !b.parts[i].cut)
    && ValueBytes(b.parts) <= env.maxFileSize + READ_FORM_ALLOWANCE
  }

  /** One more upload; its client ID is echoed unless it is empty. */
  function Taken(o: Outcome, up: Upload, info: FileInfo): Outcome
    requires o.result.Ok?
  {
    var r := o.result.value;
    Outcome(Ok(Response(r.fileInfos + [info], if up.clientId != "" then r.clientIds + [up.clientId] else r.clientIds)),
            up.channelId, o.uploads + [up])
  }

  /** The first `n` files uploaded one after the other. */
  function UploadFirst(env: Env, channelId: string, files: seq<Part>, ids: seq<string>, uploads: seq<Upload>, n: nat)
    : Outcome
    requires n <= |files| && (ids == [] || |ids| == |files|)
  {
    if n == 0 then Outcome(Ok(Response([], [])), channelId, uploads)
    else
      var o := UploadFirst(env, channelId, files, ids, uploads, n - 1);
      if o.result.Err? then o
      else
        var id := if ids == [] then "" else ids[n - 1];
        var up := UploadOf(channelId, files[n - 1], id);
        match env.upload(o.uploads, up)
        case None => o.(result := Err(UploadFailed))
        case Some(info) => Taken(o, up, info)
  }

  /** A form as ReadForm returns it, as far as the routine looks at it. */
  datatype Form = Form(channelIds: seq<string>, clientIds: seq<string>, files: seq<Part>)

  function FormOf(b: Body): Form {
    Form(Values(b.parts, "channel_id"), Values(b.parts, "client_ids"), Named(Files(b.parts), "files"))
  }

  function LegacyForm(env: Env, form: Form, channelId: string, uploads: seq<Upload>): Outcome {
    if form.channelIds == [] then Outcome(Err(InvalidParam("channel_id")), channelId, uploads)
    else
      var id := form.channelIds[0];
      if !ValidId(id) then Outcome(Err(InvalidUrlParam("channel_id")), id, uploads)
      else if !env.mayUpload(id) then Outcome(Err(NoPermission), id, uploads)
      else if form.clientIds != [] && |form.clientIds| != |form.files| then
        Outcome(Err(WrongNumberOfClientIds), id, uploads)
      else UploadFirst(env, id, form.files, form.clientIds, uploads, |form.files|)
  }

  ghost function Legacy(env: Env, b: Body, channelId: string, uploads: seq<Upload>): Outcome {
    if ReadFormOk(env, b) then LegacyForm(env, FormOf(b), channelId, uploads)
    else Outcome(Err(BadRequest), channelId, uploads)
  }
}
