/** File uploads to the generative-language API (llm/internal/resource/resource.go,
    and uploadFile in llm/llm.go): the content type chosen from the file's
    extension, and the two-phase resumable-upload handshake — a `start`
    request that returns an upload URL, then an `upload, finalize` request
    carrying the file — with the network replaced by the replies it gives. */
module Resource {
  import opened Wrappers
  import opened Text

  datatype UploadRequest = UploadRequest(key: string, url: string, file: string)

  /** What an uploaded file is referred to by in later prompts. */
  datatype Reference = Reference(uri: string, mimeType: string, displayLabel: string)

  // ---------------------------------------------------------------------
  // File names

  /** The path with its trailing separators removed. */
  function TrimTrailingSlashes(path: string): (p: string)
    ensures |p| <= |path| && p == path[..|p|]
    ensures p == [] || p[|p| - 1] != '/'
  {
    if path != [] && path[|path| - 1] == '/' then TrimTrailingSlashes(path[..|path| - 1]) else path
  }

  /** The part of `p` after its last separator. */
  function LastElement(p: string): (r: string)
    ensures |r| <= |p| && r == p[|p| - |r|..] && '/' !in r
    ensures r == p || p[|p| - |r| - 1] == '/'
  {
    if p == [] || p[|p| - 1] == '/' then []
    else
      var c := p[|p| - 1];
      var r := LastElement(p[..|p| - 1]);
      assert p[..|p| - 1][|p| - 1 - |r|..] + [c] == p[|p| - 1 - |r|..];
      r + [c]
  }

  lemma {:induction false} LastElementAfterSlash(dir: string, name: string)
    requires '/' !in name
    ensures LastElement(dir + "/" + name) == name
    decreases |name|
  {
    var path := dir + "/" + name;
    if name == [] {
      assert path[|path| - 1] == '/';
    } else {
      var init := name[..|name| - 1];
      LastElementAfterSlash(dir, init);
      assert path[..|path| - 1] == dir + "/" + init;
      assert name == init + [name[|name| - 1]];
    }
  }

  /** filepath.Base, which is what os.Stat reports as a file's name. */
  function Base(path: string): (b: string)
    ensures b != []
  {
    var p := TrimTrailingSlashes(path);
    if p == [] then (if path == [] then "." else "/")
    else
      LastElement(p)
  }

  /** The base name of `dir/name` is `name`. */
  lemma BaseOfJoin(dir: string, name: string)
    requires name != [] && '/' !in name
    ensures Base(dir + "/" + name) == name
  {
    var path := dir + "/" + name;
    assert TrimTrailingSlashes(path) == path;
    var r := LastElement(path);
    assert LastElement(path) == name by {
      LastElementAfterSlash(dir, name);
    }
  }

  // ---------------------------------------------------------------------
  // Content type

  const MimeTypes: map<string, string> := map[
    ".jpg" := "image/jpeg",
    ".jpeg" := "image/jpeg",
    ".png" := "image/png",
    ".gif" := "image/gif",
    ".bmp" := "image/bmp",
    ".webp" := "image/webp",
    ".svg" := "image/svg+xml",
    ".tif" := "image/tiff",
    ".tiff" := "image/tiff",
    ".ico" := "image/x-icon",
    ".pdf" := "application/pdf"
  ]

  const DefaultContentType := "text/plain"

  /** An extension as filepath.Ext returns one: a dot, then neither a dot
      nor a separator. */
  predicate IsExtension(e: string) {
    |e| >= 1 && e[0] == '.' && '.' !in e[1..] && '/' !in e
  }

  lemma SuffixExtend(s: string, t: string, c: char)
    requires HasSuffix(s, t)
    ensures HasSuffix(s + [c], t + [c])
  {
    assert (s + [c])[|s| - |t|..] == s[|s| - |t|..] + [c];
  }

  /** filepath.Ext: the suffix of the last path element from its last dot
      on, or "" when that element has no dot (ExtEmpty). */
  function Ext(path: string): (e: string)
    ensures HasSuffix(path, e)
    ensures e == [] || IsExtension(e)
  {
    if path == [] || path[|path| - 1] == '/' then []
    else if path[|path| - 1] == '.' then "."
    else
      var c := path[|path| - 1];
      var e := Ext(path[..|path| - 1]);
      if e == [] then []
      else
        assert e[1..] + [c] == (e + [c])[1..];
        SuffixExtend(path[..|path| - 1], e, c);
        assert path[..|path| - 1] + [c] == path;
        e + [c]
  }

  /** There is no extension exactly when the last element has no dot. */
  lemma {:induction false} ExtEmpty(path: string)
    ensures Ext(path) == [] <==> '.' !in LastElement(path)
    decreases |path|
  {
    if !(path == [] || path[|path| - 1] == '/' || path[|path| - 1] == '.') {
      var init := path[..|path| - 1];
      ExtEmpty(init);
      assert LastElement(path) == LastElement(init) + [path[|path| - 1]];
    }
  }

  /** The extension of a name ending in an extension is that extension. */
  lemma {:induction false} ExtOfExtension(stem: string, e: string)
    requires IsExtension(e)
    ensures Ext(stem + e) == e
    decreases |e|
  {
    if |e| > 1 {
      var init := e[..|e| - 1];
      assert init[1..] == e[1..|e| - 1];
      ExtOfExtension(stem, init);
      assert stem + e == (stem + init) + [e[|e| - 1]];
    }
  }

  /** The content type Upload declares: the table entry for the extension,
      compared as written, or text/plain when there is none. */
  function ContentType(file: string): (t: string)
    ensures t == DefaultContentType || t in MimeTypes.Values
  {
    var e := Ext(file);
    if e in MimeTypes then MimeTypes[e] else DefaultContentType
  }

  lemma ContentTypeKnown(stem: string, e: string)
    requires e in MimeTypes
    ensures ContentType(stem + e) == MimeTypes[e]
  {
    assert IsExtension(e);
    ExtOfExtension(stem, e);
  }

  lemma ContentTypeUnknown(stem: string, e: string)
    requires IsExtension(e) && e !in MimeTypes
    ensures ContentType(stem + e) == DefaultContentType
  {
    ExtOfExtension(stem, e);
  }

  /** A file name without a dot is sent as text/plain. */
  lemma ContentTypeNoDot(file: string)
    requires '.' !in file
    ensures ContentType(file) == DefaultContentType
  {
  }

  /** Extensions are matched case-sensitively: upper case is not in the table. */
  lemma ContentTypeCaseSensitive(stem: string)
    ensures ContentType(stem + ".PDF") == DefaultContentType
    ensures ContentType(stem + ".pdf") == "application/pdf"
  {
    ContentTypeUnknown(stem, ".PDF");
    ContentTypeKnown(stem, ".pdf");
  }

  // ---------------------------------------------------------------------
  // The handshake

  /** Where a request goes: a URL template expanded with a key (the
      expansion itself is fmt's), or a URL taken as it is. */
  datatype Target = Expand(template: string, key: string) | Direct(url: string)

  datatype Body = Text(text: string) | FileContents(path: string)

  datatype HttpRequest = HttpRequest(target: Target, headers: map<string, string>, body: Body)

  /** What the server says about the uploaded file. */
  datatype UploadedFile = UploadedFile(
    name: string, displayName: string, mimeType: string, sizeBytes: string,
    createTime: string, updateTime: string, uri: string)

  /** The reply to the start request: unreachable, or a status and the
      X-Goog-Upload-Url header ("" when absent). */
  datatype StartReply = StartUnreachable | StartReplied(status: int, uploadUrl: string)

  /** The reply to the upload request: unreachable, or a status, whether its
      body could be read, and what the body decodes to (None when it does
      not decode). */
  datatype FinishReply = FinishUnreachable | FinishReplied(status: int, readOk: bool, file: Option<UploadedFile>)

  /** Everything the handshake learns from outside: the file's size (None
      when os.Stat fails), whether the file opens, and the two replies. */
  datatype UploadEnv = UploadEnv(size: Option<nat>, start: StartReply, canOpen: bool, finish: FinishReply)

  datatype UploadError =
    | FileMissing(file: string)
    | StartFailed
    | StartRejected(status: int)
    | NoUploadUrl
    | OpenFailed(file: string)
    | FinishFailed
    | FinishRejected(status: int, readOk: bool)
    | Undecodable

  const StatusOK := 200

  /** The body of the start request, naming the file by its base name. */
  function StartBody(file: string): string {
    "{\"file\":{\"display_name\":\"" + Base(file) + "\"}}"
  }

  /** The start request of the handshake. */
  function StartRequest(file: string, contentType: string, target: Target, size: nat): HttpRequest {
    HttpRequest(target, map[
      "X-Goog-Upload-Protocol" := "resumable",
      "X-Goog-Upload-Command" := "start",
      "X-Goog-Upload-Header-Content-Length" := NatToString(size),
      "X-Goog-Upload-Header-Content-Type" := contentType,
      "Content-Type" := "application/json"
    ], Text(StartBody(file)))
  }

  /** The request that sends the file's bytes to the URL phase one returned. */
  function FinishRequest(file: string, uploadUrl: string, size: nat): HttpRequest {
    HttpRequest(Direct(uploadUrl), map[
      "Content-Length" := NatToString(size),
      "X-Goog-Upload-Offset" := "0",
      "X-Goog-Upload-Command" := "upload, finalize"
    ], FileContents(file))
  }

  /** Phase one succeeded: the file exists and the server answered the start
      request with 200 and an upload URL. */
  predicate StartAccepted(env: UploadEnv) {
    env.size.Some? && env.start.StartReplied? && env.start.status == StatusOK && env.start.uploadUrl != ""
  }

  /** The whole handshake succeeded. */
  predicate Completed(env: UploadEnv) {
    && StartAccepted(env) && env.canOpen
    && env.finish.FinishReplied? && env.finish.status == StatusOK && env.finish.readOk
    && env.finish.file.Some?
  }

  /** The requests the handshake issues, in order: none when the file
      cannot be sized, then the start request, then, once the start was
      accepted and the file opened, the upload to the URL phase one
      returned. */
  predicate HandshakeRequests(file: string, contentType: string, target: Target, env: UploadEnv, sent: seq<HttpRequest>) {
    && (env.size.None? ==> sent == [])
    && (env.size.Some? ==> |sent| >= 1 && sent[0] == StartRequest(file, contentType, target, env.size.value))
    && |sent| <= 2
    && (|sent| == 2 <==> StartAccepted(env) && env.canOpen)
    && (|sent| == 2 ==> sent[1] == FinishRequest(file, env.start.uploadUrl, env.size.value))
  }

  /** The error of a handshake that does not complete: that of the first
      phase that goes wrong, checked in the order of resource.go. */
  function UploadFailure(file: string, env: UploadEnv): UploadError
    requires !Completed(env)
  {
    if env.size.None? then FileMissing(file)
    else if env.start.StartUnreachable? then StartFailed
    else if env.start.status != StatusOK then StartRejected(env.start.status)
    else if env.start.uploadUrl == "" then NoUploadUrl
    else if !env.canOpen then OpenFailed(file)
    else if env.finish.FinishUnreachable? then FinishFailed
    else if env.finish.status != StatusOK || !env.finish.readOk then FinishRejected(env.finish.status, env.finish.readOk)
    else Undecodable
  }

  /** The two-phase handshake: returns the requests it issued, in order, and
      the server's description of the uploaded file or the first error. */
  method Handshake(file: string, contentType: string, target: Target, env: UploadEnv)
    returns (sent: seq<HttpRequest>, r: Result<UploadedFile, UploadError>)
    ensures HandshakeRequests(file, contentType, target, env, sent)
    ensures env.size.None? ==> r == Failure(FileMissing(file))
    ensures env.size.Some? && env.start.StartUnreachable? ==> r == Failure(StartFailed)
    ensures env.size.Some? && env.start.StartReplied? && env.start.status != StatusOK ==>
              r == Failure(StartRejected(env.start.status))
    ensures env.size.Some? && env.start == StartReplied(StatusOK, "") ==> r == Failure(NoUploadUrl)
    ensures StartAccepted(env) && !env.canOpen ==> r == Failure(OpenFailed(file))
    ensures StartAccepted(env) && env.canOpen && env.finish.FinishUnreachable? ==> r == Failure(FinishFailed)
    ensures StartAccepted(env) && env.canOpen && env.finish.FinishReplied?
            && (env.finish.status != StatusOK || !env.finish.readOk) ==>
              r == Failure(FinishRejected(env.finish.status, env.finish.readOk))
    ensures StartAccepted(env) && env.canOpen && env.finish.FinishReplied?
            && env.finish.status == StatusOK && env.finish.readOk && env.finish.file.None? ==>
              r == Failure(Undecodable)
    ensures r.Success? <==> Completed(env)
    ensures r.Failure? ==> r.error == UploadFailure(file, env)
    ensures r.Success? ==> r.value == env.finish.file.value
  {
    sent := [];
    if env.size.None? {
      return sent, Failure(FileMissing(file));
    }
    var size := env.size.value;

    var headers: map<string, string> := map[];
    headers := headers["X-Goog-Upload-Protocol" := "resumable"];
    headers := headers["X-Goog-Upload-Command" := "start"];
    headers := headers["X-Goog-Upload-Header-Content-Length" := NatToString(size)];
    headers := headers["X-Goog-Upload-Header-Content-Type" := contentType];
    headers := headers["Content-Type" := "application/json"];
    sent := sent + [HttpRequest(target, headers, Text(StartBody(file)))];

    if env.start.StartUnreachable? {
      return sent, Failure(StartFailed);
    }
    if env.start.status != StatusOK {
      return sent, Failure(StartRejected(env.start.status));
    }
    var uploadUrl := env.start.uploadUrl;
    if uploadUrl == "" {
      return sent, Failure(NoUploadUrl);
    }
    if !env.canOpen {
      return sent, Failure(OpenFailed(file));
    }

    headers := map[];
    headers := headers["Content-Length" := NatToString(size)];
    headers := headers["X-Goog-Upload-Offset" := "0"];
    headers := headers["X-Goog-Upload-Command" := "upload, finalize"];
    sent := sent + [HttpRequest(Direct(uploadUrl), headers, FileContents(file))];

    if env.finish.FinishUnreachable? {
      return sent, Failure(FinishFailed);
    }
    if env.finish.status != StatusOK || !env.finish.readOk {
      return sent, Failure(FinishRejected(env.finish.status, env.finish.readOk));
    }
    if env.finish.file.None? {
      return sent, Failure(Undecodable);
    }
    r := Success(env.finish.file.value);
  }

  /** The start request announces the protocol, the command, the file's size
      (as a decimal that reads back as the size), its content type, and the
      file's base name as the display name. */
  lemma StartRequestCarries(file: string, contentType: string, target: Target, size: nat)
    ensures var rq := StartRequest(file, contentType, target, size);
            && rq.headers["X-Goog-Upload-Protocol"] == "resumable"
            && rq.headers["X-Goog-Upload-Command"] == "start"
            && ParseNat(rq.headers["X-Goog-Upload-Header-Content-Length"]) == size
            && rq.headers["X-Goog-Upload-Header-Content-Type"] == contentType
            && rq.body.text[|"{\"file\":{\"display_name\":\""|..|rq.body.text| - |"\"}}"|] == Base(file)
  {
    ParseNatToString(size);
  }

  /** The upload request offers the whole file from offset 0 and finalises. */
  lemma FinishRequestCarries(file: string, uploadUrl: string, size: nat)
    ensures var rq := FinishRequest(file, uploadUrl, size);
            && rq.target == Direct(uploadUrl)
            && ParseNat(rq.headers["Content-Length"]) == size
            && rq.headers["X-Goog-Upload-Offset"] == "0"
            && rq.headers["X-Goog-Upload-Command"] == "upload, finalize"
            && rq.body == FileContents(file)
  {
    ParseNatToString(size);
  }

  /** Upload: the handshake with the content type of the file's extension,
      its result turned into a Reference. */
  method Upload(req: UploadRequest, env: UploadEnv) returns (sent: seq<HttpRequest>, r: Result<Reference, UploadError>)
    ensures HandshakeRequests(req.file, ContentType(req.file), Expand(req.url, req.key), env, sent)
    ensures r.Success? <==> Completed(env)
    ensures r.Failure? ==> r.error == UploadFailure(req.file, env)
    ensures r.Success? ==>
              var f := env.finish.file.value;
              r.value == Reference(f.uri, f.mimeType, f.displayName)
  {
    var contentType := ContentType(req.file);
    var uploaded;
    sent, uploaded := Handshake(req.file, contentType, Expand(req.url, req.key), env);
    if uploaded.Failure? {
      return sent, Failure(uploaded.error);
    }
    var f := uploaded.value;
    r := Success(Reference(f.uri, f.mimeType, f.displayName));
  }
}
