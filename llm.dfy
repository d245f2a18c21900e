/** The generation client of llm/llm.go: Generate validates the
    configuration, assembles the system instruction and the conversation
    contents, uploads an attached file, picks the tools and the generation
    settings, sends the request and reads the first candidate of the reply.
    The network is replaced by the replies it gives, so the request is a
    value and the reply an input. */
module Llm {
  import opened Wrappers
  import opened Text
  import opened Escaping
  import Resource

  const RoleUser := "user"
  const RoleModel := "model"
  const FinishReasonStop := "STOP"
  const JsonMimeType := "application/json"
  /** The content type uploadFile declares for every file it sends. */
  const UploadContentType := "text/plain"

  datatype User = User(name: string, location: string, description: string)

  /** Temperature and top-p are only compared with zero and copied, so they
      are reals here; the float64 arithmetic of the source plays no part. */
  datatype Config = Config(
    apiKey: string, apiUrl: string, uploadUrl: string, systemPrompt: string,
    responseStyle: string, model: string, maxTokens: int, temperature: real,
    topP: real, user: User)

  /** A turn of an earlier conversation, with at most one attached file. */
  datatype Message = Message(role: string, text: string, fileUri: string, fileMimeType: string)

  datatype Prompt = Prompt(history: seq<Message>, text: string, file: string, schema: string, grounding: bool)

  datatype Response = Response(tokens: int, text: string, fileUri: string, fileMimeType: string)

  // ---------------------------------------------------------------------
  // Wire types: the request and reply bodies of the generateContent call

  datatype FileData = FileData(uri: string, mimeType: string)

  /** A part carries text, or a reference to an uploaded file. */
  datatype Part = Part(text: string, file: Option<FileData>)

  datatype Content = Content(role: string, parts: seq<Part>)

  datatype Tool = GoogleSearch

  datatype GenerationConfig = GenerationConfig(
    temperature: real, topP: real, maxOutputTokens: int,
    responseMimeType: string, responseSchema: Option<string>)

  datatype Request = Request(
    systemInstruction: seq<Part>, contents: seq<Content>, tools: seq<Tool>,
    generationConfig: GenerationConfig)

  datatype Candidate = Candidate(content: Content, finishReason: string)

  datatype WireResponse = WireResponse(candidates: seq<Candidate>, totalTokenCount: int)

  /** The server's answer to the generation request: unreachable, or whether
      the body could be read, the status, and what the body decodes to (None
      when it does not decode). */
  datatype Reply = Unreachable | Replied(bodyRead: bool, status: int, decoded: Option<WireResponse>)

  /** Everything Generate learns from outside: the upload replies, whether
      the JSON encoder accepts the raw schema text, and the reply. */
  datatype GenerateEnv = GenerateEnv(upload: Resource.UploadEnv, schemaEncodes: bool, reply: Reply)

  datatype GenerateError =
    | InvalidConfig
    | GroundingWithSchema
    | UploadFailed(cause: Resource.UploadError)
    | EncodeFailed
    | SendFailed
    | ReadFailed
    | NonOK(status: int)
    | Unparsable
    | NoValidCandidate

  // ---------------------------------------------------------------------
  // Validation

  /** Model, token limit and temperature are all set. */
  predicate Usable(cfg: Config) {
    cfg.model != "" && cfg.maxTokens != 0 && cfg.temperature != 0.0
  }

  /** The checks made before anything is uploaded or sent; the configuration
      is checked first. */
  function Validate(cfg: Config, prompt: Prompt): (err: Option<GenerateError>)
    ensures err.None? <==> Usable(cfg) && !(prompt.grounding && prompt.schema != "")
    ensures !Usable(cfg) ==> err == Some(InvalidConfig)
    ensures Usable(cfg) && prompt.grounding && prompt.schema != "" ==> err == Some(GroundingWithSchema)
  {
    if cfg.model == "" || cfg.maxTokens == 0 || cfg.temperature == 0.0 then Some(InvalidConfig)
    else if prompt.grounding && prompt.schema != "" then Some(GroundingWithSchema)
    else None
  }

  // ---------------------------------------------------------------------
  // The system instruction

  /** The terminal guidance of llm.go, one constant per source line; each
      line after the first is indented by the two tabs of the raw string. */
  const GuidanceLine1 := "Your responses are printed to a linux terminal. "
  const GuidanceLine2 := "You will ensure those responses are concise and easily rendered in a linux terminal."
  const GuidanceLine3 := "You will not use markdown syntax in your responses as this is not rendered well in terminal output. "
  const GuidanceLine4 := "However you may use clear, plain text formatting that can be read easily and immediately by a human, such as using dashes for list delimiters. "
  const GuidanceLine5 := "All answers should be factually correct and you should take caution regarding hallucinations. "
  const GuidanceLine6 := "You should only answer the specific question given; do not proactively include additional information that is not directly relevant to the question. "
  const Guidance := GuidanceLine1 + "\n\t\t" + GuidanceLine2 + "\n\t\t" + GuidanceLine3 + "\n\t\t" + GuidanceLine4 + "\n\t\t" + GuidanceLine5 + "\n\t\t" + GuidanceLine6 + "\n\t\t"

  const StyleKey := "preferred response style; note that this only refines your output and does not override any previous instruction where there is a contradiction"

  const LeadIn := "Consider in your responses, where it may be relevant, that the user has provided this information regarding their "

  function AttributeLead(key: string): string {
    LeadIn + key + ": "
  }

  /** One clause about the user, or nothing when the value is unset. */
  function Attribute(key: string, value: string): string {
    if value == "" then "" else AttributeLead(key) + Quote(value) + ". "
  }

  /** The word-limit sentence; `words` is how fmt's %v writes MaxTokens * 0.75. */
  const LimitOpening := "Your responses must not exceed "
  const LimitClosing := " words in length. "

  function WordLimit(words: string): string {
    LimitOpening + words + LimitClosing
  }

  /** What Generate writes to its builder, in order: the configured prompt,
      the guidance text, the word limit, then the attribute clauses. The
      guidance is a parameter so that the lemmas below hold for any text
      in its place, the one of llm.go included. */
  function InstructionPieces(guidance: string, cfg: Config, words: string): seq<string> {
    [cfg.systemPrompt + ". ", guidance, WordLimit(words),
     Attribute("location", cfg.user.location), Attribute("name", cfg.user.name),
     Attribute("description", cfg.user.description), Attribute(StyleKey, cfg.responseStyle)]
  }

  function Instruction(guidance: string, cfg: Config, words: string): string {
    Concat(InstructionPieces(guidance, cfg, words))
  }

  /** The system instruction Generate sends. */
  function SystemInstruction(cfg: Config, words: string): string {
    Instruction(Guidance, cfg, words)
  }

  /** Seven strings written one after another: the first begins the text
      and each of them occurs in it. */
  lemma SevenWritten(p0: string, p1: string, p2: string, p3: string, p4: string, p5: string, p6: string)
    ensures var w := Concat([p0, p1, p2, p3, p4, p5, p6]);
      && HasPrefix(w, p0) && Contains(w, p1) && Contains(w, p2) && Contains(w, p3)
      && Contains(w, p4) && Contains(w, p5) && Contains(w, p6)
  {
    var pieces := [p0, p1, p2, p3, p4, p5, p6];
    ConcatFirst(pieces);
    ConcatHasPiece(pieces, 1);
    ConcatHasPiece(pieces, 2);
    ConcatHasPiece(pieces, 3);
    ConcatHasPiece(pieces, 4);
    ConcatHasPiece(pieces, 5);
    ConcatHasPiece(pieces, 6);
  }

  /** Every piece Generate writes occurs in the instruction, which opens
      with the first. */
  lemma InstructionWritten(guidance: string, cfg: Config, words: string)
    ensures var w := Instruction(guidance, cfg, words);
      && HasPrefix(w, cfg.systemPrompt + ". ") && Contains(w, guidance) && Contains(w, WordLimit(words))
      && Contains(w, Attribute("location", cfg.user.location)) && Contains(w, Attribute("name", cfg.user.name))
      && Contains(w, Attribute("description", cfg.user.description))
      && Contains(w, Attribute(StyleKey, cfg.responseStyle))
  {
    SevenWritten(cfg.systemPrompt + ". ", guidance, WordLimit(words),
      Attribute("location", cfg.user.location), Attribute("name", cfg.user.name),
      Attribute("description", cfg.user.description), Attribute(StyleKey, cfg.responseStyle));
  }

  lemma QuotedAfter(lead: string, value: string)
    ensures HasPrefix(lead + Quote(value) + ". ", lead + "\"")
  {
    OpenedQuote(lead, "\"", QuoteBody(value) + "\"" + ". ");
  }

  lemma OpenedQuote(lead: string, mark: string, rest: string)
    ensures HasPrefix(lead + mark + rest, lead + mark)
  {
    PrefixOfAppend(lead + mark, rest);
  }

  /** A set attribute is written as its lead-in and its quoted value, and the
      quoted text reads back as the value; an unset one is not written. */
  lemma AttributeQuoted(key: string, value: string)
    ensures value == "" ==> Attribute(key, value) == ""
    ensures value != "" ==> HasPrefix(Attribute(key, value), AttributeLead(key) + "\"")
    ensures Unquote(QuoteBody(value)) == Some(value)
  {
    QuotedAfter(AttributeLead(key), value);
    UnquoteQuote(value);
  }

  predicate Plain(s: string) {
    forall i :: 0 <= i < |s| ==> QuotesAsItself(s[i])
  }

  lemma PlainQuoted(lead: string, value: string)
    requires Plain(value)
    ensures Contains(lead + Quote(value) + ". ", value)
  {
    QuotePlain(value);
    assert lead + Quote(value) + ". " == (lead + "\"") + value + ("\"" + ". ");
    ContainsInfix(lead + "\"", value, "\"" + ". ");
  }

  lemma AttributeContains(key: string, value: string)
    requires value != "" && Plain(value)
    ensures Contains(Attribute(key, value), value)
  {
    PlainQuoted(AttributeLead(key), value);
  }

  /** The configured system prompt appears verbatim in the instruction. */
  lemma InstructionMentionsPrompt(guidance: string, cfg: Config, words: string)
    ensures Contains(Instruction(guidance, cfg, words), cfg.systemPrompt)
  {
    InstructionWritten(guidance, cfg, words);
    PrefixOfAppend(cfg.systemPrompt, ". ");
    PrefixTransitive(Instruction(guidance, cfg, words), cfg.systemPrompt + ". ", cfg.systemPrompt);
    PrefixContained(Instruction(guidance, cfg, words), cfg.systemPrompt);
  }

  /** A set attribute whose value needs no escaping appears verbatim in the
      instruction. */
  lemma AttributeMentioned(w: string, key: string, value: string)
    requires Contains(w, Attribute(key, value))
    ensures value != "" && Plain(value) ==> Contains(w, value)
  {
    if value != "" && Plain(value) {
      AttributeContains(key, value);
      ContainsTransitive(w, Attribute(key, value), value);
    }
  }

  lemma InstructionMentionsUser(guidance: string, cfg: Config, words: string)
    ensures cfg.user.location != "" && Plain(cfg.user.location) ==> Contains(Instruction(guidance, cfg, words), cfg.user.location)
    ensures cfg.user.name != "" && Plain(cfg.user.name) ==> Contains(Instruction(guidance, cfg, words), cfg.user.name)
    ensures cfg.user.description != "" && Plain(cfg.user.description) ==> Contains(Instruction(guidance, cfg, words), cfg.user.description)
    ensures cfg.responseStyle != "" && Plain(cfg.responseStyle) ==> Contains(Instruction(guidance, cfg, words), cfg.responseStyle)
  {
    var w := Instruction(guidance, cfg, words);
    InstructionWritten(guidance, cfg, words);
    AttributeMentioned(w, "location", cfg.user.location);
    AttributeMentioned(w, "name", cfg.user.name);
    AttributeMentioned(w, "description", cfg.user.description);
    AttributeMentioned(w, StyleKey, cfg.responseStyle);
  }

  // ---------------------------------------------------------------------
  // Contents, tools and settings

  function TextPart(text: string): Part {
    Part(text, None)
  }

  function FilePart(uri: string, mimeType: string): Part {
    Part("", Some(FileData(uri, mimeType)))
  }

  /** The content an earlier message becomes: its role, its text, and its
      file when it has one. */
  function HistoryContent(m: Message): Content {
    Content(m.role, [TextPart(m.text)] + (if m.fileUri != "" then [FilePart(m.fileUri, m.fileMimeType)] else []))
  }

  function HistoryContents(history: seq<Message>): seq<Content> {
    seq(|history|, i requires 0 <= i < |history| => HistoryContent(history[i]))
  }

  /** The content of the new prompt: the user's text and the uploaded file. */
  function PromptContent(text: string, uploaded: Option<FileData>): Content {
    Content(RoleUser, [TextPart(text)] + (if uploaded.Some? then [Part("", uploaded)] else []))
  }

  function Tools(grounding: bool): seq<Tool> {
    if grounding then [GoogleSearch] else []
  }

  function Settings(cfg: Config, schema: string): GenerationConfig {
    var base := GenerationConfig(cfg.temperature, cfg.topP, cfg.maxTokens, "", None);
    if schema != "" then base.(responseMimeType := JsonMimeType, responseSchema := Some(schema)) else base
  }

  /** The request Generate sends, given the system instruction it wrote and
      the file it uploaded (if any). */
  function RequestFor(instruction: string, cfg: Config, prompt: Prompt, uploaded: Option<FileData>): Request {
    Request(
      [TextPart(instruction)],
      HistoryContents(prompt.history) + [PromptContent(prompt.text, uploaded)],
      Tools(prompt.grounding),
      Settings(cfg, prompt.schema))
  }

  /** The contents replay the history in order, one entry per message, and
      end with the new prompt from the user. */
  lemma RequestContents(instruction: string, cfg: Config, prompt: Prompt, uploaded: Option<FileData>)
    ensures var cs := RequestFor(instruction, cfg, prompt, uploaded).contents;
      && |cs| == |prompt.history| + 1
      && (forall i :: 0 <= i < |prompt.history| ==>
            var m := prompt.history[i];
            && cs[i].role == m.role
            && cs[i].parts[0] == TextPart(m.text)
            && (|cs[i].parts| == 2 <==> m.fileUri != "")
            && (|cs[i].parts| == 2 ==> cs[i].parts[1].file == Some(FileData(m.fileUri, m.fileMimeType)))
            && |cs[i].parts| <= 2)
      && cs[|prompt.history|].role == RoleUser
      && cs[|prompt.history|].parts[0] == TextPart(prompt.text)
      && (|cs[|prompt.history|].parts| == 2 <==> uploaded.Some?)
      && (uploaded.Some? ==> cs[|prompt.history|].parts[1].file == uploaded)
  {
  }

  /** One search tool exactly when grounding is asked for; the sampling
      settings are copied; a schema asks for JSON and is embedded verbatim. */
  lemma RequestSettings(instruction: string, cfg: Config, prompt: Prompt, uploaded: Option<FileData>)
    ensures var rq := RequestFor(instruction, cfg, prompt, uploaded);
      && (rq.tools == [GoogleSearch] <==> prompt.grounding)
      && (rq.tools == [] <==> !prompt.grounding)
      && rq.generationConfig.temperature == cfg.temperature
      && rq.generationConfig.topP == cfg.topP
      && rq.generationConfig.maxOutputTokens == cfg.maxTokens
      && (prompt.schema != "" ==>
            rq.generationConfig.responseMimeType == JsonMimeType && rq.generationConfig.responseSchema == Some(prompt.schema))
      && (prompt.schema == "" ==> rq.generationConfig.responseSchema.None?)
      && rq.systemInstruction == [TextPart(instruction)]
  {
  }

  /** The loop of Generate over the history. */
  method BuildHistory(history: seq<Message>) returns (contents: seq<Content>)
    ensures contents == HistoryContents(history)
  {
    contents := [];
    for i := 0 to |history|
      invariant contents == HistoryContents(history[..i])
    {
      var message := history[i];
      var content := Content(message.role, [TextPart(message.text)]);
      if message.fileUri != "" {
        content := content.(parts := content.parts + [FilePart(message.fileUri, message.fileMimeType)]);
      }
      assert content == HistoryContent(message);
      assert HistoryContents(history[..i + 1]) == HistoryContents(history[..i]) + [HistoryContent(history[i])];
      contents := contents + [content];
    }
    assert history[..|history|] == history;
  }

  // ---------------------------------------------------------------------
  // Reading the reply

  /** The texts of the parts, in order, run together. */
  function PartsText(parts: seq<Part>): string {
    if parts == [] then "" else PartsText(parts[..|parts| - 1]) + parts[|parts| - 1].text
  }

  lemma {:induction false} PartsTextAppend(a: seq<Part>, b: seq<Part>)
    ensures PartsText(a + b) == PartsText(a) + PartsText(b)
    decreases |b|
  {
    if b == [] {
      assert a + b == a;
    } else {
      var b' := b[..|b| - 1];
      assert (a + b)[..|a + b| - 1] == a + b';
      assert (a + b)[|a + b| - 1] == b[|b| - 1];
      calc {
        PartsText(a + b);
        PartsText(a + b') + b[|b| - 1].text;
        { PartsTextAppend(a, b'); }
        PartsText(a) + PartsText(b') + b[|b| - 1].text;
        PartsText(a) + PartsText(b);
      }
    }
  }

  /** The loop of Generate over the first candidate's parts. */
  method ConcatParts(parts: seq<Part>) returns (text: string)
    ensures text == PartsText(parts)
  {
    text := "";
    for i := 0 to |parts|
      invariant text == PartsText(parts[..i])
    {
      assert parts[..i + 1][..i] == parts[..i];
      text := text + parts[i].text;
    }
    assert parts[..|parts|] == parts;
  }

  datatype Answer = Answer(text: string, tokens: int)

  /** A reply is good when it was read, its status is 200, it decodes, and
      its first candidate finished with STOP. */
  predicate Answered(reply: Reply) {
    && reply.Replied? && reply.bodyRead && reply.status == 200 && reply.decoded.Some?
    && |reply.decoded.value.candidates| > 0
    && reply.decoded.value.candidates[0].finishReason == FinishReasonStop
  }

  /** What Generate makes of the reply: the first candidate's text and the
      total token count, or the first check that fails. */
  function ParseReply(reply: Reply): (r: Result<Answer, GenerateError>)
    ensures r.Success? <==> Answered(reply)
  {
    if reply.Unreachable? then Failure(SendFailed)
    else if !reply.bodyRead then Failure(ReadFailed)
    else if reply.status != 200 then Failure(NonOK(reply.status))
    else if reply.decoded.None? then Failure(Unparsable)
    else
      var response := reply.decoded.value;
      if |response.candidates| == 0 || response.candidates[0].finishReason != FinishReasonStop then
        Failure(NoValidCandidate)
      else
        Success(Answer(PartsText(response.candidates[0].content.parts), response.totalTokenCount))
  }

  /** The answer is the first candidate's parts, in order, and the usage
      total; candidates after the first make no difference. */
  lemma ParseReplyFirstCandidate(c: Candidate, rest: seq<Candidate>, tokens: int, status: int)
    requires c.finishReason == FinishReasonStop
    ensures var reply := Replied(true, 200, Some(WireResponse([c] + rest, tokens)));
      && ParseReply(reply) == ParseReply(Replied(true, 200, Some(WireResponse([c], tokens))))
      && ParseReply(reply).value.tokens == tokens
      && ParseReply(reply).value.text == PartsText(c.content.parts)
  {
  }

  /** A status other than 200 is an error whatever the body says. */
  lemma ParseReplyStatus(reply: Reply)
    requires reply.Replied? && reply.bodyRead && reply.status != 200
    ensures ParseReply(reply) == Failure(NonOK(reply.status))
  {
  }

  // ---------------------------------------------------------------------
  // Generate

  /** The requests of uploadFile's handshake: those of the resource
      handshake, with the fixed content type and the configured upload URL. */
  predicate UploadRequests(cfg: Config, file: string, env: Resource.UploadEnv, sent: seq<Resource.HttpRequest>) {
    Resource.HandshakeRequests(file, UploadContentType, Resource.Expand(cfg.uploadUrl, cfg.apiKey), env, sent)
  }

  /** uploadFile: the upload handshake with the fixed content type, giving
      the file's URI and that content type. */
  method UploadFile(cfg: Config, file: string, env: Resource.UploadEnv)
    returns (sent: seq<Resource.HttpRequest>, r: Result<FileData, Resource.UploadError>)
    ensures UploadRequests(cfg, file, env, sent)
    ensures r.Success? <==> Resource.Completed(env)
    ensures r.Failure? ==> r.error == Resource.UploadFailure(file, env)
    ensures r.Success? ==> r.value == FileData(env.finish.file.value.uri, UploadContentType)
  {
    var uploaded;
    sent, uploaded := Resource.Handshake(file, UploadContentType, Resource.Expand(cfg.uploadUrl, cfg.apiKey), env);
    if uploaded.Failure? {
      return sent, Failure(uploaded.error);
    }
    r := Success(FileData(uploaded.value.uri, UploadContentType));
  }

  /** The file reference Generate attaches, when it has one to attach. */
  function Uploaded(prompt: Prompt, env: GenerateEnv): Option<FileData> {
    if prompt.file != "" && Resource.Completed(env.upload) then
      Some(FileData(env.upload.finish.file.value.uri, UploadContentType))
    else None
  }

  /** The request is sent when validation passes, the file (if any) was
      uploaded, and the schema text encodes. */
  predicate Sends(cfg: Config, prompt: Prompt, env: GenerateEnv) {
    && Validate(cfg, prompt).None?
    && (prompt.file == "" || Resource.Completed(env.upload))
    && (prompt.schema == "" || env.schemaEncodes)
  }

  /** Generate: returns the upload requests it issued, the generation request
      it sent (if it got that far) and the response or the first error. */
  method Generate(cfg: Config, prompt: Prompt, words: string, env: GenerateEnv)
    returns (uploads: seq<Resource.HttpRequest>, sent: Option<Request>, r: Result<Response, GenerateError>)
    ensures Validate(cfg, prompt).Some? ==>
              uploads == [] && sent == None && r == Failure(Validate(cfg, prompt).value)
    ensures prompt.file == "" ==> uploads == []
    ensures Validate(cfg, prompt).None? && prompt.file != "" ==> UploadRequests(cfg, prompt.file, env.upload, uploads)
    ensures Validate(cfg, prompt).None? && prompt.file != "" && !Resource.Completed(env.upload) ==>
              sent == None && r == Failure(UploadFailed(Resource.UploadFailure(prompt.file, env.upload)))
    ensures sent.Some? <==> Sends(cfg, prompt, env)
    ensures sent.Some? ==> sent.value == RequestFor(SystemInstruction(cfg, words), cfg, prompt, Uploaded(prompt, env))
    ensures Validate(cfg, prompt).None? && (prompt.file == "" || Resource.Completed(env.upload))
            && prompt.schema != "" && !env.schemaEncodes ==>
              sent == None && r == Failure(EncodeFailed)
    ensures Sends(cfg, prompt, env) && !Answered(env.reply) ==> r == Failure(ParseReply(env.reply).error)
    ensures r.Success? <==> Sends(cfg, prompt, env) && Answered(env.reply)
    ensures r.Success? ==>
              var answer := ParseReply(env.reply).value;
              var file := Uploaded(prompt, env);
              && r.value.text == answer.text && r.value.tokens == answer.tokens
              && r.value.fileUri == (if file.Some? then file.value.uri else "")
              && r.value.fileMimeType == (if file.Some? then UploadContentType else "")
  {
    uploads, sent := [], None;
    var invalid := Validate(cfg, prompt);
    if invalid.Some? {
      return uploads, sent, Failure(invalid.value);
    }

    var systemPrompt := SystemInstruction(cfg, words);
    var contents := BuildHistory(prompt.history);
    var content := Content(RoleUser, [TextPart(prompt.text)]);

    var fileUri, fileMimeType := "", "";
    if prompt.file != "" {
      var uploaded;
      uploads, uploaded := UploadFile(cfg, prompt.file, env.upload);
      if uploaded.Failure? {
        return uploads, sent, Failure(UploadFailed(uploaded.error));
      }
      fileUri, fileMimeType := uploaded.value.uri, uploaded.value.mimeType;
      content := content.(parts := content.parts + [Part("", Some(uploaded.value))]);
    }
    contents := contents + [content];

    var tools: seq<Tool> := [];
    if prompt.grounding {
      tools := [GoogleSearch];
    }

    var settings := GenerationConfig(cfg.temperature, cfg.topP, cfg.maxTokens, "", None);
    if prompt.schema != "" {
      settings := settings.(responseMimeType := JsonMimeType, responseSchema := Some(prompt.schema));
    }

    if prompt.schema != "" && !env.schemaEncodes {
      return uploads, sent, Failure(EncodeFailed);
    }
    var request := Request([TextPart(systemPrompt)], contents, tools, settings);
    assert content == PromptContent(prompt.text, Uploaded(prompt, env));
    assert request == RequestFor(SystemInstruction(cfg, words), cfg, prompt, Uploaded(prompt, env));
    sent := Some(request);

    var reply := env.reply;
    if reply.Unreachable? {
      return uploads, sent, Failure(SendFailed);
    }
    if !reply.bodyRead {
      return uploads, sent, Failure(ReadFailed);
    }
    if reply.status != 200 {
      return uploads, sent, Failure(NonOK(reply.status));
    }
    if reply.decoded.None? {
      return uploads, sent, Failure(Unparsable);
    }
    var response := reply.decoded.value;
    if |response.candidates| == 0 || response.candidates[0].finishReason != FinishReasonStop {
      return uploads, sent, Failure(NoValidCandidate);
    }
    var text := ConcatParts(response.candidates[0].content.parts);
    r := Success(Response(response.totalTokenCount, text, fileUri, fileMimeType));
  }
}
