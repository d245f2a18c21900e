# q: session store, schema compiler and generation client, in Dafny

This project models the core of `q`, a command-line client for a
generative-language API, and proves properties of that model. It covers
three pieces.

- **The session store** (`session.dfy`, module `Session`) is a directory of
  conversation files. At most one of them is *active*, meaning its name ends
  in `.active`.
  - The directory is the field `files` of the class `Session.Store`. It is a
    map from file name to the file's content, modification time and kind
    (a regular file, a directory, or anything else).
  - Write, Read, Stash, Restore, Delete, DeleteAll and List are methods that
    update that map in place.
  - Each method is proved against a function on the old directory: `WriteOp`,
    `ReadOp`, `StashOp`, `RestoreOp`, `DeleteOp` and `ListAsWritten`.
  - Lemmas about those functions state what the operations achieve and that
    they keep the invariant `Consistent`: at most one active file, and
    stashing it gives a name that is not active.
  - os.ReadDir lists names in increasing byte order (`Text.SortedKeys`).
  - List numbers records by directory position and then stable-sorts them by
    modification time (`SortByTime`, an insertion sort, which is stable as
    sort.SliceStable is).
- **The schema compiler** (`schema.dfy`, module `SchemaDsl`) turns a
  definition `name:type[:description],...` into the JSON text of an object
  schema, a subset of the Schema Object of section 4.7.24 of the OpenAPI
  Specification 3.0.3.
  - `Build` is the loop of schema.go, proved equal to the function
    `BuildSpec`.
  - `Serialise` writes JSON with keys in increasing order, as json.Marshal
    does for maps (`Escaping.JsonString` is its string encoding).
- **The generation client** (`llm.dfy`, module `Llm`) and **the upload
  handshake** (`resource.dfy`, module `Resource`). The network is replaced
  by the replies it gives.
  - `Generate` returns the requests it would send together with the response
    or the first error.
  - The request is the value `RequestFor(...)` of a pure builder. Reading the
    reply is the function `ParseReply`.
  - `Resource.Handshake` is the two-phase resumable upload (a `start`
    request, then `upload, finalize`), written out step by step.

Shared helpers:
- `text.dfy` (module `Text`): the `strings` functions the source calls and the byte order on names.
- `escaping.dfy` (module `Escaping`): JSON string escaping and `%q` quoting.
- `wrappers.dfy`: `Option` and `Result`.

Read creates the active session file when none exists
(session/file_util.go:74, reached from Read at session/session.go:68), so the
file can exist before any Write. The finding below rests on this.

## Model

| member | source | states |
|---|---|---|
| Text.Split | schema/schema.go:31 | strings.Split gives at least one piece, and no piece contains the separator |
| Text.JoinSplit | schema/schema.go:31 | joining the pieces of a split with the separator gives back the text |
| Text.SplitJoin | schema/schema.go:31-37 | splitting separator-free pieces joined by the separator gives back exactly those pieces |
| Text.SplitTrailing | schema/schema.go:31-35 | a separator at the end of the text adds one empty last piece |
| Text.TrimSpace | schema/schema.go:32 | the trimmed text is no longer than the input and neither of its ends is white space |
| Text.TrimSpacePadded | schema/schema.go:43-48 | trimming removes exactly the white space around a core whose ends are not white space |
| Text.TrimSpaceIdempotent | schema/schema.go:43-48 | trimming twice is trimming once |
| Text.TrimSuffix | session/session.go:174 | the suffix is removed when it is present and the name is unchanged otherwise |
| Text.TrimSuffixAppended | session/session.go:174 | removing a suffix just appended gives back the original name |
| Text.LessIrreflexive | session/session.go:133 | byte order on names is irreflexive |
| Text.LessTransitive | session/session.go:133 | byte order on names is transitive |
| Text.LessTotal | session/session.go:133 | any two distinct names are ordered one way or the other |
| Text.SortedKeys | session/session.go:97 | the directory listing is strictly increasing and holds exactly the names present |
| Text.IncreasingUnique | session/session.go:97 | there is only one strictly increasing listing of a set of names |
| Text.NatToString | llm/internal/resource/resource.go:62 | strconv's decimal text is non-empty and made of digits |
| Text.ParseNatToString | llm/internal/resource/resource.go:62 | the decimal text of a size reads back as that size |
| Escaping.JsonStringPlain | schema/schema.go:61 | text with nothing to escape is written by json.Marshal as itself in quotes |
| Escaping.JsonUnescapeEscape | schema/schema.go:61 | json.Marshal's escaping of a string decodes back to the string |
| Escaping.JsonStringInjective | schema/schema.go:61 | distinct property names are written as distinct JSON strings |
| Escaping.ParseHexOfHex | llm/llm.go:93 | the fixed-width hexadecimal digits of an escape read back as the code |
| Escaping.UnquoteQuote | llm/llm.go:93 | the body `%q` writes for a value reads back as the value |
| Escaping.QuotePlain | llm/llm.go:93 | a value with nothing to escape is quoted as itself between quotes |
| SchemaDsl.FieldErrors | schema/schema.go:32-53 | a field fails as missing exactly when it is empty once trimmed, as invalid exactly when it does not have 2 or 3 colon-separated parts, and as lacking a name or type exactly when its trimmed name or type is empty; it reads exactly when none of these holds |
| SchemaDsl.FirstUnreadableField | schema/schema.go:31-53 | when every earlier field reads, the first field that does not read decides the build: an empty field gives the missing-field error on the whole definition, a wrong part count the invalid-format error on the trimmed field, and otherwise the empty-name-or-type error |
| SchemaDsl.FirstFailureDecides | schema/schema.go:31-53 | compiling fails with the error of the first field that does not read when every field before it reads |
| SchemaDsl.Build | schema/schema.go:19-67 | the loop with its early returns computes BuildSpec; an empty definition or one starting with `{` is returned unchanged |
| SchemaDsl.TrailingCommaFails | schema/schema.go:31-35 | a definition ending in a comma fails to build |
| SchemaDsl.CompilePrefixFailure | schema/schema.go:33-53 | once a field fails, no later field changes the outcome and nothing partial is returned |
| SchemaDsl.CompileFailure | schema/schema.go:31-53 | building fails exactly when some field fails, with the error of the first field that fails |
| SchemaDsl.CompileNames | schema/schema.go:55-58 | the property names are exactly the field names |
| SchemaDsl.CompileLastWins | schema/schema.go:55-58 | a field's property is the one kept unless a later field has the same name |
| SchemaDsl.ParseFormattedField | schema/schema.go:37-53 | a field written `name:type:description` is read back as itself |
| SchemaDsl.ParseNameType | schema/schema.go:43-49 | a two-part field `name:type` is read with an empty description |
| SchemaDsl.PropertiesOfNames | schema/schema.go:55-58 | the properties of a list of fields are named by exactly those fields |
| SchemaDsl.BuildFormatted | schema/schema.go:19-66 | building a definition written out from fields gives the canonical schema of exactly those fields, a later duplicate name winning |
| SchemaDsl.SingleField | schema/schema.go:19-66 | `name:type` builds the schema with that one property and an empty description |
| SchemaDsl.SerialiseSingle | schema/schema.go:61 | a one-property schema is written `{"properties":{...},"type":"object"}` |
| SchemaDsl.MemberEmptyDescription | schema/schema.go:61 | a property with no description is written `{"description":"","type":...}` |
| Resource.LastElementAfterSlash | llm/internal/resource/resource.go:55 | the last path element of `dir/name` is `name` |
| Resource.BaseOfJoin | llm/internal/resource/resource.go:55 | the base name of `dir/name` is `name` |
| Resource.Ext | llm/internal/resource/resource.go:43 | filepath.Ext gives a suffix of the path that is empty or a dot followed by no dot or slash |
| Resource.ExtEmpty | llm/internal/resource/resource.go:43 | there is no extension exactly when the last path element has no dot |
| Resource.ExtOfExtension | llm/internal/resource/resource.go:43 | a name ending in an extension has exactly that extension |
| Resource.ContentType | llm/internal/resource/resource.go:43-46 | the content type is text/plain or a value of the table |
| Resource.ContentTypeKnown | llm/internal/resource/resource.go:27-46 | a file with an extension in the table gets that table entry |
| Resource.ContentTypeUnknown | llm/internal/resource/resource.go:43-46 | an extension outside the table gives text/plain |
| Resource.ContentTypeNoDot | llm/internal/resource/resource.go:43-46 | a file name without a dot gives text/plain |
| Resource.ContentTypeCaseSensitive | llm/internal/resource/resource.go:27-46 | extensions match case-sensitively: `.pdf` is application/pdf, `.PDF` is text/plain |
| Resource.StartRequestCarries | llm/internal/resource/resource.go:55-64 | the start request says resumable and start, and carries the file size, the content type and the base name |
| Resource.FinishRequestCarries | llm/internal/resource/resource.go:92-99 | the upload request goes to the returned URL with offset 0, `upload, finalize`, the file size and the file as its body |
| Resource.Handshake | llm/internal/resource/resource.go:48-130 | a missing file issues nothing; then the start request, and the upload to the returned URL exactly when the start is accepted and the file opens; each failure gives its own error (missing file, unreachable, refused or URL-less start, unopenable file, unreachable or refused upload, undecodable reply), the first phase to fail deciding it; success exactly when both phases succeed and the body decodes, returning the decoded file |
| Resource.Upload | llm/internal/resource/resource.go:41-139 | the handshake's requests, in order, with the content type chosen from the extension; success exactly when the handshake completes, with the reference made of the uri, MIME type and display name of the decoded reply; otherwise the error of the first phase that fails |
| Llm.Validate | llm/llm.go:70-76 | a missing model, token limit or temperature is rejected first, then grounding together with a schema |
| Llm.InstructionWritten | llm/llm.go:78-99 | the instruction opens with the system prompt and a full stop and contains the guidance, the word limit and each attribute clause |
| Llm.InstructionMentionsPrompt | llm/llm.go:79 | the configured system prompt occurs in the instruction |
| Llm.AttributeQuoted | llm/llm.go:89-94 | an unset attribute writes nothing; a set one writes its lead-in and a `%q` quotation that reads back as the value |
| Llm.InstructionMentionsUser | llm/llm.go:96-99 | a set location, name, description or response style needing no escaping occurs verbatim in the instruction |
| Llm.RequestContents | llm/llm.go:101-135 | one content per history message plus the prompt's; each keeps its role and text and has a file part exactly when it has a file; the last is the user's prompt with a file part exactly when a file was uploaded |
| Llm.RequestSettings | llm/llm.go:137-163 | one GoogleSearch tool exactly when grounding is on; temperature, top-p and token limit copied; a schema sets application/json and is embedded verbatim |
| Llm.BuildHistory | llm/llm.go:101-112 | the history loop builds exactly the contents of the history messages |
| Llm.PartsTextAppend | llm/llm.go:201-205 | the text of two runs of parts is the text of the first followed by the second |
| Llm.ConcatParts | llm/llm.go:201-205 | the builder loop concatenates the parts' text in order |
| Llm.ParseReply | llm/llm.go:173-214 | the reply gives an answer exactly when it was read, has status 200, decodes and its first candidate finished with STOP |
| Llm.ParseReplyFirstCandidate | llm/llm.go:197-210 | candidates after the first make no difference; the tokens are the usage total and the text is PartsText of the first candidate's parts, for any number of parts |
| Llm.ParseReplyStatus | llm/llm.go:187-189 | a status other than 200 is an error whatever the body holds |
| Llm.UploadFile | llm/llm.go:217-306 | the handshake with the fixed content type text/plain: no request when the file cannot be sized, then the start request, then the finish request to the returned upload URL once the start is accepted and the file opened; success exactly when the upload completes, giving the file's URI and that content type, and otherwise the error of the first phase that fails |
| Llm.Generate | llm/llm.go:69-215 | validation failures send nothing; with a file and valid settings, the upload requests are those of UploadFile; an upload failure stops before the request with UploadFile's error; a schema that does not encode stops before the request with EncodeFailed; the request is sent exactly when validation, upload and schema encoding succeed, and it is RequestFor(...); a sent request that is not answered fails with ParseReply's error (unreachable, unread body, non-200 status, undecodable reply, no STOP candidate); success exactly when it is sent and answered, with the answer's text and tokens and the uploaded file's reference |
| Session.Entries | session/session.go:97 | the listing holds exactly the directory's names, in increasing order |
| Session.FirstActive | session/file_util.go:41-51 | a regular listed entry whose name ends in `.active` and before which no listed entry is active, or none exactly when no entry is one |
| Session.FindsActive | session/file_util.go:41-51 | no active file is found exactly when there is none; with at most one, the one found is the active file |
| Session.ScanActive | session/file_util.go:41-49 | the loop with its early return finds FirstActive |
| Session.Moved | session/session.go:174 | os.Rename: the target gets the source's entry, the source is gone, nothing else changes |
| Session.StashBlockedOnlyByDirectory | session/session.go:167-179 | on a readable directory, Stash fails exactly when the active name without its suffix is taken by a directory; any other entry there is replaced by the session |
| Session.SummaryOf | session/session.go:118-128 | "no content" for an empty conversation; the first text when shorter than 50; otherwise its first 50 characters and "..." |
| Session.SummariseAsWritten | session/session.go:103-129 | summarise as written succeeds exactly on a file that decodes to a conversation |
| Session.Summarise | session/session.go:103-129 | the corrected summariser fails only on undecodable text, gives "no content" for a blank file and agrees with the as-written one elsewhere |
| Session.CollectSucceeds | session/session.go:133-157 | the loop fails exactly when some regular entry cannot be summarised |
| Session.CollectDescribes | session/session.go:133-157 | every record is a regular entry, numbered by its directory position plus one, with its mtime, its summary and active exactly when its name ends in `.active`; numbers increase |
| Session.CollectComplete | session/session.go:133-157 | every regular entry has a record |
| Session.Summaries | session/session.go:131-157 | the loop of List computes Collect with the chosen summariser: as written, or the corrected one |
| Session.InsertPermutes | session/session.go:159-161 | inserting adds exactly the one record |
| Session.InsertSorted | session/session.go:159-161 | inserting into a time-sorted list keeps it sorted |
| Session.InsertStable | session/session.go:159-161 | among records of one timestamp, an inserted record goes after the others |
| Session.SortByTimeSpec | session/session.go:159-161 | the sort is ascending by time, a permutation, and stable: the records of each timestamp keep their order |
| Session.ListingSucceeds | session/session.go:97-163 | List succeeds exactly when the directory reads and every regular file can be summarised |
| Session.ListingRecords | session/session.go:133-163 | the records are sorted by time, and each describes a regular entry as the loop made it |
| Session.ListingNames | session/session.go:133-163 | the records name exactly the regular files |
| Session.ListingStable | session/session.go:159-161 | records of equal timestamp stay in directory order |
| Session.BlankFileBreaksListing | session/session.go:114-116 | with a blank regular file, List as written fails, while the corrected List fails only on undecodable files |
| Session.FirstReadBreaksListing | session/session.go:67-81 | the first Read in an empty directory creates a blank active file; List as written then fails, while the corrected one shows one active empty session |
| Session.FreshName | session/file_util.go:74 | a new session file's name ends in `.active` |
| Session.FreshNameStashes | session/file_util.go:74 | a new session file, once stashed, is not active |
| Session.ActiveSession | session/file_util.go:29-52 | an unreadable directory is an error, not "no active file"; otherwise none exactly when no file is active, and a found one is active |
| Session.Open | session/file_util.go:54-80 | a successful open names an active regular file of the resulting directory |
| Session.Decode | session/session.go:78-86 | decoding fails exactly on undecodable text; a blank file is an empty conversation |
| Session.Exchange | session/session.go:52-59 | a Write adds two messages: the prompt, then the response |
| Session.OpenKeepsConsistent | session/file_util.go:54-80 | opening keeps the invariant, and afterwards the opened file is the only active one |
| Session.OpenExisting | session/file_util.go:66-72 | with an active file present, opening returns it and changes nothing |
| Session.WriteShape | session/session.go:34-64 | a successful Write rewrites the whole active file as the messages Read returned followed by the exchange |
| Session.WriteFailure | session/session.go:34-45 | a failed Write leaves only what opening left |
| Session.WriteKeepsConsistent | session/session.go:34-64 | Write keeps the invariant |
| Session.ReadAfterWrite | session/session.go:34-87 | reading after a Write gives the earlier conversation followed by exactly the two new messages |
| Session.StashClears | session/session.go:167-179 | after a Stash no file is active |
| Session.StashKeepsConsistent | session/session.go:167-179 | Stash keeps the invariant |
| Session.ReadAfterStash | session/session.go:67-81 | reading after a Stash gives an empty conversation in a new active file |
| Session.RestoreShape | session/session.go:182-213 | a restore of the active record changes nothing; otherwise it stashes and renames the record's file with the suffix added |
| Session.RestoreActivates | session/session.go:182-213 | after a successful Restore exactly one file is active, the chosen record's |
| Session.RestoreKeepsConsistent | session/session.go:182-213 | Restore keeps the invariant |
| Session.ChosenRecord | session/session.go:193 | the record at position id is a regular file, active exactly when its name ends in `.active` |
| Session.DeleteRemoves | session/session.go:216-239 | a successful Delete removes exactly the file at sorted position id, and the next listing names the same files less that one |
| Session.DeleteKeepsConsistent | session/session.go:216-239 | Delete keeps the invariant |
| Session.EmptyListing | session/session.go:242-254 | a readable empty directory lists no records, so nothing is listed after DeleteAll |
| Session.Store.constructor | session/file_util.go:13-16 | a store needs a non-empty application directory and starts with no session directory |
| Session.Store.SessionDir | session/file_util.go:13-27 | the session directory is `appDir/session`, created when missing |
| Session.Store.ActiveSessionFilePath | session/file_util.go:29-52 | the active file of the directory as ActiveSession gives it, the files unchanged |
| Session.Store.OpenActive | session/file_util.go:54-80 | the directory and result are Open's |
| Session.Store.Read | session/session.go:67-87 | the directory and result are ReadOp's |
| Session.Store.Write | session/session.go:34-64 | the directory and result are WriteOp's |
| Session.Store.Stash | session/session.go:167-179 | the directory and result are StashOp's |
| Session.Store.Records | session/session.go:90-164 | the result is Listing's with the chosen summariser, the files unchanged |
| Session.Store.List | session/session.go:90-164 | the result is ListAsWritten's, so a blank session file makes it fail; the files are unchanged |
| Session.Store.Restore | session/session.go:182-213 | the directory and result are RestoreOp's |
| Session.Store.Delete | session/session.go:216-239 | the directory and result are DeleteOp's |
| Session.Store.DeleteAll | session/session.go:242-254 | the session directory is gone and no file is left |

## Left out

- Text and Escaping: strings are sequences of characters, not UTF-8 bytes. The 50-character summary limit therefore counts characters where the source counts bytes. `%q` treats every character above U+00FF as printable, and surrogates are not modelled.
- Session.SummaryOf: cuts at 50 characters. The source cuts at 50 bytes, which can split a multi-byte character. This is left out because of the byte/character choice above.
- JSON encoding and decoding of session files, requests and upload replies is left out. A file's content is the decoded value (`Content`). A reply is what it decodes to, or `None` when it does not decode.
- Network transport (http.Post, Client.Do, reading the body) and fmt's URL templating are replaced by the replies the server gives (`Reply`, `UploadEnv`) and by `Target`.
- Request construction (http.NewRequest at llm/internal/resource/resource.go:55-58 and 92-95, and llm/llm.go:227-230 and 264-267) is taken to succeed. In Go a failure there returns an error before anything is sent; the model always records the request.
- Floating point: the `%v` text of `MaxTokens*0.75` is the string parameter `words` of Generate. Temperature and top-p are reals that are only compared with zero and copied.
- The clock and the random number in new file names are the parameter `Clock`. Filesystem modification times are plain integers.
- path.Join is modelled as `dir + "/" + name`. Names in the directory map are base names, not full paths.
- File-system failures:
  - Session.Store: failures of os.Open, os.OpenFile, f.Info, os.Remove, os.RemoveAll and os.MkdirAll are not modelled. A failed rename is modelled (`CanMove`).
  - Session.Store.DeleteAll: always succeeds for the same reason.
  - Whether the directory can be read is fixed for each store (`readable`).
- Session.Store.Restore: requires `id >= 1`. Restore indexes `records[recordID-1]` after checking only `recordID > len(records)`, so a smaller id makes Go panic.
- Session.Store.Delete: requires `id >= 1`, for the same reason.
- Session.RestoreOp, Session.DeleteOp: require `id >= 1`, for the same reason.
- Session: Restore and Delete list sessions with the corrected listing of the finding below (Store.Records with the corrected summariser), not with List as written.
- Llm.InstructionMentionsUser: only states that values needing no `%q` escaping appear verbatim. An escaped value appears in quoted form, and `AttributeQuoted` proves that form reads back.
- Llm.Generate: the guidance text of llm.go is one constant, `Guidance`. The lemmas about the instruction hold for any guidance text.
- Debug logging (LogPrintf, debugPrintf) has no behaviour and is left out.
- The configuration file, the interactive prompts, terminal printing, the spinner goroutine (concurrency) and flag handling are left out. They are I/O and glue outside the three modelled pieces.
- The wire types file `llm/internal/schema/schema.go` holds declarations only. Its shapes appear as the datatypes of module `Llm`.

## Findings

| source | as written | input that shows it | evidently intended | confidence | as-written member | corrected member |
|---|---|---|---|---|---|---|
| session/session.go:114-116 | `summarise` decodes every session file and fails on io.EOF. A zero-length file therefore cannot be summarised, and List fails on it (and Restore and Delete with it). Read, at session/session.go:79-81, treats the same EOF as an empty conversation. | An empty session directory. Read once, which creates a blank `<unixnano>_<rand>.active` file (session/file_util.go:74), then List. List fails with "unable to summarise session file". | A blank session file is an empty session and is listed as "no content". | not executed | Session.ListAsWritten (Session.Store.List, Session.SummariseAsWritten; lemmas Session.BlankFileBreaksListing, Session.FirstReadBreaksListing) | Session.ListSpec (Session.Summarise, used by Session.RestoreOp and Session.DeleteOp; lemmas Session.ListingSucceeds, Session.ListingRecords, Session.ListingNames) |
