/** `createPromptTemplate` and `generateApiRequests`: one batch request per
    chunk of terms, numbered from 1, and the JSONL batch file built from
    them. */
module Requests {
  import opened Wrappers
  import opened Text
  import opened Json
  import opened Terms
  import opened Chunking

  const RequestMethod: string := "POST"
  const RequestUrl: string := "/v1/responses"
  const ModelName: string := "o3-mini"
  const CustomIdPrefix: string := "req-"

  datatype Role = System | User

  datatype Message = Message(role: Role, content: string)

  datatype Body = Body(model: string, input: seq<Message>)

  /** One line of the batch file. */
  datatype Request = Request(customId: string, httpMethod: string, url: string, body: Body)

  /** The fixed natural-language text of the prompt, before and after the
      JSONL payload. */
  datatype PromptFrame = PromptFrame(lead: string, trail: string)

  /** `createPromptTemplate`: the payload embedded verbatim in the fixed
      prompt text. */
  function CreatePromptTemplate(jsonl: string, frame: PromptFrame): string {
    frame.lead + jsonl + frame.trail
  }

  /** The payload of a prompt built with `frame`, if the prompt has that
      frame's shape. */
  function ExtractPayload(prompt: string, frame: PromptFrame): Option<string> {
    if |frame.lead| + |frame.trail| <= |prompt|
       && prompt[..|frame.lead|] == frame.lead
       && prompt[|prompt| - |frame.trail|..] == frame.trail
    then Some(prompt[|frame.lead|..|prompt| - |frame.trail|])
    else None
  }

  /** The prompt contains its payload, and the payload can be cut back out
      of it exactly. */
  lemma PromptEmbedsPayload(jsonl: string, frame: PromptFrame)
    ensures IsInfix(jsonl, CreatePromptTemplate(jsonl, frame))
    ensures ExtractPayload(CreatePromptTemplate(jsonl, frame), frame) == Some(jsonl)
  {
    InfixOfSandwich(frame.lead, jsonl, frame.trail);
    var p := CreatePromptTemplate(jsonl, frame);
    assert p[..|frame.lead|] == frame.lead;
    assert p[|p| - |frame.trail|..] == frame.trail;
    assert p[|frame.lead|..|p| - |frame.trail|] == jsonl;
  }

  /** Headings every prompt carries. */
  const RequiredHeadings: seq<string> :=
    ["以下のシステム開発用語を", "## 分類カテゴリ", "## 出力形式（厳守）", "## 注意事項"]

  ghost predicate HasRequiredHeadings(frame: PromptFrame) {
    forall i :: 0 <= i < |RequiredHeadings| ==>
      IsInfix(RequiredHeadings[i], frame.lead) || IsInfix(RequiredHeadings[i], frame.trail)
  }

  /** Whatever the payload, a prompt keeps the headings of its frame. */
  lemma PromptKeepsHeadings(jsonl: string, frame: PromptFrame)
    requires HasRequiredHeadings(frame)
    ensures forall i :: 0 <= i < |RequiredHeadings| ==>
              IsInfix(RequiredHeadings[i], CreatePromptTemplate(jsonl, frame))
  {
    var p := CreatePromptTemplate(jsonl, frame);
    InfixOfSandwich([], frame.lead, jsonl + frame.trail);
    assert [] + frame.lead + (jsonl + frame.trail) == p;
    InfixOfSandwich(frame.lead + jsonl, frame.trail, []);
    assert frame.lead + jsonl + frame.trail + [] == p;
    forall i | 0 <= i < |RequiredHeadings|
      ensures IsInfix(RequiredHeadings[i], p)
    {
      if IsInfix(RequiredHeadings[i], frame.lead) {
        InfixTransitive(RequiredHeadings[i], frame.lead, p);
      } else {
        InfixTransitive(RequiredHeadings[i], frame.trail, p);
      }
    }
  }

  /** The `custom_id` of the `n`-th request. */
  function CustomId(n: nat): string {
    CustomIdPrefix + NatToString(n)
  }

  function ParseCustomId(s: string): Option<nat> {
    if StartsWith(s, CustomIdPrefix) then ParseNat(s[|CustomIdPrefix|..]) else None
  }

  /** A custom id gives back the request's position. */
  lemma ParseCustomIdRoundTrip(n: nat)
    ensures ParseCustomId(CustomId(n)) == Some(n)
  {
    var s := CustomId(n);
    assert s[..|CustomIdPrefix|] == CustomIdPrefix;
    assert s[|CustomIdPrefix|..] == NatToString(n);
    ParseNatToString(n);
  }

  /** A custom id that parses is exactly the id of its position, so the
      parsed position pins the text. */
  lemma ParseCustomIdCanonical(s: string, n: nat)
    requires ParseCustomId(s) == Some(n)
    ensures s == CustomId(n)
  {
    ParseNatCanonical(s[|CustomIdPrefix|..], n);
    assert s == s[..|CustomIdPrefix|] + s[|CustomIdPrefix|..];
  }

  lemma CustomIdInjective(m: nat, n: nat)
    requires m != n
    ensures CustomId(m) != CustomId(n)
  {
    ParseCustomIdRoundTrip(m);
    ParseCustomIdRoundTrip(n);
  }

  /** The request for the `n`-th chunk (counting from 1). */
  function MakeRequest(n: nat, chunk: seq<Term>, system: string, frame: PromptFrame): Request {
    Request(CustomId(n), RequestMethod, RequestUrl,
      Body(ModelName, [Message(System, system),
                       Message(User, CreatePromptTemplate(ConvertTermsToJsonl(chunk), frame))]))
  }

  /** `generateApiRequests`: the `i`-th chunk becomes the request numbered
      `i + 1`. */
  function GenerateApiRequests(chunks: seq<seq<Term>>, system: string, frame: PromptFrame): seq<Request> {
    seq(|chunks|, i requires 0 <= i < |chunks| => MakeRequest(i + 1, chunks[i], system, frame))
  }

  /** One request per chunk, in chunk order, each with the fixed method,
      url and model, a system message followed by a user message, and a
      user message whose payload decodes to exactly that chunk's converted
      terms. */
  lemma GenerateApiRequestsSpec(chunks: seq<seq<Term>>, system: string, frame: PromptFrame)
    ensures var r := GenerateApiRequests(chunks, system, frame);
      && |r| == |chunks|
      && forall i :: 0 <= i < |r| ==>
           && ParseCustomId(r[i].customId) == Some(i + 1)
           && r[i].customId == "req-" + NatToString(i + 1)
           && r[i].httpMethod == "POST"
           && r[i].url == "/v1/responses"
           && r[i].body.model == "o3-mini"
           && |r[i].body.input| == 2
           && r[i].body.input[0] == Message(System, system)
           && r[i].body.input[1].role == User
           && match ExtractPayload(r[i].body.input[1].content, frame)
              case None => false
              case Some(payload) => DecodeJsonl(payload) == Some(ConvertAll(chunks[i]))
  {
    var r := GenerateApiRequests(chunks, system, frame);
    forall i | 0 <= i < |r|
      ensures RequestFits(r[i], i + 1, chunks[i], system, frame)
    {
      assert r[i] == MakeRequest(i + 1, chunks[i], system, frame);
      MakeRequestFits(i + 1, chunks[i], system, frame);
    }
  }

  /** What the request numbered `n` for `chunk` looks like, as far as a
      reader of the batch file can tell. */
  predicate RequestFits(q: Request, n: nat, chunk: seq<Term>, system: string, frame: PromptFrame) {
    && ParseCustomId(q.customId) == Some(n)
    && q.customId == "req-" + NatToString(n)
    && q.httpMethod == "POST"
    && q.url == "/v1/responses"
    && q.body.model == "o3-mini"
    && |q.body.input| == 2
    && q.body.input[0] == Message(System, system)
    && q.body.input[1].role == User
    && match ExtractPayload(q.body.input[1].content, frame)
       case None => false
       case Some(payload) => DecodeJsonl(payload) == Some(ConvertAll(chunk))
  }

  lemma MakeRequestFits(n: nat, chunk: seq<Term>, system: string, frame: PromptFrame)
    ensures RequestFits(MakeRequest(n, chunk, system, frame), n, chunk, system, frame)
  {
    ParseCustomIdRoundTrip(n);
    PromptEmbedsPayload(ConvertTermsToJsonl(chunk), frame);
    JsonlRoundTrip(chunk);
  }

  /** The first request is `req-1`. */
  lemma FirstRequestId(chunks: seq<seq<Term>>, system: string, frame: PromptFrame)
    requires |chunks| > 0
    ensures GenerateApiRequests(chunks, system, frame)[0].customId == "req-1"
  {
    assert NatToString(1) == "1";
  }

  /** No two requests share a custom id. */
  lemma RequestIdsDistinct(chunks: seq<seq<Term>>, system: string, frame: PromptFrame, i: nat, j: nat)
    requires i < j < |chunks|
    ensures GenerateApiRequests(chunks, system, frame)[i].customId
            != GenerateApiRequests(chunks, system, frame)[j].customId
  {
    GeneratedIdParses(chunks, system, frame, i);
    GeneratedIdParses(chunks, system, frame, j);
  }

  lemma GeneratedIdParses(chunks: seq<seq<Term>>, system: string, frame: PromptFrame, i: nat)
    requires i < |chunks|
    ensures ParseCustomId(GenerateApiRequests(chunks, system, frame)[i].customId) == Some(i + 1)
  {
    assert GenerateApiRequests(chunks, system, frame)[i].customId == CustomId(i + 1);
    ParseCustomIdRoundTrip(i + 1);
  }

  /** The user message of a request mentions the name of every term of its
      chunk whose name needs no escaping. */
  lemma UserContentMentionsNames(chunks: seq<seq<Term>>, system: string, frame: PromptFrame, i: nat, k: nat)
    requires i < |chunks| && k < |chunks[i]|
    requires forall c :: 0 <= c < |chunks[i][k].name| ==> IsPlain(chunks[i][k].name[c])
    ensures IsInfix(chunks[i][k].name, GenerateApiRequests(chunks, system, frame)[i].body.input[1].content)
  {
    var jsonl := ConvertTermsToJsonl(chunks[i]);
    JsonlContainsNames(chunks[i], k);
    PromptEmbedsPayload(jsonl, frame);
    InfixTransitive(chunks[i][k].name, jsonl, CreatePromptTemplate(jsonl, frame));
  }

  function RoleName(role: Role): string {
    match role
    case System => "system"
    case User => "user"
  }

  /** `JSON.stringify` of one input message. */
  function SerializeMessage(m: Message): string {
    WriteField("{\"role\":\"", RoleName(m.role)) + (WriteField(",\"content\":\"", m.content) + "}")
  }

  function SerializeMessages(ms: seq<Message>): (r: seq<string>)
    ensures |r| == |ms|
    ensures forall i :: 0 <= i < |ms| ==> r[i] == SerializeMessage(ms[i])
  {
    seq(|ms|, i requires 0 <= i < |ms| => SerializeMessage(ms[i]))
  }

  const IdKey: string := "{\"custom_id\":\""
  const MethodKey: string := ",\"method\":\""
  const UrlKey: string := ",\"url\":\""
  const ModelKey: string := ",\"body\":{\"model\":\""

  /** The `input` array of a request body, with the closing brackets of
      the body and of the request. */
  function InputPart(input: seq<Message>): string {
    ",\"input\":[" + Join(SerializeMessages(input), ",") + "]}}"
  }

  /** `JSON.stringify` of one request: a single line of the batch file. */
  function SerializeRequest(req: Request): string {
    WriteField(IdKey, req.customId)
      + (WriteField(MethodKey, req.httpMethod)
      + (WriteField(UrlKey, req.url)
      + (WriteField(ModelKey, req.body.model)
      + InputPart(req.body.input))))
  }

  function SerializeRequests(reqs: seq<Request>): (r: seq<string>)
    ensures |r| == |reqs|
    ensures forall i :: 0 <= i < |reqs| ==> r[i] == SerializeRequest(reqs[i])
  {
    seq(|reqs|, i requires 0 <= i < |reqs| => SerializeRequest(reqs[i]))
  }

  /** The whole preparation step: chunk the terms with the default size and
      build one request per chunk. */
  function PrepareRequests(terms: seq<Term>, system: string, frame: PromptFrame): seq<Request> {
    GenerateApiRequests(SplitIntoChunks(terms, DefaultChunkSize), system, frame)
  }

  /** The text written to the batch file: one serialised request per line. */
  function BatchFile(terms: seq<Term>, system: string, frame: PromptFrame): string {
    JoinLines(SerializeRequests(PrepareRequests(terms, system, frame)))
  }

  lemma NoLineFeedConcat(x: string, y: string)
    requires '\n' !in x && '\n' !in y
    ensures '\n' !in x + y
  {
  }

  lemma SerializeRequestIsOneLine(req: Request)
    ensures SerializeRequest(req) != ""
    ensures '\n' !in SerializeRequest(req)
  {
    var a := WriteField(IdKey, req.customId);
    var b := WriteField(MethodKey, req.httpMethod);
    var c := WriteField(UrlKey, req.url);
    var d := WriteField(ModelKey, req.body.model);
    var e := InputPart(req.body.input);
    RequestKeysAreOneLine();
    WriteFieldIsOneLine(IdKey, req.customId);
    WriteFieldIsOneLine(MethodKey, req.httpMethod);
    WriteFieldIsOneLine(UrlKey, req.url);
    WriteFieldIsOneLine(ModelKey, req.body.model);
    InputIsOneLine(req.body.input);
    NoLineFeedConcat(d, e);
    NoLineFeedConcat(c, d + e);
    NoLineFeedConcat(b, c + (d + e));
    NoLineFeedConcat(a, b + (c + (d + e)));
    assert SerializeRequest(req) == a + (b + (c + (d + e)));
  }

  lemma SerializeMessageIsOneLine(m: Message)
    ensures '\n' !in SerializeMessage(m)
  {
    WriteFieldIsOneLine("{\"role\":\"", RoleName(m.role));
    WriteFieldIsOneLine(",\"content\":\"", m.content);
    NoLineFeedConcat(WriteField(",\"content\":\"", m.content), "}");
    NoLineFeedConcat(WriteField("{\"role\":\"", RoleName(m.role)), WriteField(",\"content\":\"", m.content) + "}");
  }

  lemma RequestKeysAreOneLine()
    ensures '\n' !in IdKey && '\n' !in MethodKey && '\n' !in UrlKey && '\n' !in ModelKey
  {
  }

  lemma InputIsOneLine(input: seq<Message>)
    ensures '\n' !in InputPart(input)
  {
    var ms := SerializeMessages(input);
    forall i | 0 <= i < |ms|
      ensures '\n' !in ms[i]
    {
      SerializeMessageIsOneLine(input[i]);
    }
    JoinAvoids(ms, ",", '\n');
    NoLineFeedConcat(",\"input\":[", Join(ms, ","));
    NoLineFeedConcat(",\"input\":[" + Join(ms, ","), "]}}");
  }

  /** The batch file has exactly one line per chunk: one line per started
      block of 100 terms. */
  lemma BatchFileLines(terms: seq<Term>, system: string, frame: PromptFrame)
    ensures SplitLines(BatchFile(terms, system, frame))
            == SerializeRequests(PrepareRequests(terms, system, frame))
    ensures var n := |SplitLines(BatchFile(terms, system, frame))|;
      (|terms| == 0 ==> n == 0) && (|terms| > 0 ==> 100 * (n - 1) < |terms| <= 100 * n)
  {
    var lines := SerializeRequests(PrepareRequests(terms, system, frame));
    forall i | 0 <= i < |lines|
      ensures lines[i] != "" && '\n' !in lines[i]
    {
      SerializeRequestIsOneLine(PrepareRequests(terms, system, frame)[i]);
    }
    SplitLinesJoinLines(lines);
  }

  /** The serialised request mentions its custom id verbatim. */
  lemma SerializedRequestShowsId(req: Request)
    requires forall i :: 0 <= i < |req.customId| ==> IsPlain(req.customId[i])
    ensures IsInfix(req.customId, SerializeRequest(req))
  {
    var rest := WriteField(MethodKey, req.httpMethod)
      + (WriteField(UrlKey, req.url)
      + (WriteField(ModelKey, req.body.model)
      + InputPart(req.body.input)));
    WriteFieldShowsPlainValue(IdKey, req.customId, rest);
  }

  /** A non-empty term list yields a batch file that mentions `req-1`. */
  lemma BatchFileMentionsFirstRequest(terms: seq<Term>, system: string, frame: PromptFrame)
    requires |terms| > 0
    ensures IsInfix("req-1", BatchFile(terms, system, frame))
  {
    FirstRequestId(SplitIntoChunks(terms, DefaultChunkSize), system, frame);
    LinesMentionFirstId(PrepareRequests(terms, system, frame), "req-1");
  }

  lemma LinesMentionFirstId(reqs: seq<Request>, id: string)
    requires |reqs| > 0 && reqs[0].customId == id && forall i :: 0 <= i < |id| ==> IsPlain(id[i])
    ensures IsInfix(id, JoinLines(SerializeRequests(reqs)))
  {
    SerializedRequestShowsId(reqs[0]);
    JoinKeepsParts(SerializeRequests(reqs), "\n", 0);
    InfixTransitive(id, SerializeRequest(reqs[0]), JoinLines(SerializeRequests(reqs)));
  }

}
