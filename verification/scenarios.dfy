/** The concrete scenarios of the test suite, restated about the model. */
module Scenarios {
  import opened Wrappers
  import opened Text
  import opened Json
  import opened Terms
  import opened Chunking
  import opened Requests
  import opened BatchCheck

  const MockDefinitionText: string :=
    "A set of conditions that a product must satisfy to be accepted by a user, customer, or other stakeholder."

  const MockName: string := "acceptance criteria"

  const MockTerm: Term := Term("1.1", MockName, [Definition(MockDefinitionText, None)])

  // Lemmas about the request and the batch check take their fixture as a
  // parameter equal to the constant: applied directly to the literal
  // constants, the verifier unfolds every function over the whole fixture
  // text and runs out of resource.

  /** The converted mock term has the same number and name and its single
      definition's text. */
  lemma ConvertMockTerm()
    ensures ConvertTermData(MockTerm) == ConvertedTerm("1.1", "acceptance criteria", MockDefinitionText)
  {
    ConvertTermDataSpec(MockTerm);
  }

  /** The JSONL of the one-term list is exactly `JSON.stringify` of the
      object with the mock term's number, name and definition text. */
  lemma MockTermsJsonl()
    ensures ConvertTermsToJsonl([MockTerm])
            == SerializeTerm(ConvertedTerm("1.1", "acceptance criteria", MockDefinitionText))
  {
    ConvertMockTerm();
    JsonlOfOneTerm(MockTerm);
  }

  /** 150 terms make two chunks, of 100 and 50 terms. */
  lemma HundredFiftyTermsMakeTwoChunks()
    ensures var chunks := SplitIntoChunks(seq(150, _ => MockTerm), DefaultChunkSize);
            |chunks| == 2 && |chunks[0]| == 100 && |chunks[1]| == 50
  {
    var chunks := SplitIntoChunks(seq(150, _ => MockTerm), DefaultChunkSize);
    assert 100 * (|chunks| - 1) < 150 <= 100 * |chunks|;
  }

  /** The single chunk with the mock term yields one request `req-1`,
      posted to the responses endpoint with the fixed model, holding a
      system message and then a user message. */
  lemma MockRequest(mock: Term, system: string, frame: PromptFrame)
    requires mock == MockTerm
    ensures var r := GenerateApiRequests([[mock]], system, frame);
            && |r| == 1
            && r[0].customId == "req-1"
            && r[0].httpMethod == "POST"
            && r[0].url == "/v1/responses"
            && r[0].body.model == "o3-mini"
            && |r[0].body.input| == 2
            && r[0].body.input[0].role == System
            && r[0].body.input[1].role == User
  {
    GenerateApiRequestsSpec([[mock]], system, frame);
    FirstRequestId([[mock]], system, frame);
  }

  /** The user message of that request mentions the term's name. */
  lemma MockRequestMentionsName(mock: Term, system: string, frame: PromptFrame)
    requires mock == MockTerm
    ensures IsInfix("acceptance criteria", GenerateApiRequests([[mock]], system, frame)[0].body.input[1].content)
  {
    assert forall c :: 0 <= c < |MockName| ==> IsPlain(MockName[c]);
    UserContentMentionsNames([[mock]], system, frame, 0, 0);
  }

  /** The prompt contains its payload and the fixed headings. */
  lemma PromptTemplateScenario(frame: PromptFrame)
    requires HasRequiredHeadings(frame)
    ensures var p := CreatePromptTemplate("{\"test\": \"data\"}", frame);
            && IsInfix("以下のシステム開発用語を", p)
            && IsInfix("## 分類カテゴリ", p)
            && IsInfix("## 出力形式（厳守）", p)
            && IsInfix("## 注意事項", p)
            && IsInfix("{\"test\": \"data\"}", p)
  {
    PromptKeepsHeadings("{\"test\": \"data\"}", frame);
    PromptEmbedsPayload("{\"test\": \"data\"}", frame);
    assert RequiredHeadings[0] == "以下のシステム開発用語を";
    assert RequiredHeadings[1] == "## 分類カテゴリ";
    assert RequiredHeadings[2] == "## 出力形式（厳守）";
    assert RequiredHeadings[3] == "## 注意事項";
  }

  const CheckInput: seq<Term> := [
    Term("1.1", "test1", [Definition("def1", None)]),
    Term("1.2", "test2", [Definition("def2", None)]),
    Term("1.3", "test3", [Definition("def3", None)])
  ]

  const CheckResults: seq<BatchResult> := [
    BatchResult("1.1", "", ["cat1"]),
    BatchResult("1.2", "テスト2", [])
  ]

  /** Term 1.1 has a result without a translation, 1.2 one without
      categories, and 1.3 none; each gets exactly one message. */
  lemma ScenarioCauses(input: seq<Term>, results: seq<BatchResult>)
    requires input == CheckInput && results == CheckResults
    ensures CausesFor(input[0], results) == [MissingTranslation]
    ensures CausesFor(input[1], results) == [NoCategories]
    ensures CausesFor(input[2], results) == [NoBatchResult]
    ensures CauseMessages(CausesFor(input[0], results)) == ["Missing Japanese name translation"]
    ensures CauseMessages(CausesFor(input[1], results)) == ["No categories assigned"]
    ensures CauseMessages(CausesFor(input[2], results)) == ["No batch result found"]
  {
    assert FindResult(results, input[0].number) == Some(results[0]);
    assert FindResult(results, input[1].number) == Some(results[1]);
    assert FindResult(results, input[2].number) == None;
  }

  /** Three terms that all have a problem are all reported, in order. */
  lemma CheckThreeProblemTerms(a: Term, b: Term, c: Term, results: seq<BatchResult>)
    requires CausesFor(a, results) != [] && CausesFor(b, results) != [] && CausesFor(c, results) != []
    ensures CheckBatchOutput([a, b, c], results) == [
              ErrorEntry(a, CausesFor(a, results)),
              ErrorEntry(b, CausesFor(b, results)),
              ErrorEntry(c, CausesFor(c, results))
            ]
  {
    var ea, eb, ec := ErrorEntry(a, CausesFor(a, results)), ErrorEntry(b, CausesFor(b, results)),
                      ErrorEntry(c, CausesFor(c, results));
    assert [] + [a] == [a];
    CheckBatchOutputSnoc([], a, results);
    assert CheckBatchOutput([a], results) == [ea];
    assert [a] + [b] == [a, b];
    CheckBatchOutputSnoc([a], b, results);
    assert CheckBatchOutput([a, b], results) == [ea, eb];
    assert [a, b] + [c] == [a, b, c];
    CheckBatchOutputSnoc([a, b], c, results);
    assert [ea, eb] + [ec] == [ea, eb, ec];
  }

  /** The report lists 1.1, 1.2 and 1.3 in that order, each with its one
      cause. */
  lemma CheckBatchOutputScenario(input: seq<Term>, results: seq<BatchResult>)
    requires input == CheckInput && results == CheckResults
    ensures CheckBatchOutput(input, results) == [
              ErrorEntry(input[0], [MissingTranslation]),
              ErrorEntry(input[1], [NoCategories]),
              ErrorEntry(input[2], [NoBatchResult])
            ]
  {
    ScenarioCauses(input, results);
    assert input == [input[0], input[1], input[2]];
    CheckThreeProblemTerms(input[0], input[1], input[2], results);
  }

  /** Preparing requests for the one-term input writes a batch file that
      mentions `req-1`. */
  lemma MainWritesFirstRequest(system: string, frame: PromptFrame)
    ensures IsInfix("req-1", BatchFile([MockTerm], system, frame))
  {
    BatchFileMentionsFirstRequest([MockTerm], system, frame);
  }
}
