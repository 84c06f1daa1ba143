/** Glossary terms as read from the input document, their flattened form
    sent to the model (`convertTermData`), and the JSONL payload built from
    a list of terms (`convertTermsToJSONL`). */
module Terms {
  import opened Wrappers
  import opened Text
  import opened Json

  /** One definition of a term, with an optional citation. */
  datatype Definition = Definition(text: string, reference: Option<string>)

  /** A glossary entry of the input document. */
  datatype Term = Term(number: string, name: string, definitions: seq<Definition>)

  /** The flattened entry placed in a prompt: the definitions array has
      become one string. */
  datatype ConvertedTerm = ConvertedTerm(number: string, name: string, definitions: string)

  /** Separator placed between the texts of a term with several definitions. */
  const DefinitionSeparator: string := "\n"

  function DefinitionTexts(defs: seq<Definition>): (texts: seq<string>)
    ensures |texts| == |defs|
    ensures forall i :: 0 <= i < |defs| ==> texts[i] == defs[i].text
  {
    seq(|defs|, i requires 0 <= i < |defs| => defs[i].text)
  }

  /** `convertTermData`: keeps the number and the name, and replaces the
      definitions by their texts as a single string. */
  function ConvertTermData(t: Term): ConvertedTerm {
    ConvertedTerm(t.number, t.name, Join(DefinitionTexts(t.definitions), DefinitionSeparator))
  }

  /** The conversion keeps number and name, a single definition becomes its
      bare text, and every definition's text survives in the flattened
      string. */
  lemma ConvertTermDataSpec(t: Term)
    ensures ConvertTermData(t).number == t.number
    ensures ConvertTermData(t).name == t.name
    ensures |t.definitions| == 0 ==> ConvertTermData(t).definitions == ""
    ensures |t.definitions| == 1 ==> ConvertTermData(t).definitions == t.definitions[0].text
    ensures forall i :: 0 <= i < |t.definitions| ==>
              IsInfix(t.definitions[i].text, ConvertTermData(t).definitions)
  {
    var texts := DefinitionTexts(t.definitions);
    forall i | 0 <= i < |t.definitions|
      ensures IsInfix(t.definitions[i].text, ConvertTermData(t).definitions)
    {
      JoinKeepsParts(texts, DefinitionSeparator, i);
    }
  }

  const NumberKey: string := "{\"number\":\""
  const NameKey: string := ",\"name\":\""
  const DefinitionsKey: string := ",\"definitions\":\""

  /** `JSON.stringify` of a converted term: fields in declaration order, no
      white space. */
  function SerializeTerm(c: ConvertedTerm): string {
    WriteField(NumberKey, c.number) + (WriteField(NameKey, c.name)
      + (WriteField(DefinitionsKey, c.definitions) + "}"))
  }

  /** Reads back one serialised converted term. */
  function DecodeTerm(line: string): Option<ConvertedTerm> {
    match ReadField(line, NumberKey)
    case None => None
    case Some((number, r1)) =>
      match ReadField(r1, NameKey)
      case None => None
      case Some((name, r2)) =>
        match ReadField(r2, DefinitionsKey)
        case None => None
        case Some((defs, r3)) =>
          if r3 == "}" then Some(ConvertedTerm(number, name, defs)) else None
  }

  /** The serialisation of a converted term is lossless. */
  lemma DecodeSerializeTerm(c: ConvertedTerm)
    ensures DecodeTerm(SerializeTerm(c)) == Some(c)
  {
    var r2 := WriteField(DefinitionsKey, c.definitions) + "}";
    var r1 := WriteField(NameKey, c.name) + r2;
    ReadWrittenField(NumberKey, c.number, r1);
    ReadWrittenField(NameKey, c.name, r2);
    ReadWrittenField(DefinitionsKey, c.definitions, "}");
  }

  lemma SerializeTermIsOneLine(c: ConvertedTerm)
    ensures SerializeTerm(c) != ""
    ensures '\n' !in SerializeTerm(c)
  {
    WriteFieldIsOneLine(NumberKey, c.number);
    WriteFieldIsOneLine(NameKey, c.name);
    WriteFieldIsOneLine(DefinitionsKey, c.definitions);
    var a, b, d := WriteField(NumberKey, c.number), WriteField(NameKey, c.name), WriteField(DefinitionsKey, c.definitions);
    assert forall ch :: ch in SerializeTerm(c) ==> ch in a || ch in b || ch in d || ch == '}';
  }

  function ConvertAll(terms: seq<Term>): (r: seq<ConvertedTerm>)
    ensures |r| == |terms|
    ensures forall i :: 0 <= i < |terms| ==> r[i] == ConvertTermData(terms[i])
  {
    seq(|terms|, i requires 0 <= i < |terms| => ConvertTermData(terms[i]))
  }

  function SerializeAll(cs: seq<ConvertedTerm>): (r: seq<string>)
    ensures |r| == |cs|
    ensures forall i :: 0 <= i < |cs| ==> r[i] == SerializeTerm(cs[i])
  {
    seq(|cs|, i requires 0 <= i < |cs| => SerializeTerm(cs[i]))
  }

  /** `convertTermsToJSONL`: one serialised converted term per line. */
  function ConvertTermsToJsonl(terms: seq<Term>): string {
    JoinLines(SerializeAll(ConvertAll(terms)))
  }

  function DecodeLines(lines: seq<string>): Option<seq<ConvertedTerm>>
    decreases |lines|
  {
    if |lines| == 0 then Some([])
    else match DecodeTerm(lines[0])
    case None => None
    case Some(c) =>
      match DecodeLines(lines[1..])
      case None => None
      case Some(cs) => Some([c] + cs)
  }

  /** Reads a JSONL payload back into converted terms; any bad line fails
      the whole payload. */
  function DecodeJsonl(s: string): Option<seq<ConvertedTerm>> {
    DecodeLines(SplitLines(s))
  }

  lemma {:induction false} DecodeSerializedLines(cs: seq<ConvertedTerm>)
    ensures DecodeLines(SerializeAll(cs)) == Some(cs)
    decreases |cs|
  {
    if |cs| > 0 {
      var lines := SerializeAll(cs);
      DecodeSerializeTerm(cs[0]);
      assert lines[1..] == SerializeAll(cs[1..]);
      DecodeSerializedLines(cs[1..]);
      assert [cs[0]] + cs[1..] == cs;
    }
  }

  /** The JSONL payload holds exactly the converted terms, one per line and
      in input order. */
  lemma JsonlRoundTrip(terms: seq<Term>)
    ensures DecodeJsonl(ConvertTermsToJsonl(terms)) == Some(ConvertAll(terms))
    ensures |SplitLines(ConvertTermsToJsonl(terms))| == |terms|
  {
    var lines := SerializeAll(ConvertAll(terms));
    forall i | 0 <= i < |lines|
      ensures lines[i] != "" && '\n' !in lines[i]
    {
      SerializeTermIsOneLine(ConvertAll(terms)[i]);
    }
    SplitLinesJoinLines(lines);
    DecodeSerializedLines(ConvertAll(terms));
  }

  /** A one-term payload is that term's serialisation with no separator. */
  lemma JsonlOfOneTerm(t: Term)
    ensures ConvertTermsToJsonl([t]) == SerializeTerm(ConvertTermData(t))
  {
  }

  /** The name of every term whose name needs no escaping appears verbatim
      in the payload. */
  lemma JsonlContainsNames(terms: seq<Term>, i: nat)
    requires i < |terms|
    requires forall k :: 0 <= k < |terms[i].name| ==> IsPlain(terms[i].name[k])
    ensures IsInfix(terms[i].name, ConvertTermsToJsonl(terms))
  {
    var lines := SerializeAll(ConvertAll(terms));
    SerializedTermShowsName(ConvertAll(terms)[i]);
    JoinKeepsParts(lines, "\n", i);
    InfixTransitive(terms[i].name, lines[i], ConvertTermsToJsonl(terms));
  }

  lemma SerializedTermShowsName(c: ConvertedTerm)
    requires forall k :: 0 <= k < |c.name| ==> IsPlain(c.name[k])
    ensures IsInfix(c.name, SerializeTerm(c))
  {
    var head := WriteField(NumberKey, c.number);
    var field := WriteField(NameKey, c.name) + (WriteField(DefinitionsKey, c.definitions) + "}");
    WriteFieldShowsPlainValue(NameKey, c.name, WriteField(DefinitionsKey, c.definitions) + "}");
    InfixOfSandwich(head, field, []);
    assert head + field + [] == SerializeTerm(c);
    InfixTransitive(c.name, field, SerializeTerm(c));
  }
}
