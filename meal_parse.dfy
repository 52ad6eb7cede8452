/** `parseXMLResponse`: turns the meal service's parsed XML document into the
    object the rest of the page consumes, or throws. */
module MealParse {
  import opened Wrappers
  import opened XmlTree

  const ParserErrorTag := "parsererror"
  const ResultTag := "RESULT"
  const CodeTag := "CODE"
  const MessageTag := "MESSAGE"
  const MealInfoTag := "mealServiceDietInfo"
  const RowTag := "row"

  /** The status code the service sends when it has no menu for the date. */
  const NoDataCode := "INFO-200"
  const DefaultNoDataMessage := "데이터가 없습니다."

  /** Messages of the two errors the parser throws. */
  const XmlParseError := "XML 파싱 오류"
  const NotFoundError := "급식정보를 찾을 수 없습니다."

  /** The four fields copied out of each `row`, in the order they are read. */
  const Fields: seq<string> := ["MMEAL_SC_CODE", "DDISH_NM", "MLSV_YMD", "MLSV_FGR"]

  /** A meal record: a JavaScript object whose keys are some of `Fields`. */
  type Record = map<string, string>

  /** The parser's `{RESULT: {CODE, MESSAGE}}` part. */
  datatype ResultInfo = ResultInfo(code: string, message: string)

  /** The object handed to the dispatcher: `result` is its `RESULT` property,
      `rows` its `mealServiceDietInfo[1].row` (`None` where the object has no
      such property). */
  datatype ResponseData = ResponseData(result: Option<ResultInfo>, rows: Option<seq<Record>>)

  /** The record built from one `row` element: a field is present exactly when
      it is one of the four names and the row has a descendant element of that
      name, and its value is the text of the first such element in document
      order. */
  function RecordOf(row: Node): (m: Record)
    ensures forall f :: f in m <==> f in Fields && |ElementsByTag(Kids(row), f)| > 0
    ensures forall f :: f in m ==> m[f] == TextContent(ElementsByTag(Kids(row), f)[0])
  {
    FirstByTagIsHeadForAll(Kids(row));
    map f | f in Fields && FirstByTag(Kids(row), f).Some? :: TextContent(FirstByTag(Kids(row), f).value)
  }

  /** What `parseXMLResponse` returns, or the message of what it throws. */
  function Interpret(doc: seq<Node>): (r: Result<ResponseData>)
    ensures r.Failure? ==> r.message == XmlParseError || r.message == NotFoundError
    ensures r.Success? ==> (r.value.result.Some? <==> r.value.rows.None?)
  {
    if |ElementsByTag(doc, ParserErrorTag)| > 0 then Failure(XmlParseError)
    else
      var resultElement := FirstByTag(doc, ResultTag);
      var codeElement := if resultElement.Some? then FirstByTag(Kids(resultElement.value), CodeTag) else None;
      if codeElement.Some? && TextContent(codeElement.value) == NoDataCode then
        var messageElement := FirstByTag(Kids(resultElement.value), MessageTag);
        var message := if messageElement.Some? then TextContent(messageElement.value) else DefaultNoDataMessage;
        Success(ResponseData(Some(ResultInfo(NoDataCode, message)), None))
      else
        var info := FirstByTag(doc, MealInfoTag);
        if info.None? then Failure(NotFoundError)
        else
          var rows := ElementsByTag(Kids(info.value), RowTag);
          Success(ResponseData(None, Some(seq(|rows|, k requires 0 <= k < |rows| => RecordOf(rows[k])))))
  }

  /** Copies the fields present in `row` into a fresh record, one field at a time. */
  method ExtractRecord(row: Node) returns (mealInfo: Record)
    ensures mealInfo == RecordOf(row)
  {
    mealInfo := map[];
    for j := 0 to |Fields|
      invariant forall f :: f in mealInfo <==> f in Fields[..j] && FirstByTag(Kids(row), f).Some?
      invariant forall f :: f in mealInfo ==> mealInfo[f] == TextContent(FirstByTag(Kids(row), f).value)
    {
      var field := Fields[j];
      var element := FirstByTag(Kids(row), field);
      if element.Some? {
        mealInfo := mealInfo[field := TextContent(element.value)];
      }
    }
    assert Fields[..|Fields|] == Fields;
    FirstByTagIsHeadForAll(Kids(row));
    assert mealInfo.Keys == RecordOf(row).Keys;
  }

  /** The parser itself: checks for a parse error, then for the no-data
      signal, then collects one record per `row` of the first
      `mealServiceDietInfo`. */
  method ParseXmlResponse(doc: seq<Node>) returns (r: Result<ResponseData>)
    ensures r == Interpret(doc)
  {
    if |ElementsByTag(doc, ParserErrorTag)| > 0 {
      return Failure(XmlParseError);
    }
    var resultElement := FirstByTag(doc, ResultTag);
    if resultElement.Some? {
      var codeElement := FirstByTag(Kids(resultElement.value), CodeTag);
      var messageElement := FirstByTag(Kids(resultElement.value), MessageTag);
      if codeElement.Some? && TextContent(codeElement.value) == NoDataCode {
        var message := if messageElement.Some? then TextContent(messageElement.value) else DefaultNoDataMessage;
        return Success(ResponseData(Some(ResultInfo(NoDataCode, message)), None));
      }
    }
    var info := FirstByTag(doc, MealInfoTag);
    if info.None? {
      return Failure(NotFoundError);
    }
    var rows := ElementsByTag(Kids(info.value), RowTag);
    var mealData: seq<Record> := [];
    for i := 0 to |rows|
      invariant |mealData| == i
      invariant forall k :: 0 <= k < i ==> mealData[k] == RecordOf(rows[k])
    {
      var mealInfo := ExtractRecord(rows[i]);
      mealData := mealData + [mealInfo];
    }
    assert mealData == seq(|rows|, k requires 0 <= k < |rows| => RecordOf(rows[k]));
    return Success(ResponseData(None, Some(mealData)));
  }

  // The document-level conditions the parser decides on, stated with the full
  // tag search (every element of that name, in document order).

  predicate HasParserError(doc: seq<Node>)
  {
    |ElementsByTag(doc, ParserErrorTag)| > 0
  }

  /** The first `RESULT` element has a first `CODE` descendant reading `INFO-200`. */
  predicate NoDataSignal(doc: seq<Node>)
  {
    var results := ElementsByTag(doc, ResultTag);
    |results| > 0 &&
    var codes := ElementsByTag(Kids(results[0]), CodeTag);
    |codes| > 0 && TextContent(codes[0]) == NoDataCode
  }

  predicate HasMealInfo(doc: seq<Node>)
  {
    |ElementsByTag(doc, MealInfoTag)| > 0
  }

  /** The `row` elements under the first `mealServiceDietInfo`, in document order. */
  function RowElements(doc: seq<Node>): seq<Node>
    requires HasMealInfo(doc)
  {
    ElementsByTag(Kids(ElementsByTag(doc, MealInfoTag)[0]), RowTag)
  }

  /** Exactly one of four outcomes, decided in this order: a parse error, the
      no-data signal (which wins even when meal data is also present), a
      missing `mealServiceDietInfo`, and otherwise the rows. */
  lemma InterpretCases(doc: seq<Node>)
    ensures Interpret(doc) == Failure(XmlParseError) <==> HasParserError(doc)
    ensures (Interpret(doc).Success? && Interpret(doc).value.result.Some?)
            <==> !HasParserError(doc) && NoDataSignal(doc)
    ensures Interpret(doc) == Failure(NotFoundError)
            <==> !HasParserError(doc) && !NoDataSignal(doc) && !HasMealInfo(doc)
    ensures (Interpret(doc).Success? && Interpret(doc).value.rows.Some?)
            <==> !HasParserError(doc) && !NoDataSignal(doc) && HasMealInfo(doc)
  {
    FirstByTagIsHead(doc, ResultTag);
    FirstByTagIsHead(doc, MealInfoTag);
    var resultElement := FirstByTag(doc, ResultTag);
    if resultElement.Some? {
      FirstByTagIsHead(Kids(resultElement.value), CodeTag);
    }
  }

  /** A successful parse sets exactly one of the two properties: the no-data
      result with code `INFO-200`, or the rows. */
  lemma ParsedShape(doc: seq<Node>)
    requires Interpret(doc).Success?
    ensures var data := Interpret(doc).value;
            (data.result.Some? && data.result.value.code == NoDataCode && data.rows.None?) ||
            (data.result.None? && data.rows.Some?)
  {
  }

  /** On the no-data signal the message is the text of the first `MESSAGE`
      under the first `RESULT`, or the default when there is none; any
      `mealServiceDietInfo` in the document is ignored. */
  lemma NoDataMessage(doc: seq<Node>)
    requires !HasParserError(doc) && NoDataSignal(doc)
    ensures var messages := ElementsByTag(Kids(ElementsByTag(doc, ResultTag)[0]), MessageTag);
            Interpret(doc) == Success(ResponseData(Some(ResultInfo(NoDataCode,
              if |messages| > 0 then TextContent(messages[0]) else DefaultNoDataMessage)), None))
  {
    FirstByTagIsHead(doc, ResultTag);
    var resultElement := FirstByTag(doc, ResultTag).value;
    FirstByTagIsHead(Kids(resultElement), CodeTag);
    FirstByTagIsHead(Kids(resultElement), MessageTag);
  }

  /** On success there is one record per `row` element under the first
      `mealServiceDietInfo`, in document order, and each record holds exactly
      the listed fields that the row has, with their text. */
  lemma RowsInDocumentOrder(doc: seq<Node>)
    requires !HasParserError(doc) && !NoDataSignal(doc) && HasMealInfo(doc)
    ensures Interpret(doc).Success? && Interpret(doc).value.rows.Some?
    ensures var records := Interpret(doc).value.rows.value;
            |records| == |RowElements(doc)| &&
            forall k :: 0 <= k < |records| ==> records[k] == RecordOf(RowElements(doc)[k])
  {
    InterpretCases(doc);
    FirstByTagIsHead(doc, MealInfoTag);
  }
}
