/** `fetchMealInfo` and `processMealData` once the response has arrived: the
    date sent in the query, the choice between an error message and the menu,
    and the `catch` block that turns every thrown error into a message. */
module MealSearch {
  import opened Wrappers
  import opened XmlTree
  import opened MealParse
  import opened MealDisplay

  // ---------------------------------------------------------------------------
  // The query date

  /** `date.replace(/-/g, '')`: the picked date with every `-` removed. */
  function StripDashes(date: string): (r: string)
    ensures '-' !in r
    ensures |r| <= |date|
    decreases |date|
  {
    if date == [] then []
    else (if date[0] == '-' then [] else [date[0]]) + StripDashes(date[1..])
  }

  /** Every character other than `-` is kept, as often as it occurs. */
  lemma {:induction false} StripDashesKeepsOthers(date: string)
    ensures forall c :: c != '-' ==> multiset(StripDashes(date))[c] == multiset(date)[c]
    decreases |date|
  {
    if date != [] {
      StripDashesKeepsOthers(date[1..]);
      assert date == [date[0]] + date[1..];
    }
  }

  /** Stripping works piece by piece, so the kept characters stay in order. */
  lemma {:induction false} StripDashesConcat(a: string, b: string)
    ensures StripDashes(a + b) == StripDashes(a) + StripDashes(b)
    decreases |a|
  {
    if a != [] {
      assert (a + b)[0] == a[0] && (a + b)[1..] == a[1..] + b;
      StripDashesConcat(a[1..], b);
    } else {
      assert a + b == b;
    }
  }

  /** A string without `-` is sent unchanged. */
  lemma {:induction false} StripDashesNoDash(s: string)
    requires '-' !in s
    ensures StripDashes(s) == s
    decreases |s|
  {
    if s != [] {
      assert s[0] in s;
      StripDashesNoDash(s[1..]);
    }
  }

  /** A `YYYY-MM-DD` date from the date picker becomes `YYYYMMDD`. */
  lemma IsoDateBecomesCompact(year: string, month: string, day: string)
    requires '-' !in year && '-' !in month && '-' !in day
    ensures StripDashes(year + "-" + month + "-" + day) == year + month + day
  {
    var dash: string := "-";
    assert StripDashes(dash) == [] by {
      assert dash[0] == '-' && dash[1..] == [];
    }
    var a := year + dash;
    var b := a + month;
    var c := b + dash;
    StripDashesNoDash(year);
    StripDashesNoDash(month);
    StripDashesNoDash(day);
    StripDashesConcat(year, dash);
    assert StripDashes(a) == year;
    StripDashesConcat(a, month);
    assert StripDashes(b) == year + month;
    StripDashesConcat(b, dash);
    assert StripDashes(c) == year + month;
    StripDashesConcat(c, day);
  }

  // ---------------------------------------------------------------------------
  // Messages

  const NoDataShownMessage := "해당 날짜의 급식정보가 없습니다."
  const NotFoundShownMessage := "급식정보를 찾을 수 없습니다."
  const ProcessingFailedMessage := "서버 응답을 처리하는 중 오류가 발생했습니다."
  const LoadFailedMessage := "급식정보를 불러오는 중 오류가 발생했습니다. 잠시 후 다시 시도해주세요."

  /** The message of the `TypeError` raised by `undefined.split(...)`; its
      wording is the engine's own, and matters only in that it is neither of
      the parser's two messages. */
  const UndefinedSplitError := "Cannot read properties of undefined (reading 'split')"

  /** The `catch` block: the message shown for an error thrown with message
      `thrown`. Only the parser's two messages are recognised; anything else
      (a failed request, a `TypeError`) gets the generic retry message. */
  function CaughtMessage(thrown: string): (shown: string)
    ensures shown == ProcessingFailedMessage <==> thrown == XmlParseError
    ensures shown == NotFoundShownMessage <==> thrown == NotFoundError
    ensures shown == LoadFailedMessage <==> thrown != XmlParseError && thrown != NotFoundError
  {
    if thrown == XmlParseError then ProcessingFailedMessage
    else if thrown == NotFoundError then NotFoundShownMessage
    else LoadFailedMessage
  }

  // ---------------------------------------------------------------------------
  // Dispatch

  /** What `processMealData` does with the parsed object. */
  datatype Dispatch = ShowError(message: string) | Display(rows: seq<Record>)

  /** `processMealData`: the no-data result shows the fixed no-data message
      (the service's own message is not used); an object without rows shows
      the not-found message; otherwise the rows are displayed. */
  function ProcessMealData(data: ResponseData): (d: Dispatch)
    ensures d.ShowError? ==> d.message == NoDataShownMessage || d.message == NotFoundShownMessage
    ensures d.Display? ==> data.rows == Some(d.rows)
  {
    if data.result.Some? && data.result.value.code == NoDataCode then ShowError(NoDataShownMessage)
    else if data.rows.None? then ShowError(NotFoundShownMessage)
    else Display(data.rows.value)
  }

  /** On what the parser returns, `processMealData` shows the no-data message
      exactly for the no-data result and otherwise displays the parsed rows:
      its own not-found branch is never taken. */
  lemma ProcessParsedData(doc: seq<Node>)
    requires Interpret(doc).Success?
    ensures var data := Interpret(doc).value;
            ProcessMealData(data) == (if data.result.Some? then ShowError(NoDataShownMessage)
                                      else Display(data.rows.value))
    ensures ProcessMealData(Interpret(doc).value) != ShowError(NotFoundShownMessage)
  {
  }

  // ---------------------------------------------------------------------------
  // The whole response

  /** What the user ends up seeing: one error message, or the three meals. */
  datatype Screen =
    | ErrorScreen(message: string)
    | MealScreen(breakfast: seq<Item>, lunch: seq<Item>, dinner: seq<Item>)

  /** The buckets of the rows, and whether displaying them throws. */
  predicate DisplayThrows(rows: seq<Record>)
  {
    None in Bucket(rows, BreakfastCode) || None in Bucket(rows, LunchCode) || None in Bucket(rows, DinnerCode)
  }

  /** The screen a response document leads to: parse, dispatch, display, and
      on any throw the message the `catch` block picks. */
  function Outcome(doc: seq<Node>): (s: Screen)
    ensures s.MealScreen? ==> Interpret(doc).Success? && Interpret(doc).value.rows.Some?
  {
    match Interpret(doc)
    case Failure(thrown) => ErrorScreen(CaughtMessage(thrown))
    case Success(data) =>
      match ProcessMealData(data)
      case ShowError(message) => ErrorScreen(message)
      case Display(rows) =>
        if DisplayThrows(rows) then ErrorScreen(CaughtMessage(UndefinedSplitError))
        else MealScreen(SlotItems(Bucket(rows, BreakfastCode), BreakfastName),
                        SlotItems(Bucket(rows, LunchCode), LunchName),
                        SlotItems(Bucket(rows, DinnerCode), DinnerName))
  }

  /** The `try` block of `fetchMealInfo` from the parsed document on, with its
      `catch`: returns the error message shown, if any, and fills the three
      containers when the menu is shown. */
  method ShowResponse(doc: seq<Node>, breakfastDiv: Container, lunchDiv: Container, dinnerDiv: Container)
    returns (shown: Option<string>)
    requires breakfastDiv != lunchDiv && breakfastDiv != dinnerDiv && lunchDiv != dinnerDiv
    modifies breakfastDiv, lunchDiv, dinnerDiv
    ensures shown.Some? <==> Outcome(doc).ErrorScreen?
    ensures shown.Some? ==> shown.value == Outcome(doc).message
    ensures Outcome(doc).MealScreen? ==>
              breakfastDiv.items == Outcome(doc).breakfast &&
              lunchDiv.items == Outcome(doc).lunch &&
              dinnerDiv.items == Outcome(doc).dinner
  {
    var data := ParseXmlResponse(doc);
    if data.Failure? {
      return Some(CaughtMessage(data.message));
    }
    match ProcessMealData(data.value)
    case ShowError(message) =>
      return Some(message);
    case Display(rows) =>
      var threw := DisplayMealInfo(rows, breakfastDiv, lunchDiv, dinnerDiv);
      if threw {
        return Some(CaughtMessage(UndefinedSplitError));
      }
      return None;
  }

  // ---------------------------------------------------------------------------
  // What each kind of response shows

  /** A document with a `parsererror` element shows the processing-error
      message and never a menu. */
  lemma ParserErrorShown(doc: seq<Node>)
    requires HasParserError(doc)
    ensures Outcome(doc) == ErrorScreen(ProcessingFailedMessage)
  {
  }

  /** The no-data signal shows the no-data message, even when the document
      also holds meal data. */
  lemma NoDataShown(doc: seq<Node>)
    requires !HasParserError(doc) && NoDataSignal(doc)
    ensures Outcome(doc) == ErrorScreen(NoDataShownMessage)
  {
    InterpretCases(doc);
    ParsedShape(doc);
  }

  /** Without the no-data signal and without `mealServiceDietInfo`, the
      not-found message is shown; a `RESULT` with any other code changes nothing. */
  lemma NotFoundShown(doc: seq<Node>)
    requires !HasParserError(doc) && !NoDataSignal(doc) && !HasMealInfo(doc)
    ensures Outcome(doc) == ErrorScreen(NotFoundShownMessage)
  {
    InterpretCases(doc);
  }

  /** With meal data, the menu is shown exactly when no breakfast, lunch or
      dinner row lacks `DDISH_NM`; then each meal shows the lines of its rows,
      in document order; otherwise the generic retry message is shown. */
  lemma MealDataShown(doc: seq<Node>)
    requires !HasParserError(doc) && !NoDataSignal(doc) && HasMealInfo(doc)
    ensures Interpret(doc).Success? && Interpret(doc).value.rows.Some?
    ensures var rows := Interpret(doc).value.rows.value;
            |rows| == |RowElements(doc)| &&
            (Outcome(doc).MealScreen? <==> !DisplayThrows(rows)) &&
            (DisplayThrows(rows) ==> Outcome(doc) == ErrorScreen(LoadFailedMessage)) &&
            (!DisplayThrows(rows) ==>
               Outcome(doc) == MealScreen(SlotItems(Bucket(rows, BreakfastCode), BreakfastName),
                                          SlotItems(Bucket(rows, LunchCode), LunchName),
                                          SlotItems(Bucket(rows, DinnerCode), DinnerName)))
  {
    RowsInDocumentOrder(doc);
    ProcessParsedData(doc);
  }

  /** Every error a response document leads to is one of four messages. */
  lemma ErrorMessagesKnown(doc: seq<Node>)
    ensures Outcome(doc).ErrorScreen? ==>
              Outcome(doc).message in [ProcessingFailedMessage, NoDataShownMessage, NotFoundShownMessage, LoadFailedMessage]
  {
  }

  /** On a menu screen each meal shows either only its placeholder, when it
      has no rows, or only menu lines, each non-empty, trimmed and free of
      `<br/>`. */
  lemma MealScreenWellFormed(doc: seq<Node>)
    requires Outcome(doc).MealScreen?
    ensures SlotWellFormed(Outcome(doc).breakfast, BreakfastName)
    ensures SlotWellFormed(Outcome(doc).lunch, LunchName)
    ensures SlotWellFormed(Outcome(doc).dinner, DinnerName)
  {
    var rows := Interpret(doc).value.rows.value;
    SlotWellFormedFor(Bucket(rows, BreakfastCode), BreakfastName);
    SlotWellFormedFor(Bucket(rows, LunchCode), LunchName);
    SlotWellFormedFor(Bucket(rows, DinnerCode), DinnerName);
  }

  /** A meal's container holds just its placeholder, or menu lines only. */
  predicate SlotWellFormed(items: seq<Item>, mealTypeName: string)
  {
    items == [Placeholder(PlaceholderText(mealTypeName))] ||
    forall k :: 0 <= k < |items| ==> items[k].MenuLine? && IsMenuLine(items[k].text)
  }

  lemma SlotWellFormedFor(meals: seq<Option<string>>, mealTypeName: string)
    ensures SlotWellFormed(SlotItems(meals, mealTypeName), mealTypeName)
  {
    MenuLinesWellFormed(meals);
  }
}
