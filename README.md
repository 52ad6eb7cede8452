# School meal lookup — verified model of the meal-data pipeline

The repository is one browser script, `script.js`, that asks the NEIS open
data service (`mealServiceDietInfo`) for a school's menu on a picked date and
shows breakfast (조식), lunch (중식) and dinner (석식). This Dafny project
models the part of that script that has logic in it:

- the query date: every `-` removed from the picked `YYYY-MM-DD` date;
- `parseXMLResponse`: on an already-parsed XML document, a parse error, the
  `INFO-200` "no data" result, a missing `mealServiceDietInfo`, or one record
  per `row` holding those of `MMEAL_SC_CODE`, `DDISH_NM`, `MLSV_YMD`,
  `MLSV_FGR` that the row has;
- `processMealData`: the no-data message, the not-found message, or display;
- the classification loop of `displayMealInfo`: each row's `DDISH_NM` into
  breakfast, lunch or dinner by code `'1'`/`'2'`/`'3'`, other codes dropped;
- `displayMealType`: a placeholder for an empty meal, otherwise each dish
  string split on `<br/>`, every fragment trimmed, blank ones dropped, and the
  lines appended to the meal's container;
- the `catch` block of `fetchMealInfo`, which maps every thrown error to one
  of three messages.

Modules, one per concern:

| file | module | models |
|---|---|---|
| wrappers.dfy | `Wrappers` | `Option` (for `undefined`) and `Result` (for a thrown `Error` and its message) |
| xml_tree.dfy | `XmlTree` | the parsed document as a tree of elements, text and other nodes; `getElementsByTagName` as a pre-order search of descendants; `[0]` as a first-match search; `textContent` |
| js_strings.dfy | `JsStrings` | `String.prototype.split` with a literal separator, `Array.prototype.join`, and `trim` with the ECMAScript WhiteSpace and LineTerminator code points |
| meal_parse.dfy | `MealParse` | `parseXMLResponse` |
| meal_display.dfy | `MealDisplay` | the classification loop, `displayMealType`, and `displayMealInfo` without its date title |
| meal_search.dfy | `MealSearch` | the date strip, `processMealData`, the `catch` block, and what the user ends up seeing for a document |

The pure parts (the date strip, the dispatch, the message choice) are
functions. The parts that build things step by step are methods with loops:
`ParseXmlResponse` and `ExtractRecord` build the record list and each record
as the source's `for` loop and `forEach` do; `Classify` pushes onto three
arrays; `DisplayMealType` and `AppendDishLines` append to a `Container`
object, a class whose `items` field is the page element's content. Each
method is proved against a specification function (`Interpret`, `RecordOf`,
`Bucket`, `DishLines`, `MenuLines`, `SlotItems`, `Outcome`), and the
properties the page relies on are proved about those functions.

Behaviour of `script.js` a reader might not expect:

- The no-data check looks only at the first `RESULT` element of the document
  and at the first `CODE` inside it; a `RESULT` with another code (the
  service's `INFO-000` header inside `mealServiceDietInfo`) falls through.
- The no-data result carries the service's `MESSAGE` text (or
  `데이터가 없습니다.`), but `processMealData` never shows it: it always shows
  `해당 날짜의 급식정보가 없습니다.`.
- A row coded `'1'`–`'3'` without `DDISH_NM` is not skipped: `undefined` is
  pushed, `split` throws on it, and the whole search shows the generic retry
  message. Dish lines are produced at display time, not during
  classification.
- A parse failure is recognised only by a `parsererror` element in the
  document, which is what `DOMParser` produces; it does not throw.

## Model

| member | source | states |
|---|---|---|
| `XmlTree.ElementsByTag` | script.js:91 | every element a tag search returns has exactly that tag |
| `XmlTree.UnderCons` | script.js:91 | a node lies below a list of nodes exactly when it is the first of them, lies below the first, or lies below the rest |
| `XmlTree.ElementsByTagComplete` | script.js:91 | a tag search returns exactly the descendant elements with that tag: every one of them and nothing else |
| `XmlTree.FirstByTag` | script.js:97-100 | `[0]` of a tag search is `undefined` or an element with that tag; `FirstByTagIsHead` pins it to the first match in document order |
| `XmlTree.FirstByTagIsHeadForAll` | script.js:128 | for every tag name, `[0]` of a search within a row is the first element of the full search |
| `XmlTree.FirstByTagIsHead` | script.js:97-100 | taking `[0]` of a tag search finds an element exactly when the search is non-empty, and finds its first element in document order |
| `XmlTree.TextContent` | script.js:102-106 | `textContent`: the text of a text node, or the text of all descendant text nodes of an element, in document order; `TextOfConcat` pins down the concatenation |
| `XmlTree.TextOfConcat` | script.js:130 | the text of a list of nodes is the text of its first part followed by the text of the rest |
| `JsStrings.TrimStartSuffix` | script.js:215 | trimming the start keeps a suffix that does not begin with white space and removes only white space |
| `JsStrings.TrimEndPrefix` | script.js:215 | trimming the end keeps a prefix that does not end with white space and removes only white space |
| `JsStrings.Trim` | script.js:212-215 | `trim` never lengthens a string; `TrimIsMiddle`, `TrimEmptyIffBlank` and `TrimIdempotent` pin down what it keeps |
| `JsStrings.TrimIsMiddle` | script.js:215 | `trim` keeps a contiguous middle part of the string that neither starts nor ends with white space, and cuts only white space on both sides |
| `JsStrings.TrimEmptyIffBlank` | script.js:212 | `item.trim()` is empty (falsy) exactly when the fragment is all white space |
| `JsStrings.TrimTrimmed` | script.js:215 | a string that neither starts nor ends with white space is left unchanged by `trim` |
| `JsStrings.TrimIdempotent` | script.js:215 | `trim` is idempotent: trimming an already trimmed string changes nothing, as for `String.prototype.trim` |
| `JsStrings.Split` | script.js:212 | a split always yields at least one part |
| `JsStrings.SplitShort` | script.js:212 | a string shorter than the separator splits into itself alone |
| `JsStrings.JoinSplit` | script.js:212 | joining the parts of a split with the separator gives back the original string |
| `JsStrings.SplitHeadIsPrefix` | script.js:212 | the first part of a split is a prefix of the string |
| `JsStrings.ContainsPrefix` | script.js:212 | a string whose prefix contains the separator contains it too |
| `JsStrings.SplitPartsFree` | script.js:212 | no part of a split contains the separator |
| `JsStrings.ContainsSlice` | script.js:215 | a string containing the separator in a middle part contains it |
| `JsStrings.TrimKeepsFree` | script.js:212-215 | trimming a fragment without the separator gives a trimmed string without the separator |
| `MealParse.RecordOf` | script.js:122-134 | a record has a field exactly when it is one of the four names and the full tag search of the row finds an element of that name; its value is the text of the first element that search finds |
| `MealParse.Interpret` | script.js:86-140 | the parser throws only the XML parse error or the not-found error, and on success returns either a result or rows, never both; `InterpretCases` and `RowsInDocumentOrder` pin down which |
| `MealParse.ExtractRecord` | script.js:123-132 | the `forEach` over the four fields builds exactly that record |
| `MealParse.ParseXmlResponse` | script.js:86-140 | the parser with its row loop returns, or throws, exactly what the specification function of the parser gives |
| `MealParse.InterpretCases` | script.js:90-116 | a `parsererror` element anywhere gives the XML parse error and never rows; otherwise the `INFO-200` signal gives the no-data result even when meal data is present; otherwise no `mealServiceDietInfo` gives the not-found error; otherwise rows (each an if-and-only-if) |
| `MealParse.ParsedShape` | script.js:102-139 | a successful parse returns either the `INFO-200` result without rows or rows without a result |
| `MealParse.NoDataMessage` | script.js:99-108 | the no-data message is the text of the first `MESSAGE` under the first `RESULT`, or `데이터가 없습니다.` when there is none |
| `MealParse.RowsInDocumentOrder` | script.js:113-135 | on success there is exactly one record per `row` descendant of the first `mealServiceDietInfo`, in document order, each the record of that row |
| `MealDisplay.Positions` | script.js:178-193 | the positions of the rows with a given code are all of them, valid and strictly increasing |
| `MealDisplay.Bucket` | script.js:178-193 | a meal array has at most one entry per row; `BucketInInputOrder` pins down which entries, in which order |
| `MealDisplay.BucketInInputOrder` | script.js:178-193 | each meal array holds the `DDISH_NM` of exactly the rows with its code, in input order |
| `MealDisplay.BucketSizes` | script.js:178-193 | the three arrays together hold at most one entry per row, and exactly one per row precisely when every row is coded `'1'`, `'2'` or `'3'` |
| `MealDisplay.NonBlank` | script.js:212 | the `filter` never adds a fragment; `NonBlankKeeps` pins down which it keeps |
| `MealDisplay.Classify` | script.js:174-193 | the classification loop fills breakfast, lunch and dinner with the arrays of codes `'1'`, `'2'` and `'3'` |
| `MealDisplay.NonBlankKeeps` | script.js:212 | the filter keeps exactly the fragments that are not blank |
| `MealDisplay.DishLines` | script.js:210-221 | a dish yields at most one line per `<br/>` fragment; `DishLinesWellFormed` and `DishLinesExample` pin down the lines |
| `MealDisplay.DishLinesWellFormed` | script.js:210-221 | the fragments of a dish join back into it, and every line it yields is non-empty, trimmed and free of `<br/>` |
| `MealDisplay.ExampleFragments` | script.js:212 | `"밥<br/>국<br/> 김치 "` splits into `"밥"`, `"국"`, `" 김치 "` |
| `MealDisplay.ExampleTrims` | script.js:212-215 | none of those fragments is blank, and they trim to `"밥"`, `"국"`, `"김치"` |
| `MealDisplay.DishLinesExample` | script.js:210-221 | `"밥<br/>국<br/> 김치 "` shows as the three lines `밥`, `국`, `김치` |
| `MealDisplay.MenuLines` | script.js:210-221 | the lines of a meal: each dish's lines in dish order, up to the first `undefined` dish; `MenuLinesSplitAt`, `MenuLinesExtend`, `MenuLinesStop` and `MenuLinesWellFormed` pin them down |
| `MealDisplay.MenuLinesSplitAt` | script.js:210-221 | after dishes that are all defined, the meal's lines continue with those of the remaining dishes |
| `MealDisplay.MenuLinesExtend` | script.js:210-221 | each further defined dish adds its own lines at the end, in dish-then-fragment order |
| `MealDisplay.MenuItemsExtend` | script.js:210-221 | each further defined dish appends the items of its own lines to what the container already shows |
| `MealDisplay.MenuLinesStop` | script.js:212 | the lines end at the first `undefined` dish |
| `MealDisplay.MenuLinesWellFormed` | script.js:210-221 | every line appended for a meal is non-empty, trimmed and free of `<br/>` |
| `MealDisplay.SlotItems` | script.js:204-221 | what a meal's container shows: the placeholder for an empty array, else its menu lines; `SlotItemsPlaceholder` pins down the choice |
| `MealDisplay.SlotItemsPlaceholder` | script.js:205-207 | an empty meal shows only its placeholder; a non-empty meal never shows it |
| `MealDisplay.DisplayMealType` | script.js:204-223 | an empty array shows only the placeholder; otherwise the container gets the lines of each dish appended in order; it throws exactly when a dish is `undefined`, after the lines of the dishes before it |
| `MealDisplay.AppendDishLines` | script.js:212-221 | one dish appends exactly its trimmed non-blank fragments, in order |
| `MealDisplay.DisplayMealInfo` | script.js:168-198 | after clearing, breakfast, lunch and dinner show their arrays' contents in that order; the display throws exactly when a classified dish is `undefined`, and meals after the one that threw stay empty |
| `MealSearch.StripDashes` | script.js:51 | the query date contains no `-` and is no longer than the picked date |
| `MealSearch.StripDashesKeepsOthers` | script.js:51 | every character other than `-` is kept as often as it occurs |
| `MealSearch.StripDashesConcat` | script.js:51 | removal works piece by piece, so the kept characters stay in order |
| `MealSearch.StripDashesNoDash` | script.js:51 | a date without `-` is sent unchanged |
| `MealSearch.IsoDateBecomesCompact` | script.js:50-51 | `YYYY-MM-DD` becomes `YYYYMMDD` |
| `MealSearch.CaughtMessage` | script.js:75-81 | the processing message exactly for the XML parse error, the not-found message exactly for the not-found error, the retry message for every other error |
| `MealSearch.ProcessMealData` | script.js:143-159 | `processMealData` shows only the no-data or the not-found message, and otherwise displays exactly the rows it was given; on the parser's output see `ProcessParsedData` |
| `MealSearch.ProcessParsedData` | script.js:143-159 | on the parser's output `processMealData` shows the no-data message exactly for the no-data result and otherwise displays the parsed rows; its not-found branch is never reached |
| `MealSearch.Outcome` | script.js:67-81 | what the user ends up seeing for a document, with the `catch` of script.js:68 turning a thrown error into its message; a menu only when the parse returned rows; `ErrorMessagesKnown` and the `...Shown` lemmas pin it down |
| `MealSearch.ShowResponse` | script.js:67-81 | parse, dispatch, display and `catch` together show the error message of the document's outcome, or fill the three containers with its menu |
| `MealSearch.ParserErrorShown` | script.js:91-94 | a document with a `parsererror` element shows `서버 응답을 처리하는 중 오류가 발생했습니다.` and no menu |
| `MealSearch.NoDataShown` | script.js:97-109 | the `INFO-200` signal shows `해당 날짜의 급식정보가 없습니다.` and nothing else, even when meal data is also present |
| `MealSearch.NotFoundShown` | script.js:112-116 | without the no-data signal and without `mealServiceDietInfo` the not-found message is shown |
| `MealSearch.MealDataShown` | script.js:118-200 | with meal data, the menu is shown exactly when no classified row lacks `DDISH_NM`, and then each meal shows its rows' lines; otherwise the retry message is shown |
| `MealSearch.ErrorMessagesKnown` | script.js:71-81 | every error a response document leads to is one of four messages: processing failed, no data, not found, or retry |
| `MealSearch.SlotWellFormedFor` | script.js:204-221 | a meal's container holds just its placeholder or only well-formed menu lines |
| `MealSearch.MealScreenWellFormed` | script.js:195-198 | on the menu screen all three meals are well formed in that sense |

## Left out

- DOM element lookups, event listeners, the Enter-key forwarding and the show/hide class toggles (script.js:1-41, script.js:225-251): page wiring without logic.
- `fetch`, `async`/`await`, the HTTP status check, `console.log` and the URL built from the date (script.js:44-65): network I/O. An HTTP failure throws a message that `CaughtMessage` maps to the retry message, like any unrecognised error. Two overlapping searches race with no cancellation; that is not modelled.
- `DOMParser` (script.js:87-88): the document is taken as an already-parsed tree, which carries a `parsererror` element when the text was not well-formed XML.
- Tag matching is exact string comparison: XML namespaces, prefixes and the `*` wildcard of `getElementsByTagName` are not modelled, since the script searches only plain names.
- The date title built with `new Date(date)` (script.js:164-166), `isValidDate` (script.js:254-257) and the past-date guard (script.js:260-269): they depend on JavaScript date parsing and the local time zone.
- The placeholder's HTML markup and `createElement`/`appendChild` (script.js:206, script.js:217-219) are modelled only as a `Placeholder` or `MenuLine` item in the container.
- The text of the `TypeError` from `undefined.split` is the engine's own; the model uses one fixed wording, which matters only in being neither of the parser's two messages.
- MealSearch.ShowResponse: states nothing about the containers when an error is shown; they may then hold the lines of the meals displayed before a throw, which stay hidden because the menu section is never shown.
