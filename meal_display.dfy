/** `displayMealInfo` and `displayMealType`: sorting the records into
    breakfast, lunch and dinner, and turning each dish string into the menu
    lines appended to that meal's container. */
module MealDisplay {
  import opened Wrappers
  import opened JsStrings
  import opened MealParse

  const BreakfastCode := "1"
  const LunchCode := "2"
  const DinnerCode := "3"
  const BreakfastName := "조식"
  const LunchName := "중식"
  const DinnerName := "석식"

  /** The marker the service puts between dishes of one meal. */
  const LineBreak := "<br/>"

  /** `meal.MMEAL_SC_CODE`, with `None` for `undefined`. */
  function Code(r: Record): Option<string>
  {
    if "MMEAL_SC_CODE" in r then Some(r["MMEAL_SC_CODE"]) else None
  }

  /** `meal.DDISH_NM`, with `None` for `undefined`. */
  function Dish(r: Record): Option<string>
  {
    if "DDISH_NM" in r then Some(r["DDISH_NM"]) else None
  }

  predicate IsSlotCode(code: Option<string>)
  {
    code == Some(BreakfastCode) || code == Some(LunchCode) || code == Some(DinnerCode)
  }

  // ---------------------------------------------------------------------------
  // Classification

  /** What the `switch` pushes onto the array for `code`, over all of `rows`. */
  function Bucket(rows: seq<Record>, code: string): (b: seq<Option<string>>)
    ensures |b| <= |rows|
    decreases |rows|
  {
    if rows == [] then []
    else
      var last := rows[|rows| - 1];
      Bucket(rows[..|rows| - 1], code) + (if Code(last) == Some(code) then [Dish(last)] else [])
  }

  /** The positions of the rows coded `code`: all of them, in increasing order. */
  function Positions(rows: seq<Record>, code: string): (ps: seq<nat>)
    ensures forall j :: 0 <= j < |ps| ==> ps[j] < |rows| && Code(rows[ps[j]]) == Some(code)
    ensures forall j, k :: 0 <= j < k < |ps| ==> ps[j] < ps[k]
    ensures forall i :: 0 <= i < |rows| && Code(rows[i]) == Some(code) ==> i in ps
    decreases |rows|
  {
    if rows == [] then []
    else
      var n := |rows| - 1;
      Positions(rows[..n], code) + (if Code(rows[n]) == Some(code) then [n] else [])
  }

  /** A bucket holds the dish of every row with its code and of no other row,
      in input order. */
  lemma {:induction false} BucketInInputOrder(rows: seq<Record>, code: string)
    ensures |Bucket(rows, code)| == |Positions(rows, code)|
    ensures forall j :: 0 <= j < |Bucket(rows, code)| ==>
              Bucket(rows, code)[j] == Dish(rows[Positions(rows, code)[j]])
    decreases |rows|
  {
    if rows != [] {
      var n := |rows| - 1;
      BucketInInputOrder(rows[..n], code);
      forall j | 0 <= j < |Positions(rows[..n], code)|
        ensures rows[..n][Positions(rows[..n], code)[j]] == rows[Positions(rows[..n], code)[j]]
      {
      }
    }
  }

  /** The three buckets together hold at most one entry per row, and exactly
      one per row precisely when every row has one of the three codes. */
  lemma {:induction false} BucketSizes(rows: seq<Record>)
    ensures |Bucket(rows, BreakfastCode)| + |Bucket(rows, LunchCode)| + |Bucket(rows, DinnerCode)| <= |rows|
    ensures |Bucket(rows, BreakfastCode)| + |Bucket(rows, LunchCode)| + |Bucket(rows, DinnerCode)| == |rows|
            <==> forall i :: 0 <= i < |rows| ==> IsSlotCode(Code(rows[i]))
    decreases |rows|
  {
    if rows != [] {
      var n := |rows| - 1;
      BucketSizes(rows[..n]);
      if forall i :: 0 <= i < |rows| ==> IsSlotCode(Code(rows[i])) {
        forall i | 0 <= i < n ensures IsSlotCode(Code(rows[..n][i])) {
          assert rows[..n][i] == rows[i];
        }
      }
      if (forall i :: 0 <= i < n ==> IsSlotCode(Code(rows[..n][i]))) && IsSlotCode(Code(rows[n])) {
        forall i | 0 <= i < |rows| ensures IsSlotCode(Code(rows[i])) {
          if i < n { assert rows[..n][i] == rows[i]; }
        }
      }
    }
  }

  /** The classification loop of `displayMealInfo`: one pass over the records,
      pushing each `DDISH_NM` onto the array its code selects. */
  method Classify(mealData: seq<Record>) returns (breakfast: seq<Option<string>>, lunch: seq<Option<string>>, dinner: seq<Option<string>>)
    ensures breakfast == Bucket(mealData, BreakfastCode)
    ensures lunch == Bucket(mealData, LunchCode)
    ensures dinner == Bucket(mealData, DinnerCode)
  {
    breakfast, lunch, dinner := [], [], [];
    for i := 0 to |mealData|
      invariant breakfast == Bucket(mealData[..i], BreakfastCode)
      invariant lunch == Bucket(mealData[..i], LunchCode)
      invariant dinner == Bucket(mealData[..i], DinnerCode)
    {
      assert mealData[..i + 1][..i] == mealData[..i];
      var mealType := Code(mealData[i]);
      var mealContent := Dish(mealData[i]);
      if mealType == Some(BreakfastCode) {
        breakfast := breakfast + [mealContent];
      } else if mealType == Some(LunchCode) {
        lunch := lunch + [mealContent];
      } else if mealType == Some(DinnerCode) {
        dinner := dinner + [mealContent];
      }
    }
    assert mealData[..|mealData|] == mealData;
  }

  // ---------------------------------------------------------------------------
  // Menu lines

  /** `parts.filter(item => item.trim())`: the parts that are not blank, in order. */
  function NonBlank(parts: seq<string>): (kept: seq<string>)
    ensures |kept| <= |parts|
    decreases |parts|
  {
    if parts == [] then []
    else (if Trim(parts[0]) != [] then [parts[0]] else []) + NonBlank(parts[1..])
  }

  /** The filter keeps exactly the parts that are not blank. */
  lemma {:induction false} NonBlankKeeps(parts: seq<string>)
    ensures forall p :: p in NonBlank(parts) <==> p in parts && Trim(p) != []
    decreases |parts|
  {
    if parts != [] {
      NonBlankKeeps(parts[1..]);
    }
  }

  /** The lines one dish string contributes: its `<br/>`-separated fragments,
      trimmed, blank ones dropped. */
  function DishLines(dish: string): (lines: seq<string>)
    ensures |lines| <= |Split(dish, LineBreak)|
  {
    var items := NonBlank(Split(dish, LineBreak));
    seq(|items|, k requires 0 <= k < |items| => Trim(items[k]))
  }

  /** A displayable menu line: non-empty, trimmed, and free of `<br/>`. */
  predicate IsMenuLine(line: string)
  {
    line != [] && IsTrimmed(line) && !Contains(line, LineBreak)
  }

  /** Each line of a dish is non-empty, already trimmed and free of `<br/>`,
      and the fragments it is cut from join back into the dish string. */
  lemma DishLinesWellFormed(dish: string)
    ensures Join(Split(dish, LineBreak), LineBreak) == dish
    ensures forall k :: 0 <= k < |DishLines(dish)| ==> IsMenuLine(DishLines(dish)[k])
  {
    var parts := Split(dish, LineBreak);
    JoinSplit(dish, LineBreak);
    SplitPartsFree(dish, LineBreak);
    NonBlankKeeps(parts);
    var items := NonBlank(parts);
    forall k | 0 <= k < |items|
      ensures IsMenuLine(Trim(items[k]))
    {
      assert items[k] in items;
      TrimKeepsFree(items[k], LineBreak);
    }
  }

  /** The fragments of the worked example below. */
  lemma ExampleFragments()
    ensures Split("밥<br/>국<br/> 김치 ", LineBreak) == ["밥", "국", " 김치 "]
  {
    SplitShort(" 김치 ", LineBreak);
    assert Split("<br/> 김치 ", LineBreak) == ["", " 김치 "] by {
      assert LineBreak <= "<br/> 김치 ";
      assert "<br/> 김치 "[5..] == " 김치 ";
    }
    assert Split("국<br/> 김치 ", LineBreak) == ["국", " 김치 "] by {
      var s := "국<br/> 김치 ";
      assert LineBreak[0] != s[0];
      assert s[1..] == "<br/> 김치 ";
      assert [s[0]] + "" == "국";
    }
    assert Split("<br/>국<br/> 김치 ", LineBreak) == ["", "국", " 김치 "] by {
      assert LineBreak <= "<br/>국<br/> 김치 ";
      assert "<br/>국<br/> 김치 "[5..] == "국<br/> 김치 ";
    }
    var s := "밥<br/>국<br/> 김치 ";
    assert LineBreak[0] != s[0];
    assert s[1..] == "<br/>국<br/> 김치 ";
    assert [s[0]] + "" == "밥";
  }

  /** What the filter and `trim` make of the fragments of the example. */
  lemma ExampleTrims()
    ensures NonBlank(["밥", "국", " 김치 "]) == ["밥", "국", " 김치 "]
    ensures Trim("밥") == "밥" && Trim("국") == "국" && Trim(" 김치 ") == "김치"
  {
  }

  /** The worked example: `"밥<br/>국<br/> 김치 "` shows as three lines. */
  lemma DishLinesExample()
    ensures DishLines("밥<br/>국<br/> 김치 ") == ["밥", "국", "김치"]
  {
    ExampleFragments();
    ExampleTrims();
    var lines := DishLines("밥<br/>국<br/> 김치 ");
    assert |lines| == 3;
    assert lines[0] == "밥" && lines[1] == "국" && lines[2] == "김치";
  }

  /** The lines a non-empty meal array produces: those of each dish in turn,
      up to the first `undefined` dish, where `split` throws. */
  function MenuLines(meals: seq<Option<string>>): seq<string>
    decreases |meals|
  {
    if meals == [] then []
    else match meals[0]
      case None => []
      case Some(dish) => DishLines(dish) + MenuLines(meals[1..])
  }

  /** Past a prefix of defined dishes, the lines continue with the rest. */
  lemma {:induction false} MenuLinesSplitAt(meals: seq<Option<string>>, i: nat)
    requires i <= |meals| && None !in meals[..i]
    ensures MenuLines(meals) == MenuLines(meals[..i]) + MenuLines(meals[i..])
    decreases i
  {
    if i > 0 {
      assert meals[0] in meals[..i];
      assert meals[1..][..i - 1] == meals[..i][1..];
      assert meals[1..][i - 1..] == meals[i..];
      MenuLinesSplitAt(meals[1..], i - 1);
    }
  }

  /** One more defined dish adds its lines at the end. */
  lemma MenuLinesExtend(meals: seq<Option<string>>, i: nat)
    requires i < |meals| && None !in meals[..i] && meals[i].Some?
    ensures None !in meals[..i + 1]
    ensures MenuLines(meals[..i + 1]) == MenuLines(meals[..i]) + DishLines(meals[i].value)
  {
    assert meals[..i + 1] == meals[..i] + [meals[i]];
    MenuLinesSplitAt(meals[..i + 1], i);
    assert meals[..i + 1][..i] == meals[..i];
    assert meals[..i + 1][i..] == [meals[i]];
  }

  /** An `undefined` dish ends the lines. */
  lemma MenuLinesStop(meals: seq<Option<string>>, i: nat)
    requires i < |meals| && None !in meals[..i] && meals[i].None?
    ensures MenuLines(meals) == MenuLines(meals[..i])
  {
    MenuLinesSplitAt(meals, i);
    assert meals[i..][0] == meals[i];
  }

  /** Every line of a meal array is non-empty, trimmed and free of `<br/>`. */
  lemma {:induction false} MenuLinesWellFormed(meals: seq<Option<string>>)
    ensures forall k :: 0 <= k < |MenuLines(meals)| ==> IsMenuLine(MenuLines(meals)[k])
    decreases |meals|
  {
    if meals != [] && meals[0].Some? {
      var first := DishLines(meals[0].value);
      DishLinesWellFormed(meals[0].value);
      MenuLinesWellFormed(meals[1..]);
      assert MenuLines(meals) == first + MenuLines(meals[1..]);
    }
  }

  // ---------------------------------------------------------------------------
  // Containers

  /** What a meal container shows: the placeholder `<div>` or a menu `<p>`. */
  datatype Item = Placeholder(text: string) | MenuLine(text: string)

  function PlaceholderText(mealTypeName: string): string
  {
    mealTypeName + " 정보가 없습니다."
  }

  function AsItems(lines: seq<string>): seq<Item>
  {
    seq(|lines|, k requires 0 <= k < |lines| => MenuLine(lines[k]))
  }

  lemma AsItemsConcat(a: seq<string>, b: seq<string>)
    ensures AsItems(a + b) == AsItems(a) + AsItems(b)
  {
  }

  /** One more defined dish appends the items of its own lines. */
  lemma MenuItemsExtend(meals: seq<Option<string>>, i: nat)
    requires i < |meals| && None !in meals[..i] && meals[i].Some?
    ensures None !in meals[..i + 1]
    ensures AsItems(MenuLines(meals[..i + 1])) == AsItems(MenuLines(meals[..i])) + AsItems(DishLines(meals[i].value))
  {
    MenuLinesExtend(meals, i);
    AsItemsConcat(MenuLines(meals[..i]), DishLines(meals[i].value));
  }

  /** The contents of a cleared container after `displayMealType`. */
  function SlotItems(meals: seq<Option<string>>, mealTypeName: string): seq<Item>
  {
    if meals == [] then [Placeholder(PlaceholderText(mealTypeName))] else AsItems(MenuLines(meals))
  }

  /** An empty meal array shows only the placeholder; a non-empty one shows
      menu lines and never the placeholder. */
  lemma SlotItemsPlaceholder(meals: seq<Option<string>>, mealTypeName: string)
    ensures (exists k :: 0 <= k < |SlotItems(meals, mealTypeName)| && SlotItems(meals, mealTypeName)[k].Placeholder?)
            <==> meals == []
    ensures meals == [] ==> |SlotItems(meals, mealTypeName)| == 1
  {
    if meals == [] {
      assert SlotItems(meals, mealTypeName)[0].Placeholder?;
    }
  }

  /** A page element that menu lines are appended to. */
  class Container {
    var items: seq<Item>

    constructor ()
      ensures items == []
    {
      items := [];
    }
  }

  /** `displayMealType`: the placeholder for an empty array; otherwise each
      dish's lines appended in order. Reports whether `meal.split` threw on an
      `undefined` dish, leaving the lines of the dishes before it in place. */
  method DisplayMealType(container: Container, meals: seq<Option<string>>, mealTypeName: string) returns (threw: bool)
    modifies container
    ensures threw == (None in meals)
    ensures meals == [] ==> container.items == [Placeholder(PlaceholderText(mealTypeName))]
    ensures meals != [] ==> container.items == old(container.items) + AsItems(MenuLines(meals))
  {
    if |meals| == 0 {
      container.items := [Placeholder(PlaceholderText(mealTypeName))];
      return false;
    }
    var i := 0;
    while i < |meals|
      invariant 0 <= i <= |meals|
      invariant None !in meals[..i]
      invariant container.items == old(container.items) + AsItems(MenuLines(meals[..i]))
    {
      if meals[i].None? {
        MenuLinesStop(meals, i);
        return true;
      }
      AppendDishLines(container, meals[i].value);
      MenuItemsExtend(meals, i);
      i := i + 1;
    }
    assert meals[..i] == meals;
    return false;
  }

  /** The body of the outer `forEach` for one defined dish: split on
      `<br/>`, keep the non-blank fragments and append each one trimmed. */
  method AppendDishLines(container: Container, meal: string)
    modifies container
    ensures container.items == old(container.items) + AsItems(DishLines(meal))
  {
    var menuItems := NonBlank(Split(meal, LineBreak));
    NonBlankKeeps(Split(meal, LineBreak));
    for j := 0 to |menuItems|
      invariant container.items == old(container.items) + AsItems(seq(j, k requires 0 <= k < j => Trim(menuItems[k])))
    {
      assert menuItems[j] in menuItems;
      var trimmedItem := Trim(menuItems[j]);
      if trimmedItem != [] {
        container.items := container.items + [MenuLine(trimmedItem)];
      }
    }
  }

  /** `displayMealInfo` without the date title: clears the three containers,
      classifies the records and displays breakfast, lunch and dinner in that
      order, stopping at the first meal whose display throws. */
  method DisplayMealInfo(mealData: seq<Record>, breakfastDiv: Container, lunchDiv: Container, dinnerDiv: Container)
    returns (threw: bool)
    requires breakfastDiv != lunchDiv && breakfastDiv != dinnerDiv && lunchDiv != dinnerDiv
    modifies breakfastDiv, lunchDiv, dinnerDiv
    ensures var b, l, d := Bucket(mealData, BreakfastCode), Bucket(mealData, LunchCode), Bucket(mealData, DinnerCode);
            threw == (None in b || None in l || None in d) &&
            breakfastDiv.items == SlotItems(b, BreakfastName) &&
            lunchDiv.items == (if None in b then [] else SlotItems(l, LunchName)) &&
            dinnerDiv.items == (if None in b || None in l then [] else SlotItems(d, DinnerName))
  {
    breakfastDiv.items, lunchDiv.items, dinnerDiv.items := [], [], [];
    var breakfast, lunch, dinner := Classify(mealData);
    threw := DisplayMealType(breakfastDiv, breakfast, BreakfastName);
    if threw {
      return;
    }
    threw := DisplayMealType(lunchDiv, lunch, LunchName);
    if threw {
      return;
    }
    threw := DisplayMealType(dinnerDiv, dinner, DinnerName);
  }
}
