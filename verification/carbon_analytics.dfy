/** The emissions chart's two filter lists, "type" and "status", toggled value by value, with
    an "All" button that empties the type list. */
module CarbonAnalytics {
  import JsBuiltins

  /** The two filter categories. */
  datatype Category = Type | Status

  /** The active values of each category, in the order they were switched on. */
  datatype Filters = Filters(types: seq<string>, statuses: seq<string>)

  /** The filters on mount. */
  const Initial: Filters := Filters(["Refurbishment", "New build"], ["Complete"])

  /** The category that a toggle of `c` leaves alone. */
  function Other(c: Category): (o: Category)
    ensures o != c
  {
    match c
    case Type => Status
    case Status => Type
  }

  /** The active values of category `c`. */
  function Get(f: Filters, c: Category): seq<string>
  {
    match c
    case Type => f.types
    case Status => f.statuses
  }

  /** `f` with the list of category `c` replaced, the other category untouched. */
  function Set(f: Filters, c: Category, values: seq<string>): (g: Filters)
    ensures Get(g, c) == values && Get(g, Other(c)) == Get(f, Other(c))
  {
    match c
    case Type => f.(types := values)
    case Status => f.(statuses := values)
  }

  /** Toggling one value of a list: an active value is removed wherever it occurs, an inactive
      one is appended. */
  function Toggle(values: seq<string>, v: string): (r: seq<string>)
    ensures (v in r) == (v !in values)
    ensures v !in values ==> r == values + [v]
    ensures v in values ==> r == JsBuiltins.Filter(values, (w: string) => w != v)
    ensures v in values ==> forall w :: w in r <==> w in values && w != v
    ensures v in values ==> forall w :: w != v ==> multiset(r)[w] == multiset(values)[w]
  {
    if v in values then
      JsBuiltins.FilterContents(values, (w: string) => w != v);
      JsBuiltins.Filter(values, (w: string) => w != v)
    else values + [v]
  }

  /** `toggleFilter`: flips whether `v` is active in category `c`, and only there. */
  function ToggleFilter(f: Filters, c: Category, v: string): (g: Filters)
    ensures (v in Get(g, c)) == (v !in Get(f, c))
    ensures Get(g, Other(c)) == Get(f, Other(c))
    ensures Get(g, c) == Toggle(Get(f, c), v)
  {
    Set(f, c, Toggle(Get(f, c), v))
  }

  /** The "All" button: clears the type filters and leaves the status filters alone. */
  function ShowAll(f: Filters): (g: Filters)
    ensures g.types == [] && g.statuses == f.statuses
  {
    f.(types := [])
  }

  /** The labels of the buttons in each row. */
  const AllLabel: string := "All"

  /** A click on a button of the type row: "All" clears the row, any other button toggles. */
  function ClickTypeButton(f: Filters, button: string): (g: Filters)
    ensures g.statuses == f.statuses
    ensures button == AllLabel ==> g.types == []
    ensures button != AllLabel ==> (button in g.types) == (button !in f.types)
    ensures button != AllLabel ==> g.types == Toggle(f.types, button)
  {
    if button == AllLabel then ShowAll(f) else ToggleFilter(f, Type, button)
  }

  /** A click on a button of the status row toggles that status. */
  function ClickStatusButton(f: Filters, button: string): (g: Filters)
    ensures g.types == f.types
    ensures (button in g.statuses) == (button !in f.statuses)
    ensures g.statuses == Toggle(f.statuses, button)
  {
    ToggleFilter(f, Status, button)
  }

  /** Toggling never introduces a duplicate. */
  lemma ToggleKeepsDistinct(values: seq<string>, v: string)
    requires JsBuiltins.NoDuplicates(values)
    ensures JsBuiltins.NoDuplicates(Toggle(values, v))
  {
    if v in values {
      JsBuiltins.FilterKeepsNoDuplicates(values, (w: string) => w != v);
    }
  }

  /** Switching an inactive value on and off again restores the list exactly. */
  lemma ToggleAbsentTwice(values: seq<string>, v: string)
    requires v !in values
    ensures Toggle(Toggle(values, v), v) == values
  {
  }

  /** Switching an active value off and on again moves it to the end: the same values, but the
      list is rebuilt as the other values in order followed by `v`. */
  lemma TogglePresentTwice(values: seq<string>, v: string)
    requires v in values
    ensures Toggle(Toggle(values, v), v) == JsBuiltins.Filter(values, (w: string) => w != v) + [v]
    ensures forall w :: w in Toggle(Toggle(values, v), v) <==> w in values
  {
  }

  /** On the initial filters, switching "Refurbishment" off and on again reorders the type
      list, so a double toggle is the identity only up to order. */
  lemma DoubleToggleReorders()
    ensures ToggleFilter(ToggleFilter(Initial, Type, "Refurbishment"), Type, "Refurbishment").types
      == ["New build", "Refurbishment"]
    ensures Initial.types == ["Refurbishment", "New build"]
  {
  }
}
