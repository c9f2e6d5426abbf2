/** The add-on create and edit forms: text inputs and checkboxes write one
    field each, and the category checkboxes toggle ids in the list of
    applicable categories. */
module AddonForm {
  import opened Wrappers
  import opened Text
  import opened JsValues

  // ---------------------------------------------------------------------
  // The category toggle
  // ---------------------------------------------------------------------

  /** `list.filter(x => x !== v)` for a string `v`: `===` against a string is
      equality with that string. */
  function Without(list: seq<Value>, v: Value): (r: seq<Value>)
    ensures forall x :: x in r <==> x in list && x != v
    ensures forall x :: multiset(r)[x] == if x == v then 0 else multiset(list)[x]
    ensures |r| <= |list|
    decreases |list|
  {
    if list == [] then []
    else
      assert list == [list[0]] + list[1..];
      var rest := Without(list[1..], v);
      if list[0] == v then rest else [list[0]] + rest
  }

  /** Clicking the checkbox of category id `id`: every occurrence is removed
      when it is selected, otherwise it is appended at the end. */
  function Toggle(list: seq<Value>, id: string): seq<Value>
  {
    if Str(id) in list then Without(list, Str(id)) else list + [Str(id)]
  }

  lemma {:induction false} WithoutIdempotent(list: seq<Value>, v: Value)
    ensures Without(Without(list, v), v) == Without(list, v)
    decreases |list|
  {
    if list != [] {
      WithoutIdempotent(list[1..], v);
    }
  }

  lemma {:induction false} WithoutAppend(list: seq<Value>, v: Value)
    ensures Without(list + [v], v) == Without(list, v)
    decreases |list|
  {
    if list == [] {
      assert [] + [v] == [v];
    } else {
      assert (list + [v])[1..] == list[1..] + [v];
      WithoutAppend(list[1..], v);
    }
  }

  /** `filter` keeps order: filtering a concatenation concatenates the
      filtered parts. */
  lemma {:induction false} WithoutConcat(a: seq<Value>, b: seq<Value>, v: Value)
    ensures Without(a + b, v) == Without(a, v) + Without(b, v)
    decreases |a|
  {
    if a == [] {
      assert a + b == b;
    } else {
      assert (a + b)[0] == a[0];
      assert (a + b)[1..] == a[1..] + b;
      WithoutConcat(a[1..], b, v);
    }
  }

  /** A one-element list keeps its element exactly when it is not `v`. */
  lemma WithoutOne(x: Value, v: Value)
    ensures Without([x], v) == if x == v then [] else [x]
  {
    assert [x][1..] == [];
  }

  /** A list free of `v` is its own filter. */
  lemma {:induction false} WithoutAbsent(list: seq<Value>, v: Value)
    requires v !in list
    ensures Without(list, v) == list
    decreases |list|
  {
    if list != [] {
      WithoutAbsent(list[1..], v);
      assert [list[0]] + list[1..] == list;
    }
  }

  /** A toggle flips the id's membership and no other value's, and leaves
      the other values in their order. */
  lemma ToggleFlips(list: seq<Value>, id: string)
    ensures Str(id) in Toggle(list, id) <==> Str(id) !in list
    ensures forall x :: x != Str(id) ==> (x in Toggle(list, id) <==> x in list)
    ensures Without(Toggle(list, id), Str(id)) == Without(list, Str(id))
  {
    if Str(id) in list {
      WithoutIdempotent(list, Str(id));
    } else {
      WithoutAppend(list, Str(id));
    }
  }

  /** Toggling twice selects the same ids; with the id unselected at first
      the list comes back unchanged. */
  lemma ToggleTwice(list: seq<Value>, id: string)
    ensures forall x :: x in Toggle(Toggle(list, id), id) <==> x in list
    ensures Str(id) !in list ==> Toggle(Toggle(list, id), id) == list
    ensures Str(id) in list ==> Toggle(Toggle(list, id), id) == Without(list, Str(id)) + [Str(id)]
  {
    ToggleFlips(list, id);
    ToggleFlips(Toggle(list, id), id);
    if Str(id) !in list {
      WithoutAppend(list, Str(id));
      WithoutAbsent(list, Str(id));
    }
  }

  /** The id a category's checkbox stands for: `String(category._id)`. */
  function CheckboxId(category: Record): string
  {
    Stringify(Get(category, "_id"))
  }

  /** A category's checkbox is checked when its id is selected. */
  predicate Checked(selected: seq<Value>, category: Record)
  {
    Str(CheckboxId(category)) in selected
  }

  /** Clicking a category's checkbox flips it, and every checkbox with another
      id keeps its state. */
  lemma ClickFlipsCheckbox(selected: seq<Value>, clicked: Record, other: Record)
    ensures Checked(Toggle(selected, CheckboxId(clicked)), clicked) <==> !Checked(selected, clicked)
    ensures CheckboxId(other) != CheckboxId(clicked) ==>
      (Checked(Toggle(selected, CheckboxId(clicked)), other) <==> Checked(selected, other))
  {
    ToggleFlips(selected, CheckboxId(clicked));
  }

  // ---------------------------------------------------------------------
  // Loading an add-on for editing
  // ---------------------------------------------------------------------

  /** `categories.map(category => category._id)`: a `null` or `undefined`
      entry throws, and any entry that is not an object gives `undefined`. */
  function CategoryIds(categories: seq<Value>): (r: Result<seq<Value>, Exception>)
    ensures r.Ok? <==> forall i :: 0 <= i < |categories| ==> !Nullish(categories[i])
    ensures r.Ok? ==> |r.value| == |categories|
    ensures r.Ok? ==> forall i :: 0 <= i < |categories| ==> r.value[i] == Member(categories[i], "_id").value
    decreases |categories|
  {
    if categories == [] then Ok([])
    else
      match Member(categories[0], "_id")
      case Err(e) => Err(e)
      case Ok(id) =>
        match CategoryIds(categories[1..])
        case Err(e) => Err(e)
        case Ok(rest) => Ok([id] + rest)
  }

  /** The add-on as the server sends it: its fields, and its applicable
      categories when they form an array. */
  datatype Fetched = Fetched(fields: Record, applicable: Option<seq<Value>>)

  /** The edit form: every field of the form except the category list, which
      is kept apart; the category objects offered as checkboxes. */
  class EditForm {
    var fields: Record
    var applicableCategories: seq<Value>
    var categories: seq<Record>

    constructor ()
      ensures fields == map["name" := Str(""), "price" := Str(""), "isGlobal" := Bool(false),
                            "available" := Bool(false)]
      ensures applicableCategories == [] && categories == []
    {
      fields := map["name" := Str(""), "price" := Str(""), "isGlobal" := Bool(false),
                    "available" := Bool(false)];
      applicableCategories := [];
      categories := [];
    }

    /** The load effect. When either request fails nothing changes. Otherwise
        the categories are stored first; then the form becomes the fetched
        add-on with its categories replaced by their ids, unless mapping them
        throws (a missing list or a `null` entry), which leaves the form as it
        was. */
    method Load(categoriesResponse: Option<seq<Record>>, addonResponse: Option<Fetched>)
      modifies this
      ensures categoriesResponse.None? || addonResponse.None? ==>
        fields == old(fields) && applicableCategories == old(applicableCategories)
        && categories == old(categories)
      ensures categoriesResponse.Some? && addonResponse.Some? ==>
        categories == categoriesResponse.value
        && var a := addonResponse.value;
        if a.applicable.Some? && CategoryIds(a.applicable.value).Ok? then
          fields == a.fields - {"applicableCategories"}
          && applicableCategories == CategoryIds(a.applicable.value).value
        else
          fields == old(fields) && applicableCategories == old(applicableCategories)
    {
      if categoriesResponse.None? || addonResponse.None? {
        return;
      }
      categories := categoriesResponse.value;
      var a := addonResponse.value;
      if a.applicable.None? {
        return;
      }
      var ids := CategoryIds(a.applicable.value);
      if ids.Err? {
        return;
      }
      fields := a.fields - {"applicableCategories"};
      applicableCategories := ids.value;
    }

    /** A text input or checkbox writes its own field: the box's state for a
        checkbox, the typed text otherwise. The inputs are name, price,
        isGlobal and available, never the category list. */
    method HandleChange(name: string, value: string, isCheckbox: bool, checked: bool)
      requires name != "applicableCategories"
      modifies this
      ensures fields == old(fields)[name := if isCheckbox then Bool(checked) else Str(value)]
      ensures applicableCategories == old(applicableCategories) && categories == old(categories)
    {
      fields := fields[name := if isCheckbox then Bool(checked) else Str(value)];
    }

    /** A category's checkbox was clicked. */
    method HandleCategoryChange(categoryId: string)
      modifies this
      ensures applicableCategories == Toggle(old(applicableCategories), categoryId)
      ensures fields == old(fields) && categories == old(categories)
    {
      if Str(categoryId) in applicableCategories {
        applicableCategories := Without(applicableCategories, Str(categoryId));
      } else {
        applicableCategories := applicableCategories + [Str(categoryId)];
      }
    }

    /** The checkbox of the category offered at `i`. */
    predicate IsChecked(i: int)
      requires 0 <= i < |categories|
      reads this
    {
      Checked(applicableCategories, categories[i])
    }
  }

  // ---------------------------------------------------------------------
  // Creating an add-on
  // ---------------------------------------------------------------------

  /** What a multiple select reports: a comma-separated string, or a list.
      The create page defines a handler for such a select but renders none,
      so no element of the page ever calls it. */
  datatype Selection = Text(text: string) | Items(values: seq<Value>)

  /** `typeof value === "string" ? value.split(",") : value`. */
  function SelectedIds(v: Selection): (r: seq<Value>)
    ensures v.Text? ==> |r| == |Split(v.text, ',')|
    ensures v.Text? ==> forall i :: 0 <= i < |r| ==> r[i] == Str(Split(v.text, ',')[i])
    ensures v.Items? ==> r == v.values
  {
    match v
    case Text(s) =>
      var pieces := Split(s, ',');
      seq(|pieces|, i requires 0 <= i < |pieces| => Str(pieces[i]))
    case Items(values) => values
  }

  /** Ids free of commas, selected as one comma-joined string, come back as
      the same list. */
  lemma SelectedJoined(ids: seq<string>)
    requires |ids| >= 1
    requires forall i :: 0 <= i < |ids| ==> ',' !in ids[i]
    ensures SelectedIds(Text(Join(ids, ','))) == seq(|ids|, i requires 0 <= i < |ids| => Str(ids[i]))
  {
    SplitJoin(ids, ',');
  }

  /** The create form: name, price and isGlobal, and the selected category ids. */
  class CreateForm {
    var fields: Record
    var applicableCategories: seq<Value>

    predicate Initial()
      reads this
    {
      fields == map["name" := Str(""), "price" := Str(""), "isGlobal" := Bool(false)]
      && applicableCategories == []
    }

    constructor ()
      ensures Initial()
    {
      fields := map["name" := Str(""), "price" := Str(""), "isGlobal" := Bool(false)];
      applicableCategories := [];
    }

    /** A text input or checkbox writes its own field. */
    method HandleChange(name: string, value: string, isCheckbox: bool, checked: bool)
      requires name != "applicableCategories"
      modifies this
      ensures fields == old(fields)[name := if isCheckbox then Bool(checked) else Str(value)]
      ensures applicableCategories == old(applicableCategories)
    {
      fields := fields[name := if isCheckbox then Bool(checked) else Str(value)];
    }

    /** The multiple-select handler: the selection replaces the list. The page
        defines it but no element calls it; the checkboxes use ToggleCategory. */
    method HandleCategoryChange(value: Selection)
      modifies this
      ensures applicableCategories == SelectedIds(value) && fields == old(fields)
    {
      applicableCategories := SelectedIds(value);
    }

    /** The inline checkbox handler. */
    method ToggleCategory(categoryId: string)
      modifies this
      ensures applicableCategories == Toggle(old(applicableCategories), categoryId)
      ensures fields == old(fields)
    {
      if Str(categoryId) in applicableCategories {
        applicableCategories := Without(applicableCategories, Str(categoryId));
      } else {
        applicableCategories := applicableCategories + [Str(categoryId)];
      }
    }

    /** Submitting: after the server accepts the add-on the form is reset to
        its initial state; after a failure it is kept for another try. */
    method Submit(accepted: bool)
      modifies this
      ensures accepted ==> Initial()
      ensures !accepted ==> fields == old(fields) && applicableCategories == old(applicableCategories)
    {
      if accepted {
        fields := map["name" := Str(""), "price" := Str(""), "isGlobal" := Bool(false)];
        applicableCategories := [];
      }
    }
  }
}
