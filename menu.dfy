/**
 * Menu and category editing (src/screens/MenuManagement.tsx). The screen keeps
 * its dishes and categories in local state and edits them in place; ids that the
 * screen draws from `Date.now()` are passed in as `freshId`.
 */
module MenuManagement {
  import opened Wrappers
  import opened Seqs
  import opened Text

  datatype Category = Category(id: int, name: string)

  datatype Dish = Dish(id: int, name: string, description: string, price: int,
                       categoryId: int, image: string, available: bool)

  /** The dish dialog. An empty price or category field is `None`. */
  datatype DishForm = DishForm(name: string, description: string, price: Option<int>,
                               categoryId: Option<int>, image: string)

  /** What the "add category" dialog makes of the typed name. */
  datatype CategoryVerdict = Blank | Duplicate | Accepted(name: string)

  const DefaultImage: string := "/foodimage.jpg"
  const EmptyForm: DishForm := DishForm("", "", None, None, "")
  const NameRequired: string := "Category name is required."
  const AlreadyExists: string := "Category already exists."

  /** A number-or-null id used as a condition: `null` and `0` both read as "none". */
  predicate IsSet(id: Option<int>) {
    id.Some? && id.value != 0
  }

  predicate DishMatches(selected: Option<int>, search: string, d: Dish) {
    && (!IsSet(selected) || d.categoryId == selected.value)
    && Contains(ToLower(d.name), ToLower(search))
  }

  /**
   * `filteredDishes`: the dishes of the selected category (all of them when none is
   * selected) whose name contains the search text ignoring ASCII case, in list order.
   * The search text is not trimmed. Every copy of a matching dish is kept and no
   * copy of any other dish.
   */
  function FilteredDishes(dishes: seq<Dish>, selected: Option<int>, search: string): (r: seq<Dish>)
    ensures Subsequence(r, dishes)
    ensures forall d :: d in r <==>
      d in dishes && (!IsSet(selected) || d.categoryId == selected.value) && Contains(ToLower(d.name), ToLower(search))
    ensures forall d :: multiset(r)[d] == if DishMatches(selected, search, d) then multiset(dishes)[d] else 0
  {
    var p := (d: Dish) => DishMatches(selected, search, d);
    FilterIsSubsequence(dishes, p);
    FilterMultiset(dishes, p);
    Filter(dishes, p)
  }

  /** With no category selected and an empty search box every dish is listed, in order. */
  lemma FilteredDishesUnrestricted(dishes: seq<Dish>)
    ensures FilteredDishes(dishes, None, "") == dishes
  {
    FilterAll(dishes, (d: Dish) => DishMatches(None, "", d));
  }

  /** `toggleAvailability(id)` on the list: dishes with that id have `available` flipped. */
  function Toggled(dishes: seq<Dish>, id: int): (r: seq<Dish>)
    ensures |r| == |dishes|
  {
    seq(|dishes|, i requires 0 <= i < |dishes| =>
      if dishes[i].id == id then dishes[i].(available := !dishes[i].available) else dishes[i])
  }

  /** Toggling flips exactly the dishes with the id and nothing else about them. */
  lemma ToggledEffect(dishes: seq<Dish>, id: int, i: int)
    requires 0 <= i < |dishes|
    ensures Toggled(dishes, id)[i].available == (if dishes[i].id == id then !dishes[i].available else dishes[i].available)
    ensures Toggled(dishes, id)[i].(available := dishes[i].available) == dishes[i]
  {
  }

  /** Toggling the same dish twice restores the list. */
  lemma ToggledTwice(dishes: seq<Dish>, id: int)
    ensures Toggled(Toggled(dishes, id), id) == dishes
  {
  }

  /** `deleteDish(id)` on the list: every dish with that id goes, the rest keep their order. */
  function WithoutDish(dishes: seq<Dish>, id: int): (r: seq<Dish>)
    ensures Subsequence(r, dishes)
    ensures forall d :: d in r <==> d in dishes && d.id != id
    ensures forall d :: multiset(r)[d] == if d.id != id then multiset(dishes)[d] else 0
  {
    var p := (d: Dish) => d.id != id;
    FilterIsSubsequence(dishes, p);
    FilterMultiset(dishes, p);
    Filter(dishes, p)
  }

  /** `form.image || "/foodimage.jpg"`: an empty image field falls back to the default picture. */
  function ImageOrDefault(image: string): (r: string)
    ensures r != ""
    ensures image != "" ==> r == image
    ensures image == "" ==> r == DefaultImage
  {
    if image == "" then DefaultImage else image
  }

  /** The dish built from the form in add mode: available, with id `id` and the form's fields. */
  function NewDish(id: int, form: DishForm): (d: Dish)
    requires form.price.Some? && form.categoryId.Some?
    ensures d.id == id && d.available
    ensures ApplyForm(d, form) == d
  {
    Dish(id, form.name, form.description, form.price.value, form.categoryId.value, ImageOrDefault(form.image), true)
  }

  /** The edit applied to one dish: form fields replace the dish's, `id` and `available` stay. */
  function ApplyForm(d: Dish, form: DishForm): (r: Dish)
    requires form.price.Some? && form.categoryId.Some?
    ensures r.id == d.id && r.available == d.available
    ensures r.name == form.name && r.description == form.description
    ensures r.price == form.price.value && r.categoryId == form.categoryId.value
    ensures r.image == ImageOrDefault(form.image)
  {
    d.(name := form.name, description := form.description, price := form.price.value,
       categoryId := form.categoryId.value, image := ImageOrDefault(form.image))
  }

  /** The list after saving in edit mode: every dish with the edited id takes the form. */
  function Edited(dishes: seq<Dish>, id: int, form: DishForm): (r: seq<Dish>)
    requires form.price.Some? && form.categoryId.Some?
    ensures |r| == |dishes|
    ensures forall i :: 0 <= i < |dishes| ==> r[i].id == dishes[i].id && r[i].available == dishes[i].available
    ensures forall i :: 0 <= i < |dishes| && dishes[i].id != id ==> r[i] == dishes[i]
    ensures forall i :: 0 <= i < |dishes| && dishes[i].id == id ==> r[i] == ApplyForm(dishes[i], form)
  {
    seq(|dishes|, i requires 0 <= i < |dishes| =>
      if dishes[i].id == id then ApplyForm(dishes[i], form) else dishes[i])
  }

  /**
   * Saving an edit keeps every id, every availability flag, and the untouched dishes;
   * an edited dish carries every field of the form.
   */
  lemma EditedKeepsIdentity(dishes: seq<Dish>, id: int, form: DishForm, i: int)
    requires form.price.Some? && form.categoryId.Some?
    requires 0 <= i < |dishes|
    ensures Edited(dishes, id, form)[i].id == dishes[i].id
    ensures Edited(dishes, id, form)[i].available == dishes[i].available
    ensures dishes[i].id != id ==> Edited(dishes, id, form)[i] == dishes[i]
    ensures dishes[i].id == id ==>
      var e := Edited(dishes, id, form)[i];
      && e.name == form.name && e.description == form.description
      && e.price == form.price.value && e.categoryId == form.categoryId.value
      && e.image == (if form.image == "" then DefaultImage else form.image)
  {
  }

  /** The guard of `handleSaveDish`: a name that is not blank, a price and a category. */
  predicate CanSave(form: DishForm)
    ensures CanSave(form) <==> !AllSpace(form.name) && form.price.Some? && form.categoryId.Some?
  {
    Trim(form.name) != [] && form.price.Some? && form.categoryId.Some?
  }

  /** Some category name equals `lowered` after lower-casing. */
  function AnyNameLowersTo(categories: seq<Category>, lowered: string): (b: bool)
    ensures b <==> exists c :: c in categories && ToLower(c.name) == lowered
  {
    if categories == [] then false
    else ToLower(categories[0].name) == lowered || AnyNameLowersTo(categories[1..], lowered)
  }

  /**
   * `handleAddCategory`'s checks: a blank name is refused, a name equal to an existing
   * one ignoring ASCII case (after trimming the new one) is refused, otherwise the
   * trimmed name is accepted.
   */
  function JudgeCategoryName(categories: seq<Category>, typed: string): (v: CategoryVerdict)
    ensures v.Blank? <==> AllSpace(typed)
    ensures v.Duplicate? <==> !AllSpace(typed) && exists c :: c in categories && ToLower(c.name) == ToLower(Trim(typed))
    ensures v.Accepted? ==> v.name == Trim(typed) && v.name != []
    ensures v.Accepted? ==> forall c :: c in categories ==> ToLower(c.name) != ToLower(v.name)
  {
    var name := Trim(typed);
    if name == [] then Blank
    else if AnyNameLowersTo(categories, ToLower(name)) then Duplicate
    else Accepted(name)
  }

  /** No two categories share a name ignoring ASCII case. */
  ghost predicate NamesDistinct(categories: seq<Category>) {
    forall i, j :: 0 <= i < j < |categories| ==> ToLower(categories[i].name) != ToLower(categories[j].name)
  }

  /** An accepted name keeps the category names distinct, and cannot be added a second time. */
  lemma AcceptedKeepsNamesDistinct(categories: seq<Category>, typed: string, freshId: int)
    requires NamesDistinct(categories)
    requires JudgeCategoryName(categories, typed).Accepted?
    ensures NamesDistinct(categories + [Category(freshId, Trim(typed))])
    ensures JudgeCategoryName(categories + [Category(freshId, Trim(typed))], typed) == Duplicate
  {
    var added := categories + [Category(freshId, Trim(typed))];
    assert added[|categories|] in added;
    forall i, j | 0 <= i < j < |added| ensures ToLower(added[i].name) != ToLower(added[j].name) {
      if j == |categories| {
        assert added[i] in categories;
      }
    }
  }

  /** `dishes.some(dish => dish.categoryId === categoryId)`. */
  function UsesCategory(dishes: seq<Dish>, categoryId: int): (b: bool)
    ensures b <==> exists d :: d in dishes && d.categoryId == categoryId
  {
    if dishes == [] then false
    else dishes[0].categoryId == categoryId || UsesCategory(dishes[1..], categoryId)
  }

  /** The price field: non-digits are stripped; nothing left means "no price". */
  function PriceInput(typed: string): (r: Option<nat>)
    ensures r.None? <==> DigitsOnly(typed) == []
  {
    var d := DigitsOnly(typed);
    if d == [] then None else Some(DecimalValue(d))
  }

  /** Whatever price the field displays reads back as the same price. */
  lemma PriceInputRoundTrip(n: nat)
    ensures PriceInput(DecimalText(n)) == Some(n)
  {
    FilterAll(DecimalText(n), IsDigit);
    DecimalRoundTrip(n);
  }

  /** A character that is not a digit, typed anywhere in the price field, changes nothing. */
  lemma PriceInputIgnoresNonDigit(a: string, c: char, b: string)
    requires !IsDigit(c)
    ensures PriceInput(a + [c] + b) == PriceInput(a + b)
  {
    FilterAppend(a + [c], b, IsDigit);
    FilterAppend(a, [c], IsDigit);
    FilterAppend(a, b, IsDigit);
    assert Filter([c], IsDigit) == [];
    assert DigitsOnly(a + [c]) == DigitsOnly(a);
  }

  /** The price field reads only the digits typed into it. */
  lemma PriceInputDigitsOnly(typed: string)
    ensures PriceInput(DigitsOnly(typed)) == PriceInput(typed)
  {
    DigitsOnlyIdempotent(typed);
  }

  /** "1a2" reads as 12. */
  lemma PriceInputExample()
    ensures PriceInput("1a2") == Some(12)
  {
    assert "1a2"[1..] == "a2" && "a2"[1..] == "2" && "2"[1..] == [];
    assert Filter("2", IsDigit) == "2";
    assert Filter("a2", IsDigit) == "2";
    assert DigitsOnly("1a2") == "12";
    assert "12"[..1] == "1" && "1"[..0] == [];
    assert DecimalValue("1") == 1;
  }

  /** `dishes.find(d => d.id === id)`, as a loop: the first dish with the id, if any. */
  method FindDish(dishes: seq<Dish>, id: int) returns (r: Option<Dish>)
    ensures r.None? <==> forall d :: d in dishes ==> d.id != id
    ensures r.Some? ==>
      (exists k :: 0 <= k < |dishes| && dishes[k] == r.value && r.value.id == id && forall j :: 0 <= j < k ==> dishes[j].id != id)
  {
    var k := 0;
    while k < |dishes|
      invariant 0 <= k <= |dishes|
      invariant forall j :: 0 <= j < k ==> dishes[j].id != id
    {
      if dishes[k].id == id {
        return Some(dishes[k]);
      }
      k := k + 1;
    }
    return None;
  }

  class MenuBoard {
    var categories: seq<Category>
    var dishes: seq<Dish>
    var selectedCategory: Option<int>
    var search: string
    var newCategoryName: string
    var categoryError: string
    var editingDishId: Option<int>
    var form: DishForm

    ghost predicate Valid()
      reads this
    {
      NamesDistinct(categories)
    }

    /** The screen's initial state: three sample categories and two sample dishes. */
    constructor ()
      ensures Valid()
      ensures categories == [Category(1, "Starters"), Category(2, "Main Course"), Category(3, "Beverages")]
      ensures dishes == [
        Dish(1, "Paneer Tikka", "Delicious grilled paneer cubes", 250, 1, DefaultImage, true),
        Dish(2, "Veg Biryani", "Aromatic basmati rice with spices", 180, 2, DefaultImage, false)]
      ensures selectedCategory == None && search == "" && editingDishId == None
      ensures form == EmptyForm && newCategoryName == "" && categoryError == ""
    {
      categories := [Category(1, "Starters"), Category(2, "Main Course"), Category(3, "Beverages")];
      dishes := [
        Dish(1, "Paneer Tikka", "Delicious grilled paneer cubes", 250, 1, DefaultImage, true),
        Dish(2, "Veg Biryani", "Aromatic basmati rice with spices", 180, 2, DefaultImage, false)];
      selectedCategory, search, editingDishId := None, "", None;
      form, newCategoryName, categoryError := EmptyForm, "", "";
      assert ToLower("Starters")[0] == 's' && ToLower("Main Course")[0] == 'm' && ToLower("Beverages")[0] == 'b';
    }

    method ToggleAvailability(id: int)
      modifies this`dishes
      ensures dishes == Toggled(old(dishes), id)
    {
      dishes := Toggled(dishes, id);
    }

    method DeleteDish(id: int)
      modifies this`dishes
      ensures dishes == WithoutDish(old(dishes), id)
    {
      dishes := WithoutDish(dishes, id);
    }

    /** The "Add dish" button: a blank form in add mode. */
    method StartAdd()
      modifies this`form, this`editingDishId
      ensures form == EmptyForm && editingDishId == None
    {
      editingDishId := None;
      form := EmptyForm;
    }

    /** A dish's "Edit" button: the form is filled from the dish and edit mode targets its id. */
    method StartEdit(id: int)
      modifies this`form, this`editingDishId
      ensures (forall d :: d in dishes ==> d.id != id) ==> form == old(form) && editingDishId == old(editingDishId)
      ensures (exists d :: d in dishes && d.id == id) ==> editingDishId == Some(id)
      ensures (exists d :: d in dishes && d.id == id) ==>
        exists k :: 0 <= k < |dishes| && dishes[k].id == id && (forall j :: 0 <= j < k ==> dishes[j].id != id)
          && form == DishForm(dishes[k].name, dishes[k].description, Some(dishes[k].price), Some(dishes[k].categoryId), dishes[k].image)
    {
      var found := FindDish(dishes, id);
      if found.None? {
        return;
      }
      var d := found.value;
      form := DishForm(d.name, d.description, Some(d.price), Some(d.categoryId), d.image);
      editingDishId := Some(d.id);
    }

    /** The price field's `onChange`. */
    method TypePrice(typed: string)
      modifies this`form
      ensures form == old(form).(price := PriceInput(typed))
    {
      var price := PriceInput(typed);
      form := form.(price := if price.Some? then Some(price.value as int) else None);
    }

    /**
     * `handleSaveDish`: refused (nothing changes) without a name, a price and a category;
     * in edit mode the dishes with the edited id take the form's fields; in add mode
     * one available dish with id `freshId` is appended. Then the form is reset.
     */
    method SaveDish(freshId: int)
      modifies this`dishes, this`form, this`editingDishId
      ensures !CanSave(old(form)) ==> dishes == old(dishes) && form == old(form) && editingDishId == old(editingDishId)
      ensures CanSave(old(form)) && IsSet(old(editingDishId)) ==>
        dishes == Edited(old(dishes), old(editingDishId).value, old(form))
      ensures CanSave(old(form)) && !IsSet(old(editingDishId)) ==>
        dishes == old(dishes) + [NewDish(freshId, old(form))]
      ensures CanSave(old(form)) ==> form == EmptyForm && editingDishId == None
    {
      if Trim(form.name) == [] || form.price.None? || form.categoryId.None? {
        return;
      }
      if IsSet(editingDishId) {
        dishes := Edited(dishes, editingDishId.value, form);
      } else {
        dishes := dishes + [NewDish(freshId, form)];
      }
      form := EmptyForm;
      editingDishId := None;
    }

    /**
     * `handleAddCategory`: a blank or duplicate name sets the matching error and leaves
     * the list alone; an accepted name is appended trimmed and the dialog is cleared.
     */
    method AddCategory(freshId: int)
      modifies this`categories, this`categoryError, this`newCategoryName
      ensures var v := JudgeCategoryName(old(categories), old(newCategoryName));
        && (v.Blank? ==> categories == old(categories) && categoryError == NameRequired && newCategoryName == old(newCategoryName))
        && (v.Duplicate? ==> categories == old(categories) && categoryError == AlreadyExists && newCategoryName == old(newCategoryName))
        && (v.Accepted? ==> categories == old(categories) + [Category(freshId, v.name)] && categoryError == "" && newCategoryName == "")
      ensures old(Valid()) ==> Valid()
    {
      var v := JudgeCategoryName(categories, newCategoryName);
      match v {
        case Blank =>
          categoryError := NameRequired;
        case Duplicate =>
          categoryError := AlreadyExists;
        case Accepted(name) =>
          if Valid() {
            AcceptedKeepsNamesDistinct(categories, newCategoryName, freshId);
          }
          categories := categories + [Category(freshId, name)];
          newCategoryName := "";
          categoryError := "";
      }
    }

    /**
     * `handleDeleteCategory`: refused while any dish uses the category; otherwise every
     * category with that id goes and a filter on it is cleared.
     */
    method DeleteCategory(categoryId: int) returns (refused: bool)
      modifies this`categories, this`selectedCategory
      ensures refused <==> exists d :: d in dishes && d.categoryId == categoryId
      ensures refused ==> categories == old(categories) && selectedCategory == old(selectedCategory)
      ensures !refused ==> categories == Filter(old(categories), (c: Category) => c.id != categoryId)
      ensures !refused ==> selectedCategory == if old(selectedCategory) == Some(categoryId) then None else old(selectedCategory)
      ensures !refused ==> forall c :: c in categories ==> c.id != categoryId
      ensures old(Valid()) ==> Valid()
    {
      refused := UsesCategory(dishes, categoryId);
      if refused {
        return;
      }
      var p := (c: Category) => c.id != categoryId;
      var kept := Filter(categories, p);
      FilterIsSubsequence(categories, p);
      if Valid() {
        SubsequenceNamesDistinct(kept, categories);
      }
      categories := kept;
      if selectedCategory == Some(categoryId) {
        selectedCategory := None;
      }
    }
  }

  /** Dropping categories keeps their names distinct. */
  lemma {:induction false} SubsequenceNamesDistinct(r: seq<Category>, s: seq<Category>)
    requires Subsequence(r, s) && NamesDistinct(s)
    ensures NamesDistinct(r)
    decreases |s|
  {
    if r != [] && s != [] {
      if r[0] == s[0] {
        SubsequenceNamesDistinct(r[1..], s[1..]);
        SubsequenceMembers(r[1..], s[1..]);
        forall j | 0 < j < |r| ensures ToLower(r[0].name) != ToLower(r[j].name) {
          assert r[j] == r[1..][j - 1];
          var k :| 0 <= k < |s[1..]| && s[1..][k] == r[j];
          assert s[k + 1] == r[j];
        }
      } else {
        assert NamesDistinct(s[1..]) by {
          forall i, j | 0 <= i < j < |s[1..]| ensures ToLower(s[1..][i].name) != ToLower(s[1..][j].name) {
            assert s[1..][i] == s[i + 1] && s[1..][j] == s[j + 1];
          }
        }
        SubsequenceNamesDistinct(r, s[1..]);
      }
    }
  }

  lemma {:induction false} SubsequenceMembers<T>(r: seq<T>, s: seq<T>)
    requires Subsequence(r, s)
    ensures forall i :: 0 <= i < |r| ==> exists k :: 0 <= k < |s| && s[k] == r[i]
    decreases |s|
  {
    if r != [] && s != [] {
      if r[0] == s[0] {
        SubsequenceMembers(r[1..], s[1..]);
        forall i | 0 < i < |r| ensures exists k :: 0 <= k < |s| && s[k] == r[i] {
          assert r[i] == r[1..][i - 1];
          var k :| 0 <= k < |s[1..]| && s[1..][k] == r[1..][i - 1];
          assert s[k + 1] == r[i];
        }
        assert s[0] == r[0];
      } else {
        SubsequenceMembers(r, s[1..]);
        forall i | 0 <= i < |r| ensures exists k :: 0 <= k < |s| && s[k] == r[i] {
          var k :| 0 <= k < |s[1..]| && s[1..][k] == r[i];
          assert s[k + 1] == r[i];
        }
      }
    }
  }
}
