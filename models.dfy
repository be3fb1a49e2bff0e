/**
  The Menu -> Submenu -> Dish entities of app/db/models.py: their stored rows,
  the eagerly loaded relationship shapes, the read shapes the services produce,
  and the create / update schemas with the validation they impose.
*/
module Models {
  import opened Wrappers

  /** The canonical text of a UUID (what `str(uuid)` yields): 36 characters,
      hyphens at positions 8, 13, 18 and 23, lower-case hex digits elsewhere. */
  predicate IsHexDigit(c: char) {
    '0' <= c <= '9' || 'a' <= c <= 'f'
  }

  predicate IsUuidText(s: string) {
    && |s| == 36
    && s[8] == '-' && s[13] == '-' && s[18] == '-' && s[23] == '-'
    && forall i | 0 <= i < 36 && i != 8 && i != 13 && i != 18 && i != 23 :: IsHexDigit(s[i])
  }

  /** Entity ids. Because an id is held as its canonical text, `str(item_id)`
      is the id itself. */
  type Uuid = s: string | IsUuidText(s) witness "00000000-0000-0000-0000-000000000000"

  /** A decimal price, kept as its decimal text (digits, an optional sign and
      at most one '.'); its arithmetic is not modelled. */
  datatype Price = Decimal(text: string)

  /** The number of digits after the decimal point of a decimal text: what
      the exponent of the parsed decimal says, 0 for a whole number. */
  function DecimalPlaces(text: string): (r: nat)
    ensures r <= |text|
    ensures '.' !in text ==> r == 0
    ensures |text| > 0 && text[|text| - 1] == '.' ==> r == 0
  {
    if text == [] then 0
    else if text[|text| - 1] == '.' then 0
    else
      var init := text[..|text| - 1];
      assert forall i | 0 <= i < |init| :: init[i] == text[i];
      if '.' in init then DecimalPlaces(init) + 1 else 0
  }

  /** A text `whole.frac` whose fraction holds no further point has exactly
      `|frac|` decimal places, whatever the whole part is. */
  lemma {:induction false} DecimalPlacesOfFraction(whole: string, frac: string)
    requires '.' !in frac
    ensures DecimalPlaces(whole + "." + frac) == |frac|
  {
    if frac != [] {
      var shorter := frac[..|frac| - 1];
      assert '.' !in shorter by {
        assert forall i | 0 <= i < |shorter| :: shorter[i] == frac[i];
      }
      DecimalPlacesOfFraction(whole, shorter);
      assert (whole + "." + frac)[..|whole + "." + frac| - 1] == whole + "." + shorter;
      assert '.' in whole + "." + shorter by {
        assert (whole + "." + shorter)[|whole|] == '.';
      }
    }
  }

  /** `condecimal(decimal_places=2)`: at most two digits after the point. */
  predicate TwoPlaces(p: Price) {
    DecimalPlaces(p.text) <= 2
  }

  /** The three entity kinds, one table each. */
  datatype Kind = MenuKind | SubmenuKind | DishKind

  // ---------------------------------------------------------------- rows

  datatype MenuRow = MenuRow(id: Uuid, title: string, description: string)

  /** `menu_id` is a non-null foreign key into the menu table. */
  datatype SubmenuRow = SubmenuRow(id: Uuid, title: string, description: string, menuId: Uuid)

  /** `submenu_id` is a non-null foreign key into the submenu table; the
      price column itself is nullable (`Field(default=None)`). */
  datatype DishRow = DishRow(id: Uuid, title: string, description: string, price: Option<Price>, submenuId: Uuid)

  // ------------------------------------------- eagerly loaded relationships

  /** A submenu together with its `dishes` relationship, as the selectin load
      delivers it. */
  datatype LoadedSubmenu = LoadedSubmenu(row: SubmenuRow, dishes: seq<DishRow>)

  /** A menu together with its `submenus`, each with its dishes. */
  datatype LoadedMenu = LoadedMenu(row: MenuRow, submenus: seq<LoadedSubmenu>)

  /** What the store hands to `process_db_data`: one entity of some kind. */
  datatype Entity =
    | MenuEntity(menu: LoadedMenu)
    | SubmenuEntity(submenu: LoadedSubmenu)
    | DishEntity(dish: DishRow)
  {
    function Id(): Uuid {
      match this
      case MenuEntity(m) => m.row.id
      case SubmenuEntity(s) => s.row.id
      case DishEntity(d) => d.id
    }

    function KindOf(): Kind {
      match this
      case MenuEntity(_) => MenuKind
      case SubmenuEntity(_) => SubmenuKind
      case DishEntity(_) => DishKind
    }
  }

  // ------------------------------------------------------------ read shapes

  /** The dictionaries `process_db_data` builds: the stored columns plus, for
      menus and submenus, the derived counts. */
  datatype Read =
    | MenuRead(id: Uuid, title: string, description: string, submenusCount: nat, dishesCount: nat)
    | SubmenuRead(id: Uuid, title: string, description: string, menuId: Uuid, dishesCount: nat)
    | DishRead(id: Uuid, title: string, description: string, price: Option<Price>, submenuId: Uuid)
  {
    /** The kind of entity the dictionary describes. */
    function KindOf(): Kind {
      match this
      case MenuRead(_, _, _, _, _) => MenuKind
      case SubmenuRead(_, _, _, _, _) => SubmenuKind
      case DishRead(_, _, _, _, _) => DishKind
    }
  }

  // ------------------------------------------------- create / update schemas

  /** A request body as received: every field may be absent. */
  datatype Payload = Payload(title: Option<string>, description: Option<string>, price: Option<Price>)

  /** A validated create schema. `price` is kept only for dishes. */
  datatype Fields = Fields(title: string, description: string, price: Option<Price>)

  /** A validated update schema: every field optional. */
  datatype Patch = Patch(title: Option<string>, description: Option<string>, price: Option<Price>)

  /** Why a payload is rejected (the 422 of the API): a required field is
      absent, or a price has more than two decimal places. */
  datatype ValidationError = MissingField(name: string) | TooManyDecimals(name: string)

  /** Validation of MenuCreate / SubmenuCreate / DishCreate: title and
      description are required for every kind; a dish also requires a price
      with at most two decimal places. A price sent for a menu or submenu is
      ignored, as an extra field is. */
  function ValidateCreate(kind: Kind, p: Payload): (r: Result<Fields, ValidationError>)
    ensures r.Ok? <==> p.title.Some? && p.description.Some? && (kind == DishKind ==> p.price.Some? && TwoPlaces(p.price.value))
    ensures r.Ok? ==> r.value.title == p.title.value && r.value.description == p.description.value
    ensures r.Ok? ==> r.value.price == (if kind == DishKind then p.price else None)
    ensures r.Err? ==> r.error.name in {"title", "description", "price"}
    ensures r.Err? && r.error.TooManyDecimals? ==> kind == DishKind && p.price.Some?
  {
    if p.title.None? then Err(MissingField("title"))
    else if p.description.None? then Err(MissingField("description"))
    else if kind == DishKind && p.price.None? then Err(MissingField("price"))
    else if kind == DishKind && !TwoPlaces(p.price.value) then Err(TooManyDecimals("price"))
    else Ok(Fields(p.title.value, p.description.value, if kind == DishKind then p.price else None))
  }

  /** Validation of MenuUpdate / SubmenuUpdate / DishUpdate: every field is
      optional, so omitting any of them is accepted; only a dish price with
      more than two decimal places is rejected. A price is kept only for
      dishes. */
  function ValidateUpdate(kind: Kind, p: Payload): (r: Result<Patch, ValidationError>)
    ensures r.Ok? <==> !(kind == DishKind && p.price.Some? && !TwoPlaces(p.price.value))
    ensures r.Ok? ==> r.value.title == p.title && r.value.description == p.description
    ensures r.Ok? ==> r.value.price == (if kind == DishKind then p.price else None)
    ensures r.Err? ==> r.error == TooManyDecimals("price")
  {
    if kind == DishKind && p.price.Some? && !TwoPlaces(p.price.value) then Err(TooManyDecimals("price"))
    else Ok(Patch(p.title, p.description, if kind == DishKind then p.price else None))
  }

  /** A patched value: the new one when the patch carries it, otherwise the old. */
  function Patched<T>(old_: T, given: Option<T>): (r: T)
    ensures given.Some? ==> r == given.value
    ensures given.None? ==> r == old_
  {
    if given.Some? then given.value else old_
  }

  function PatchMenu(m: MenuRow, p: Patch): (r: MenuRow)
    ensures r.id == m.id
    ensures r.title == Patched(m.title, p.title) && r.description == Patched(m.description, p.description)
  {
    m.(title := Patched(m.title, p.title), description := Patched(m.description, p.description))
  }

  function PatchSubmenu(s: SubmenuRow, p: Patch): (r: SubmenuRow)
    ensures r.id == s.id && r.menuId == s.menuId
    ensures r.title == Patched(s.title, p.title) && r.description == Patched(s.description, p.description)
  {
    s.(title := Patched(s.title, p.title), description := Patched(s.description, p.description))
  }

  function PatchDish(d: DishRow, p: Patch): (r: DishRow)
    ensures r.id == d.id && r.submenuId == d.submenuId
    ensures r.title == Patched(d.title, p.title) && r.description == Patched(d.description, p.description)
    ensures p.price.Some? ==> r.price == p.price
    ensures p.price.None? ==> r.price == d.price
  {
    d.(title := Patched(d.title, p.title), description := Patched(d.description, p.description),
       price := if p.price.Some? then p.price else d.price)
  }
}
