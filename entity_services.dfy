/**
  The per-entity configuration of the CRUD service: the `process_db_data`
  projections of app/services/menu.py and app/services/submenu.py (the dish
  service keeps the default one of app/services/base_crud_service.py) and
  the fixed cache key under which each service caches "the list of all items".
*/
module EntityServices {
  import opened Models

  // --------------------------------------------------------------- counts

  /** `sum([len(submenu.dishes) for submenu in menu.submenus])`. */
  function DishesTotal(ss: seq<LoadedSubmenu>): nat {
    if ss == [] then 0 else |ss[0].dishes| + DishesTotal(ss[1..])
  }

  /** Every dish of the given submenus, submenu by submenu. */
  function AllDishes(ss: seq<LoadedSubmenu>): seq<DishRow> {
    if ss == [] then [] else ss[0].dishes + AllDishes(ss[1..])
  }

  /** The summed lengths are the number of dishes under the submenus. */
  lemma {:induction false} DishesTotalCountsAllDishes(ss: seq<LoadedSubmenu>)
    ensures DishesTotal(ss) == |AllDishes(ss)|
  {
    if ss != [] {
      DishesTotalCountsAllDishes(ss[1..]);
    }
  }

  lemma {:induction false} DishesTotalAppend(a: seq<LoadedSubmenu>, b: seq<LoadedSubmenu>)
    ensures DishesTotal(a + b) == DishesTotal(a) + DishesTotal(b)
  {
    if a == [] {
      assert a + b == b;
    } else {
      assert (a + b)[1..] == a[1..] + b;
      DishesTotalAppend(a[1..], b);
    }
  }

  /** Replacing one submenu changes the total by the change in that submenu's
      own dish count, and by nothing the other submenus hold. */
  lemma {:induction false} DishesTotalReplace(ss: seq<LoadedSubmenu>, k: nat, s: LoadedSubmenu)
    requires k < |ss|
    ensures DishesTotal(ss[k := s]) + |ss[k].dishes| == DishesTotal(ss) + |s.dishes|
  {
    if k > 0 {
      assert ss[k := s][1..] == ss[1..][k - 1 := s];
      DishesTotalReplace(ss[1..], k - 1, s);
    }
  }

  /** Submenus with the same dish counts, one for one, give the same total. */
  lemma {:induction false} DishesTotalPointwise(a: seq<LoadedSubmenu>, b: seq<LoadedSubmenu>)
    requires |a| == |b|
    requires forall i | 0 <= i < |a| :: |a[i].dishes| == |b[i].dishes|
    ensures DishesTotal(a) == DishesTotal(b)
  {
    if a != [] {
      DishesTotalPointwise(a[1..], b[1..]);
    }
  }

  // ---------------------------------------------------------- projections

  /** `MenuCRUDService.process_db_data`: the stored columns, the number of
      submenus and the number of dishes under them. */
  function ProjectMenu(m: LoadedMenu): (r: Read)
    ensures r == MenuRead(m.row.id, m.row.title, m.row.description, |m.submenus|, |AllDishes(m.submenus)|)
  {
    DishesTotalCountsAllDishes(m.submenus);
    MenuRead(m.row.id, m.row.title, m.row.description, |m.submenus|, DishesTotal(m.submenus))
  }

  /** `SubmenuCRUDService.process_db_data`: the stored columns and the number
      of the submenu's own dishes. */
  function ProjectSubmenu(s: LoadedSubmenu): (r: Read)
    ensures r.SubmenuRead? && r.id == s.row.id && r.menuId == s.row.menuId
    ensures r.title == s.row.title && r.description == s.row.description
    ensures r.dishesCount == |s.dishes|
  {
    SubmenuRead(s.row.id, s.row.title, s.row.description, s.row.menuId, |s.dishes|)
  }

  /** The default `process_db_data`, used for dishes: the stored columns. */
  function ProjectDish(d: DishRow): (r: Read)
    ensures r.DishRead? && r.id == d.id && r.submenuId == d.submenuId
    ensures r.title == d.title && r.description == d.description && r.price == d.price
  {
    DishRead(d.id, d.title, d.description, d.price, d.submenuId)
  }

  /** `process_db_data` of the service for the entity's kind. */
  function Project(e: Entity): (r: Read)
    ensures r.id == e.Id()
    ensures e.MenuEntity? <==> r.MenuRead?
    ensures e.SubmenuEntity? <==> r.SubmenuRead?
  {
    match e
    case MenuEntity(m) => ProjectMenu(m)
    case SubmenuEntity(s) => ProjectSubmenu(s)
    case DishEntity(d) => ProjectDish(d)
  }

  /** `[self.process_db_data(item) for item in obj_list]`. */
  function ProjectAll(es: seq<Entity>): (r: seq<Read>)
    ensures |r| == |es|
    ensures forall i | 0 <= i < |es| :: r[i] == Project(es[i])
  {
    seq(|es|, i requires 0 <= i < |es| => Project(es[i]))
  }

  /** Adding one dish to any submenu of a menu raises the menu's
      `dishes_count` by exactly one and leaves every other field as it was. */
  lemma AddDishRaisesMenuCount(m: LoadedMenu, k: nat, d: DishRow)
    requires k < |m.submenus|
    ensures var s := m.submenus[k];
      var m' := m.(submenus := m.submenus[k := s.(dishes := s.dishes + [d])]);
      && ProjectMenu(m').dishesCount == ProjectMenu(m).dishesCount + 1
      && ProjectMenu(m').submenusCount == ProjectMenu(m).submenusCount
      && ProjectMenu(m').id == ProjectMenu(m).id
      && ProjectMenu(m').title == ProjectMenu(m).title
      && ProjectMenu(m').description == ProjectMenu(m).description
  {
    var s := m.submenus[k];
    DishesTotalReplace(m.submenus, k, s.(dishes := s.dishes + [d]));
    DishesTotalCountsAllDishes(m.submenus);
    DishesTotalCountsAllDishes(m.submenus[k := s.(dishes := s.dishes + [d])]);
  }

  /** A menu's `dishes_count` is the sum of the `dishes_count`s its submenus
      project to. */
  lemma {:induction false} MenuCountIsSumOfSubmenuCounts(m: LoadedMenu)
    ensures ProjectMenu(m).dishesCount == SumSubmenuCounts(m.submenus)
  {
    SumOfCountsIsTotal(m.submenus);
    DishesTotalCountsAllDishes(m.submenus);
  }

  function SumSubmenuCounts(ss: seq<LoadedSubmenu>): nat {
    if ss == [] then 0 else ProjectSubmenu(ss[0]).dishesCount + SumSubmenuCounts(ss[1..])
  }

  lemma {:induction false} SumOfCountsIsTotal(ss: seq<LoadedSubmenu>)
    ensures SumSubmenuCounts(ss) == DishesTotal(ss)
  {
    if ss != [] {
      SumOfCountsIsTotal(ss[1..]);
    }
  }

  // ------------------------------------------------------------ list keys

  /** The `items_cache_list` each service is configured with. */
  function ListKey(kind: Kind): (r: string)
    ensures !IsUuidText(r)
  {
    match kind
    case MenuKind => "menus_list"
    case SubmenuKind => "submenus_list"
    case DishKind => "dishes_list"
  }

  /** The three list keys are distinct, and none of them can be an item key. */
  lemma ListKeysDistinct(a: Kind, b: Kind, id: Uuid)
    ensures ListKey(a) == ListKey(b) ==> a == b
    ensures ListKey(a) != id
  {
  }
}
