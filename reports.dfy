/**
  `get_menus_report_data` of app/services/reports.py: the stored menus, in
  store order, each with its submenus and their dishes, flattened into plain
  title / description (/ price) records for the spreadsheet task.
*/
module Reports {
  import opened Wrappers
  import opened Models
  import opened Store
  import opened EntityServices

  datatype DishReport = DishReport(title: string, description: string, price: string)
  datatype SubmenuReport = SubmenuReport(title: string, description: string, dishes: seq<DishReport>)
  datatype MenuReport = MenuReport(title: string, description: string, submenus: seq<SubmenuReport>)

  /** `str(dish.price)`: the decimal's text, or "None" for a dish stored
      without a price. */
  function PriceText(p: Option<Price>): (r: string)
    ensures p.Some? ==> r == p.value.text
    ensures p.None? ==> r == "None"
  {
    match p
    case None => "None"
    case Some(d) => d.text
  }

  function DishEntry(d: DishRow): DishReport {
    DishReport(d.title, d.description, PriceText(d.price))
  }

  function SubmenuEntry(s: LoadedSubmenu): (r: SubmenuReport)
    ensures r.title == s.row.title && r.description == s.row.description
    ensures |r.dishes| == |s.dishes|
    ensures forall k | 0 <= k < |s.dishes| ::
      && r.dishes[k].title == s.dishes[k].title
      && r.dishes[k].description == s.dishes[k].description
      && r.dishes[k].price == PriceText(s.dishes[k].price)
  {
    SubmenuReport(s.row.title, s.row.description,
      seq(|s.dishes|, k requires 0 <= k < |s.dishes| => DishEntry(s.dishes[k])))
  }

  function MenuEntry(m: LoadedMenu): (r: MenuReport)
    ensures r.title == m.row.title && r.description == m.row.description
    ensures |r.submenus| == |m.submenus|
    ensures forall j | 0 <= j < |m.submenus| :: r.submenus[j] == SubmenuEntry(m.submenus[j])
  {
    MenuReport(m.row.title, m.row.description,
      seq(|m.submenus|, j requires 0 <= j < |m.submenus| => SubmenuEntry(m.submenus[j])))
  }

  /** The nested comprehension over already loaded menus. */
  function ReportData(ms: seq<LoadedMenu>): (r: seq<MenuReport>)
    ensures |r| == |ms|
    ensures forall i | 0 <= i < |ms| :: r[i] == MenuEntry(ms[i])
  {
    seq(|ms|, i requires 0 <= i < |ms| => MenuEntry(ms[i]))
  }

  /** The store's menu list, loaded with submenus and dishes. */
  function LoadedMenus(db: Db): (r: seq<LoadedMenu>)
    ensures |r| == |db.menus|
    ensures forall i | 0 <= i < |db.menus| :: r[i] == LoadMenu(db, db.menus[i])
  {
    seq(|db.menus|, i requires 0 <= i < |db.menus| => LoadMenu(db, db.menus[i]))
  }

  /** The report reads the same loaded menus as the menu service's `list`,
      position by position. */
  lemma LoadedMenusAreListed(db: Db)
    ensures var listed := Store.List(db, MenuKind, None);
      |listed| == |LoadedMenus(db)| && forall i | 0 <= i < |listed| :: listed[i] == MenuEntity(LoadedMenus(db)[i])
  {
  }

  /** `get_menus_report_data`: one record per stored menu in store-list order;
      each record's submenus are the menu's submenus in store order, each
      with its dishes in store order. */
  function GetMenusReportData(db: Db): (r: seq<MenuReport>)
    ensures |r| == |db.menus|
    ensures forall i | 0 <= i < |db.menus| ::
      && r[i].title == db.menus[i].title
      && r[i].description == db.menus[i].description
      && |r[i].submenus| == |SubmenusOf(db, db.menus[i].id)|
    ensures forall i, j | 0 <= i < |db.menus| && 0 <= j < |r[i].submenus| ::
      var s := SubmenusOf(db, db.menus[i].id)[j];
      && r[i].submenus[j].title == s.title
      && r[i].submenus[j].description == s.description
      && |r[i].submenus[j].dishes| == |DishesOf(db, s.id)|
    ensures forall i, j, k | 0 <= i < |db.menus| && 0 <= j < |r[i].submenus| && 0 <= k < |r[i].submenus[j].dishes| ::
      var d := DishesOf(db, SubmenusOf(db, db.menus[i].id)[j].id)[k];
      r[i].submenus[j].dishes[k] == DishReport(d.title, d.description, PriceText(d.price))
  {
    ReportData(LoadedMenus(db))
  }

  // ------------------------------------------------------------- counting

  function SubmenuDishRecords(ss: seq<SubmenuReport>): nat {
    if ss == [] then 0 else |ss[0].dishes| + SubmenuDishRecords(ss[1..])
  }

  /** The number of dish records in a report. */
  function DishRecords(r: seq<MenuReport>): nat {
    if r == [] then 0 else SubmenuDishRecords(r[0].submenus) + DishRecords(r[1..])
  }

  /** The sum of the menus' projected `dishes_count`s. */
  function TotalDishesCount(ms: seq<LoadedMenu>): nat {
    if ms == [] then 0 else ProjectMenu(ms[0]).dishesCount + TotalDishesCount(ms[1..])
  }

  lemma {:induction false} SubmenuRecordsCountDishes(ss: seq<LoadedSubmenu>, rs: seq<SubmenuReport>)
    requires |rs| == |ss|
    requires forall j | 0 <= j < |ss| :: rs[j] == SubmenuEntry(ss[j])
    ensures SubmenuDishRecords(rs) == DishesTotal(ss)
  {
    if ss != [] {
      SubmenuRecordsCountDishes(ss[1..], rs[1..]);
    }
  }

  /** A menu record holds exactly as many submenu records as the menu's
      `submenus_count` and as many dish records as its `dishes_count`. */
  lemma MenuEntryAgreesWithProjection(m: LoadedMenu)
    ensures |MenuEntry(m).submenus| == ProjectMenu(m).submenusCount
    ensures SubmenuDishRecords(MenuEntry(m).submenus) == ProjectMenu(m).dishesCount
  {
    SubmenuRecordsCountDishes(m.submenus, MenuEntry(m).submenus);
    DishesTotalCountsAllDishes(m.submenus);
  }

  /** The report holds as many dish records as all menus' `dishes_count`s
      together. */
  lemma {:induction false} ReportCountsAllDishes(ms: seq<LoadedMenu>)
    ensures DishRecords(ReportData(ms)) == TotalDishesCount(ms)
  {
    if ms != [] {
      var r := ReportData(ms);
      assert r[1..] == ReportData(ms[1..]);
      MenuEntryAgreesWithProjection(ms[0]);
      ReportCountsAllDishes(ms[1..]);
    }
  }
}
