/**
  The relational store behind the services (the database adapter
  app/services/base_db_service.py is not part of this model, so the store is
  described abstractly): three tables in insertion order, foreign keys
  submenu.menu_id -> menu.id and dish.submenu_id -> submenu.id, and the
  cascade flags of app/db/models.py that make deleting a menu or a submenu
  delete its whole subtree.
*/
module Store {
  import opened Wrappers
  import opened Models

  datatype Db = Db(menus: seq<MenuRow>, submenus: seq<SubmenuRow>, dishes: seq<DishRow>)

  /** NotFound is the 404 of the API; a duplicate primary key or a missing
      parent row is rejected by the database's own constraints. */
  datatype StoreError = NotFound(kind: Kind) | DuplicateId(kind: Kind) | ParentMissing(kind: Kind)

  /** The database after a successful write, and the entity written. */
  datatype Written = Written(db: Db, entity: Entity)

  // ------------------------------------------------------ generic helpers

  /** The rows `keep` accepts, in store order. */
  function Select<R(!new)>(rows: seq<R>, keep: R -> bool): (r: seq<R>)
    ensures |r| <= |rows|
    ensures forall x :: x in r <==> x in rows && keep(x)
  {
    if rows == [] then []
    else
      var init, last := rows[..|rows| - 1], rows[|rows| - 1];
      assert rows == init + [last];
      Select(init, keep) + (if keep(last) then [last] else [])
  }

  /** The position of the first row whose key is `x`. */
  function IndexOf<R>(rows: seq<R>, key: R -> Uuid, x: Uuid): (r: Option<nat>)
    ensures r.Some? ==> r.value < |rows| && key(rows[r.value]) == x
    ensures r.None? <==> forall j | 0 <= j < |rows| :: key(rows[j]) != x
  {
    if rows == [] then None
    else if key(rows[0]) == x then Some(0)
    else
      var rest := IndexOf(rows[1..], key, x);
      assert forall j | 1 <= j < |rows| :: rows[j] == rows[1..][j - 1];
      if rest.Some? then Some(rest.value + 1) else None
  }

  ghost predicate UniqueKeys<R>(rows: seq<R>, key: R -> Uuid) {
    forall i, j | 0 <= i < j < |rows| :: key(rows[i]) != key(rows[j])
  }

  function MenuKeyOf(m: MenuRow): Uuid { m.id }
  function SubmenuKeyOf(s: SubmenuRow): Uuid { s.id }
  function DishKeyOf(d: DishRow): Uuid { d.id }

  function KeySet<R>(rows: seq<R>, key: R -> Uuid): set<Uuid> { set i | 0 <= i < |rows| :: key(rows[i]) }

  function MenuIds(db: Db): set<Uuid> { KeySet(db.menus, MenuKeyOf) }
  function SubmenuIds(db: Db): set<Uuid> { KeySet(db.submenus, SubmenuKeyOf) }
  function DishIds(db: Db): set<Uuid> { KeySet(db.dishes, DishKeyOf) }

  // ---------------------------------------------- referential integrity

  /** Primary keys are unique within each table, and every foreign key names
      an existing parent row. */
  ghost predicate Valid(db: Db) {
    && UniqueKeys(db.menus, MenuKeyOf)
    && UniqueKeys(db.submenus, SubmenuKeyOf)
    && UniqueKeys(db.dishes, DishKeyOf)
    && (forall s | s in db.submenus :: s.menuId in MenuIds(db))
    && (forall d | d in db.dishes :: d.submenuId in SubmenuIds(db))
  }

  /** No uuid is the primary key of rows in two tables. `Valid` does not
      demand it (each table has its own key); generated uuid4 ids make a clash
      improbable, not impossible. */
  ghost predicate DisjointIds(db: Db) {
    && MenuIds(db) !! SubmenuIds(db)
    && MenuIds(db) !! DishIds(db)
    && SubmenuIds(db) !! DishIds(db)
  }

  // ------------------------------------------------------- relationships

  function InMenu(menuId: Uuid): SubmenuRow -> bool { (s: SubmenuRow) => s.menuId == menuId }
  function InSubmenu(submenuId: Uuid): DishRow -> bool { (d: DishRow) => d.submenuId == submenuId }
  function OutsideMenu(menuId: Uuid): SubmenuRow -> bool { (s: SubmenuRow) => s.menuId != menuId }
  function OutsideSubmenu(submenuId: Uuid): DishRow -> bool { (d: DishRow) => d.submenuId != submenuId }

  /** `menu.submenus`: the submenus of a menu, in store order. */
  function SubmenusOf(db: Db, menuId: Uuid): seq<SubmenuRow> { Select(db.submenus, InMenu(menuId)) }

  /** `submenu.dishes`: the dishes of a submenu, in store order. */
  function DishesOf(db: Db, submenuId: Uuid): seq<DishRow> { Select(db.dishes, InSubmenu(submenuId)) }

  /** A submenu with its dishes loaded. */
  function LoadSubmenu(db: Db, s: SubmenuRow): (r: LoadedSubmenu)
    ensures r.row == s
    ensures forall d :: d in r.dishes <==> d in db.dishes && d.submenuId == s.id
  {
    LoadedSubmenu(s, DishesOf(db, s.id))
  }

  function LoadSubmenus(db: Db, ss: seq<SubmenuRow>): (r: seq<LoadedSubmenu>)
    ensures |r| == |ss|
    ensures forall i | 0 <= i < |ss| :: r[i] == LoadSubmenu(db, ss[i])
  {
    seq(|ss|, i requires 0 <= i < |ss| => LoadSubmenu(db, ss[i]))
  }

  /** A menu with its submenus, and their dishes, loaded (the selectin load). */
  function LoadMenu(db: Db, m: MenuRow): (r: LoadedMenu)
    ensures r.row == m
    ensures r.submenus == LoadSubmenus(db, SubmenusOf(db, m.id))
    ensures forall j | 0 <= j < |r.submenus| :: r.submenus[j].row in db.submenus && r.submenus[j].row.menuId == m.id
  {
    LoadedMenu(m, LoadSubmenus(db, SubmenusOf(db, m.id)))
  }

  // ---------------------------------------------------------- operations

  /** `list(**kwargs)`: every row of the kind's table, in store order,
      narrowed to one parent when the caller passes the parent's id. */
  function List(db: Db, kind: Kind, parent: Option<Uuid>): (r: seq<Entity>)
    ensures forall i | 0 <= i < |r| :: r[i].KindOf() == kind
    ensures kind == MenuKind ==>
      |r| == |db.menus| && forall i | 0 <= i < |r| :: r[i] == MenuEntity(LoadMenu(db, db.menus[i]))
    ensures kind == SubmenuKind ==>
      var ss := if parent.Some? then SubmenusOf(db, parent.value) else db.submenus;
      |r| == |ss| && forall i | 0 <= i < |r| :: r[i] == SubmenuEntity(LoadSubmenu(db, ss[i]))
    ensures kind == DishKind ==>
      var ds := if parent.Some? then DishesOf(db, parent.value) else db.dishes;
      |r| == |ds| && forall i | 0 <= i < |r| :: r[i] == DishEntity(ds[i])
  {
    match kind
    case MenuKind =>
      seq(|db.menus|, i requires 0 <= i < |db.menus| => MenuEntity(LoadMenu(db, db.menus[i])))
    case SubmenuKind =>
      var ss := if parent.Some? then SubmenusOf(db, parent.value) else db.submenus;
      seq(|ss|, i requires 0 <= i < |ss| => SubmenuEntity(LoadSubmenu(db, ss[i])))
    case DishKind =>
      var ds := if parent.Some? then DishesOf(db, parent.value) else db.dishes;
      seq(|ds|, i requires 0 <= i < |ds| => DishEntity(ds[i]))
  }

  /** `get(id)`: the loaded entity with that primary key, or NotFound. */
  function Get(db: Db, kind: Kind, id: Uuid): (r: Result<Entity, StoreError>)
    ensures r.Ok? ==> r.value.KindOf() == kind && r.value.Id() == id
    ensures r.Err? ==> r.error == NotFound(kind)
    ensures kind == MenuKind ==> (r.Ok? <==> id in MenuIds(db))
    ensures kind == SubmenuKind ==> (r.Ok? <==> id in SubmenuIds(db))
    ensures kind == DishKind ==> (r.Ok? <==> id in DishIds(db))
  {
    match kind
    case MenuKind =>
      var i := IndexOf(db.menus, MenuKeyOf, id);
      if i.None? then Err(NotFound(kind)) else Ok(MenuEntity(LoadMenu(db, db.menus[i.value])))
    case SubmenuKind =>
      var i := IndexOf(db.submenus, SubmenuKeyOf, id);
      if i.None? then Err(NotFound(kind)) else Ok(SubmenuEntity(LoadSubmenu(db, db.submenus[i.value])))
    case DishKind =>
      var i := IndexOf(db.dishes, DishKeyOf, id);
      if i.None? then Err(NotFound(kind)) else Ok(DishEntity(db.dishes[i.value]))
  }

  /** `create(fields, parent)`: appends a row with the generated id `id`. The
      primary key must be new and, for submenus and dishes, the parent row
      must exist (both columns are non-null foreign keys). */
  function Create(db: Db, kind: Kind, id: Uuid, f: Fields, parent: Option<Uuid>): (r: Result<Written, StoreError>)
    ensures r.Ok? ==> r.value.entity.KindOf() == kind && r.value.entity.Id() == id
    ensures kind == MenuKind ==> (r.Ok? <==> id !in MenuIds(db))
    ensures kind == SubmenuKind ==> (r.Ok? <==> id !in SubmenuIds(db) && parent.Some? && parent.value in MenuIds(db))
    ensures kind == DishKind ==> (r.Ok? <==> id !in DishIds(db) && parent.Some? && parent.value in SubmenuIds(db))
  {
    match kind
    case MenuKind =>
      if id in MenuIds(db) then Err(DuplicateId(kind))
      else
        var row := MenuRow(id, f.title, f.description);
        var db' := db.(menus := db.menus + [row]);
        Ok(Written(db', MenuEntity(LoadMenu(db', row))))
    case SubmenuKind =>
      if id in SubmenuIds(db) then Err(DuplicateId(kind))
      else if parent.None? || parent.value !in MenuIds(db) then Err(ParentMissing(kind))
      else
        var row := SubmenuRow(id, f.title, f.description, parent.value);
        var db' := db.(submenus := db.submenus + [row]);
        Ok(Written(db', SubmenuEntity(LoadSubmenu(db', row))))
    case DishKind =>
      if id in DishIds(db) then Err(DuplicateId(kind))
      else if parent.None? || parent.value !in SubmenuIds(db) then Err(ParentMissing(kind))
      else
        var row := DishRow(id, f.title, f.description, f.price, parent.value);
        var db' := db.(dishes := db.dishes + [row]);
        Ok(Written(db', DishEntity(row)))
  }

  /** `update(id, patch)`: replaces the row's present fields in place. */
  function Update(db: Db, kind: Kind, id: Uuid, p: Patch): (r: Result<Written, StoreError>)
    ensures r.Ok? ==> r.value.entity.KindOf() == kind && r.value.entity.Id() == id
    ensures r.Err? ==> r.error == NotFound(kind)
    ensures kind == MenuKind ==> (r.Ok? <==> id in MenuIds(db))
    ensures kind == SubmenuKind ==> (r.Ok? <==> id in SubmenuIds(db))
    ensures kind == DishKind ==> (r.Ok? <==> id in DishIds(db))
  {
    match kind
    case MenuKind =>
      var i := IndexOf(db.menus, MenuKeyOf, id);
      if i.None? then Err(NotFound(kind))
      else
        var row := PatchMenu(db.menus[i.value], p);
        var db' := db.(menus := db.menus[i.value := row]);
        Ok(Written(db', MenuEntity(LoadMenu(db', row))))
    case SubmenuKind =>
      var i := IndexOf(db.submenus, SubmenuKeyOf, id);
      if i.None? then Err(NotFound(kind))
      else
        var row := PatchSubmenu(db.submenus[i.value], p);
        var db' := db.(submenus := db.submenus[i.value := row]);
        Ok(Written(db', SubmenuEntity(LoadSubmenu(db', row))))
    case DishKind =>
      var i := IndexOf(db.dishes, DishKeyOf, id);
      if i.None? then Err(NotFound(kind))
      else
        var row := PatchDish(db.dishes[i.value], p);
        var db' := db.(dishes := db.dishes[i.value := row]);
        Ok(Written(db', DishEntity(row)))
  }

  function NotKey<R>(key: R -> Uuid, x: Uuid): R -> bool { (r: R) => key(r) != x }

  function SurvivesMenuDelete(doomed: set<Uuid>): DishRow -> bool { (d: DishRow) => d.submenuId !in doomed }

  /** The submenus a menu delete takes with it. */
  function DoomedSubmenus(db: Db, menuId: Uuid): set<Uuid> {
    set s | s in db.submenus && s.menuId == menuId :: s.id
  }

  /** `delete(id)`: NotFound for an absent id; otherwise the row goes, and with
      a menu all of its submenus and their dishes, with a submenu all of its
      dishes. */
  function Delete(db: Db, kind: Kind, id: Uuid): (r: Result<Db, StoreError>)
    ensures r.Err? ==> r.error == NotFound(kind)
    ensures kind == MenuKind ==> (r.Ok? <==> id in MenuIds(db))
    ensures kind == SubmenuKind ==> (r.Ok? <==> id in SubmenuIds(db))
    ensures kind == DishKind ==> (r.Ok? <==> id in DishIds(db))
  {
    match kind
    case MenuKind =>
      if id !in MenuIds(db) then Err(NotFound(kind))
      else
        var doomed := DoomedSubmenus(db, id);
        Ok(Db(Select(db.menus, NotKey(MenuKeyOf, id)),
              Select(db.submenus, OutsideMenu(id)),
              Select(db.dishes, SurvivesMenuDelete(doomed))))
    case SubmenuKind =>
      if id !in SubmenuIds(db) then Err(NotFound(kind))
      else Ok(db.(submenus := Select(db.submenus, NotKey(SubmenuKeyOf, id)),
                  dishes := Select(db.dishes, OutsideSubmenu(id))))
    case DishKind =>
      if id !in DishIds(db) then Err(NotFound(kind))
      else Ok(db.(dishes := Select(db.dishes, NotKey(DishKeyOf, id))))
  }

  // ------------------------------------------------------------- lemmas

  lemma {:induction false} SelectKeepsUnique<R(!new)>(rows: seq<R>, keep: R -> bool, key: R -> Uuid)
    requires UniqueKeys(rows, key)
    ensures UniqueKeys(Select(rows, keep), key)
  {
    if rows != [] {
      var init, last := rows[..|rows| - 1], rows[|rows| - 1];
      assert UniqueKeys(init, key);
      SelectKeepsUnique(init, keep, key);
      var front := Select(init, keep);
      if keep(last) {
        forall y | y in front ensures key(y) != key(last) {
          var k :| 0 <= k < |init| && init[k] == y;
          assert rows[k] == y;
        }
        var r := front + [last];
        forall i, j | 0 <= i < j < |r| ensures key(r[i]) != key(r[j]) {
          if j == |front| {
            assert r[i] in front;
          } else {
            assert r[i] == front[i] && r[j] == front[j];
          }
        }
      }
    }
  }

  /** A selection that accepts nothing is empty. */
  lemma SelectNothing<R(!new)>(rows: seq<R>, keep: R -> bool)
    requires forall x | x in rows :: !keep(x)
    ensures Select(rows, keep) == []
  {
  }

  /** With unique keys, the row found for a key is the row that has it. */
  lemma UniqueIndex<R>(rows: seq<R>, key: R -> Uuid, i: nat)
    requires UniqueKeys(rows, key) && i < |rows|
    ensures IndexOf(rows, key, key(rows[i])) == Some(i)
  {
  }

  /** Appending a row with a new key adds exactly that key and keeps keys unique. */
  lemma AppendKeys<R>(rows: seq<R>, x: R, key: R -> Uuid)
    ensures KeySet(rows + [x], key) == KeySet(rows, key) + {key(x)}
    ensures UniqueKeys(rows, key) && key(x) !in KeySet(rows, key) ==> UniqueKeys(rows + [x], key)
  {
    var rows' := rows + [x];
    assert forall k | 0 <= k < |rows| :: rows'[k] == rows[k];
    assert key(rows'[|rows|]) == key(x);
    forall y | y in KeySet(rows', key) ensures y in KeySet(rows, key) + {key(x)} {
      var k :| 0 <= k < |rows'| && key(rows'[k]) == y;
    }
    if UniqueKeys(rows, key) && key(x) !in KeySet(rows, key) {
      forall i, j | 0 <= i < j < |rows'| ensures key(rows'[i]) != key(rows'[j]) {
        if j == |rows| { assert key(rows[i]) in KeySet(rows, key); }
      }
    }
  }

  /** A successful create keeps every primary key unique and every foreign key
      pointing at an existing row. */
  lemma CreateKeepsValid(db: Db, kind: Kind, id: Uuid, f: Fields, parent: Option<Uuid>)
    requires Valid(db)
    requires Create(db, kind, id, f, parent).Ok?
    ensures Valid(Create(db, kind, id, f, parent).value.db)
  {
    var db' := Create(db, kind, id, f, parent).value.db;
    match kind
    case MenuKind =>
      AppendKeys(db.menus, MenuRow(id, f.title, f.description), MenuKeyOf);
    case SubmenuKind =>
      AppendKeys(db.submenus, SubmenuRow(id, f.title, f.description, parent.value), SubmenuKeyOf);
    case DishKind =>
      AppendKeys(db.dishes, DishRow(id, f.title, f.description, f.price, parent.value), DishKeyOf);
  }

  /** Replacing a row by one with the same key changes neither the key set
      nor the uniqueness of keys. */
  lemma ReplaceKeepsKeys<R(!new)>(rows: seq<R>, i: nat, x: R, key: R -> Uuid)
    requires i < |rows| && key(x) == key(rows[i])
    ensures UniqueKeys(rows, key) ==> UniqueKeys(rows[i := x], key)
    ensures KeySet(rows[i := x], key) == KeySet(rows, key)
  {
    var rows' := rows[i := x];
    assert forall k | 0 <= k < |rows| :: key(rows'[k]) == key(rows[k]);
    forall y | y in KeySet(rows, key) ensures y in KeySet(rows', key) {
      var k :| 0 <= k < |rows| && key(rows[k]) == y;
      assert key(rows'[k]) == y;
    }
    forall y | y in KeySet(rows', key) ensures y in KeySet(rows, key) {
      var k :| 0 <= k < |rows'| && key(rows'[k]) == y;
      assert key(rows[k]) == y;
    }
  }

  /** With unique keys, a selection that drops a row drops its key. */
  lemma SelectDropsKey<R(!new)>(rows: seq<R>, keep: R -> bool, key: R -> Uuid, y: R)
    requires UniqueKeys(rows, key) && y in rows && !keep(y)
    ensures key(y) !in KeySet(Select(rows, keep), key)
  {
    var sel := Select(rows, keep);
    var i :| 0 <= i < |rows| && rows[i] == y;
    forall k | 0 <= k < |sel| ensures key(sel[k]) != key(y) {
      assert sel[k] in sel;
      var j :| 0 <= j < |rows| && rows[j] == sel[k];
      assert i != j;
    }
  }

  /** A selection keeps the key of every row it keeps. */
  lemma SelectKeepsKey<R(!new)>(rows: seq<R>, keep: R -> bool, key: R -> Uuid, y: R)
    requires y in rows && keep(y)
    ensures key(y) in KeySet(Select(rows, keep), key)
  {
    var sel := Select(rows, keep);
    assert y in sel;
    var k :| 0 <= k < |sel| && sel[k] == y;
  }

  /** A successful update changes no primary or foreign key. */
  lemma UpdateKeepsValid(db: Db, kind: Kind, id: Uuid, p: Patch)
    requires Valid(db)
    requires Update(db, kind, id, p).Ok?
    ensures Valid(Update(db, kind, id, p).value.db)
  {
    match kind
    case MenuKind =>
      var i := IndexOf(db.menus, MenuKeyOf, id).value;
      MenuReplaceKeepsValid(db, i, PatchMenu(db.menus[i], p));
    case SubmenuKind =>
      var i := IndexOf(db.submenus, SubmenuKeyOf, id).value;
      SubmenuReplaceKeepsValid(db, i, PatchSubmenu(db.submenus[i], p));
    case DishKind =>
      var i := IndexOf(db.dishes, DishKeyOf, id).value;
      DishReplaceKeepsValid(db, i, PatchDish(db.dishes[i], p));
  }

  lemma MenuReplaceKeepsValid(db: Db, i: nat, row: MenuRow)
    requires Valid(db) && i < |db.menus| && row.id == db.menus[i].id
    ensures Valid(db.(menus := db.menus[i := row]))
  {
    ReplaceKeepsKeys(db.menus, i, row, MenuKeyOf);
  }

  lemma SubmenuReplaceKeepsValid(db: Db, i: nat, row: SubmenuRow)
    requires Valid(db) && i < |db.submenus| && row.id == db.submenus[i].id && row.menuId == db.submenus[i].menuId
    ensures Valid(db.(submenus := db.submenus[i := row]))
  {
    var submenus := db.submenus[i := row];
    ReplaceKeepsKeys(db.submenus, i, row, SubmenuKeyOf);
    forall s | s in submenus ensures s.menuId in MenuIds(db) {
      var k :| 0 <= k < |submenus| && submenus[k] == s;
      assert db.submenus[k] in db.submenus;
    }
  }

  lemma DishReplaceKeepsValid(db: Db, i: nat, row: DishRow)
    requires Valid(db) && i < |db.dishes| && row.id == db.dishes[i].id && row.submenuId == db.dishes[i].submenuId
    ensures Valid(db.(dishes := db.dishes[i := row]))
  {
    var dishes := db.dishes[i := row];
    ReplaceKeepsKeys(db.dishes, i, row, DishKeyOf);
    forall d | d in dishes ensures d.submenuId in SubmenuIds(db) {
      var k :| 0 <= k < |dishes| && dishes[k] == d;
      assert db.dishes[k] in db.dishes;
    }
  }

  /** A successful delete leaves no orphan: the cascade takes every row whose
      foreign key named a deleted row. */
  lemma DeleteKeepsValid(db: Db, kind: Kind, id: Uuid)
    requires Valid(db)
    requires Delete(db, kind, id).Ok?
    ensures Valid(Delete(db, kind, id).value)
  {
    match kind
    case MenuKind => MenuDeleteKeepsValid(db, id);
    case SubmenuKind => SubmenuDeleteKeepsValid(db, id);
    case DishKind => SelectKeepsUnique(db.dishes, NotKey(DishKeyOf, id), DishKeyOf);
  }

  lemma MenuDeleteKeepsValid(db: Db, id: Uuid)
    requires Valid(db)
    requires id in MenuIds(db)
    ensures Valid(Delete(db, MenuKind, id).value)
  {
    var menus := Select(db.menus, NotKey(MenuKeyOf, id));
    var submenus := Select(db.submenus, OutsideMenu(id));
    var dishes := Select(db.dishes, SurvivesMenuDelete(DoomedSubmenus(db, id)));
    assert Delete(db, MenuKind, id).value == Db(menus, submenus, dishes);
    SelectKeepsUnique(db.menus, NotKey(MenuKeyOf, id), MenuKeyOf);
    SelectKeepsUnique(db.submenus, OutsideMenu(id), SubmenuKeyOf);
    SelectKeepsUnique(db.dishes, SurvivesMenuDelete(DoomedSubmenus(db, id)), DishKeyOf);
    forall s | s in submenus ensures s.menuId in KeySet(menus, MenuKeyOf) {
      var k :| 0 <= k < |db.menus| && db.menus[k].id == s.menuId;
      SelectKeepsKey(db.menus, NotKey(MenuKeyOf, id), MenuKeyOf, db.menus[k]);
    }
    forall d | d in dishes ensures d.submenuId in KeySet(submenus, SubmenuKeyOf) {
      var k :| 0 <= k < |db.submenus| && db.submenus[k].id == d.submenuId;
      SelectKeepsKey(db.submenus, OutsideMenu(id), SubmenuKeyOf, db.submenus[k]);
    }
  }

  lemma SubmenuDeleteKeepsValid(db: Db, id: Uuid)
    requires Valid(db)
    requires id in SubmenuIds(db)
    ensures Valid(Delete(db, SubmenuKind, id).value)
  {
    var submenus := Select(db.submenus, NotKey(SubmenuKeyOf, id));
    var dishes := Select(db.dishes, OutsideSubmenu(id));
    assert Delete(db, SubmenuKind, id).value == db.(submenus := submenus, dishes := dishes);
    SelectKeepsUnique(db.submenus, NotKey(SubmenuKeyOf, id), SubmenuKeyOf);
    SelectKeepsUnique(db.dishes, OutsideSubmenu(id), DishKeyOf);
    forall d | d in dishes ensures d.submenuId in KeySet(submenus, SubmenuKeyOf) {
      var k :| 0 <= k < |db.submenus| && db.submenus[k].id == d.submenuId;
      SelectKeepsKey(db.submenus, NotKey(SubmenuKeyOf, id), SubmenuKeyOf, db.submenus[k]);
    }
  }

  /** Deleting a menu removes the menu, every submenu under it and every dish
      under those submenus, and nothing else: afterwards no submenu names the
      menu and none of those rows can be fetched. */
  lemma MenuDeleteCascades(db: Db, id: Uuid)
    requires Valid(db)
    requires Delete(db, MenuKind, id).Ok?
    ensures var db' := Delete(db, MenuKind, id).value;
      && id !in MenuIds(db')
      && SubmenusOf(db', id) == []
      && (forall s | s in db.submenus && s.menuId == id :: s.id !in SubmenuIds(db') && DishesOf(db', s.id) == [])
      && (forall d | d in db.dishes && d.submenuId in DoomedSubmenus(db, id) :: d.id !in DishIds(db'))
      && (forall m :: m in db'.menus <==> m in db.menus && m.id != id)
      && (forall s :: s in db'.submenus <==> s in db.submenus && s.menuId != id)
      && (forall d :: d in db'.dishes <==> d in db.dishes && d.submenuId !in DoomedSubmenus(db, id))
  {
    var db' := Delete(db, MenuKind, id).value;
    var doomed := DoomedSubmenus(db, id);
    SelectNothing(db'.submenus, InMenu(id));
    forall s | s in db.submenus && s.menuId == id
      ensures s.id !in SubmenuIds(db') && DishesOf(db', s.id) == []
    {
      SelectDropsKey(db.submenus, OutsideMenu(id), SubmenuKeyOf, s);
      assert s.id in doomed;
      SelectNothing(db'.dishes, InSubmenu(s.id));
    }
    forall d | d in db.dishes && d.submenuId in doomed
      ensures d.id !in DishIds(db')
    {
      SelectDropsKey(db.dishes, SurvivesMenuDelete(doomed), DishKeyOf, d);
    }
    forall k | 0 <= k < |db'.menus| ensures db'.menus[k].id != id {
      assert db'.menus[k] in db'.menus;
    }
  }

  /** Deleting a submenu removes it and every dish under it, and nothing else. */
  lemma SubmenuDeleteCascades(db: Db, id: Uuid)
    requires Valid(db)
    requires Delete(db, SubmenuKind, id).Ok?
    ensures var db' := Delete(db, SubmenuKind, id).value;
      && id !in SubmenuIds(db')
      && DishesOf(db', id) == []
      && (forall d | d in db.dishes && d.submenuId == id :: d.id !in DishIds(db'))
      && db'.menus == db.menus
      && (forall s :: s in db'.submenus <==> s in db.submenus && s.id != id)
      && (forall d :: d in db'.dishes <==> d in db.dishes && d.submenuId != id)
  {
    var db' := Delete(db, SubmenuKind, id).value;
    SelectNothing(db'.dishes, InSubmenu(id));
    forall d | d in db.dishes && d.submenuId == id
      ensures d.id !in DishIds(db')
    {
      SelectDropsKey(db.dishes, OutsideSubmenu(id), DishKeyOf, d);
    }
    forall k | 0 <= k < |db'.submenus| ensures db'.submenus[k].id != id {
      assert db'.submenus[k] in db'.submenus;
    }
  }

  // ------------------------------------------- rows that a write leaves be

  /** Selection distributes over concatenation. */
  lemma {:induction false} SelectAppend<R(!new)>(a: seq<R>, b: seq<R>, keep: R -> bool)
    ensures Select(a + b, keep) == Select(a, keep) + Select(b, keep)
  {
    if b == [] {
      assert a + b == a;
    } else {
      var init, last := b[..|b| - 1], b[|b| - 1];
      assert (a + b)[..|a + b| - 1] == a + init;
      assert (a + b)[|a + b| - 1] == last;
      SelectAppend(a, init, keep);
    }
  }

  /** Appending a row leaves where every key already present is found, and
      that no other key but the new row's is found. */
  lemma {:induction false} IndexOfAppend<R>(rows: seq<R>, x: R, key: R -> Uuid, y: Uuid)
    requires IndexOf(rows, key, y).Some? || key(x) != y
    ensures IndexOf(rows + [x], key, y) == IndexOf(rows, key, y)
  {
    if rows != [] && key(rows[0]) != y {
      assert (rows + [x])[1..] == rows[1..] + [x];
      IndexOfAppend(rows[1..], x, key, y);
    }
  }

  /** A row appended with a new key is found at the end. */
  lemma IndexOfNew<R>(rows: seq<R>, x: R, key: R -> Uuid)
    requires key(x) !in KeySet(rows, key)
    ensures IndexOf(rows + [x], key, key(x)) == Some(|rows|)
  {
    var rows' := rows + [x];
    forall k | 0 <= k < |rows| ensures key(rows'[k]) != key(x) {
      assert rows'[k] == rows[k];
      assert key(rows[k]) in KeySet(rows, key);
    }
    assert key(rows'[|rows|]) == key(x);
  }

  /** Appending one row extends the selection by that row if it is kept. */
  lemma SelectAppendOne<R(!new)>(rows: seq<R>, x: R, keep: R -> bool)
    ensures Select(rows + [x], keep) == Select(rows, keep) + (if keep(x) then [x] else [])
  {
    assert (rows + [x])[..|rows|] == rows;
  }

  /** Replacing a row by one with the same key leaves where every key is found. */
  lemma {:induction false} IndexOfReplace<R>(rows: seq<R>, j: nat, x: R, key: R -> Uuid, y: Uuid)
    requires j < |rows| && key(x) == key(rows[j])
    ensures IndexOf(rows[j := x], key, y) == IndexOf(rows, key, y)
  {
    if key(rows[0]) != y && j > 0 {
      assert rows[j := x][1..] == rows[1..][j - 1 := x];
      IndexOfReplace(rows[1..], j - 1, x, key, y);
    }
  }

  /** The keys of the rows, in order. */
  function KeysOf<R>(rows: seq<R>, g: R -> Uuid): (r: seq<Uuid>)
    ensures |r| == |rows|
    ensures forall i | 0 <= i < |rows| :: r[i] == g(rows[i])
  {
    seq(|rows|, i requires 0 <= i < |rows| => g(rows[i]))
  }

  lemma KeysOfAppend<R>(a: seq<R>, b: seq<R>, g: R -> Uuid)
    ensures KeysOf(a + b, g) == KeysOf(a, g) + KeysOf(b, g)
  {
    assert forall i | 0 <= i < |a| :: (a + b)[i] == a[i];
    assert forall i | |a| <= i < |a + b| :: (a + b)[i] == b[i - |a|];
  }

  /** Replacing a row by one that `keep` treats alike and that has the same
      key under `g` leaves the keys of the selection as they were. */
  lemma {:induction false} SelectReplace<R(!new)>(rows: seq<R>, j: nat, x: R, keep: R -> bool, g: R -> Uuid)
    requires j < |rows| && keep(x) == keep(rows[j]) && g(x) == g(rows[j])
    ensures KeysOf(Select(rows[j := x], keep), g) == KeysOf(Select(rows, keep), g)
  {
    var init, last := rows[..|rows| - 1], rows[|rows| - 1];
    var rows' := rows[j := x];
    assert rows == init + [last];
    var tail := if keep(last) then [last] else [];
    KeysOfAppend(Select(init, keep), tail, g);
    if j == |rows| - 1 {
      assert rows'[..|rows'| - 1] == init;
      var tail' := if keep(x) then [x] else [];
      KeysOfAppend(Select(init, keep), tail', g);
    } else {
      assert rows'[..|rows'| - 1] == init[j := x];
      assert rows'[|rows'| - 1] == last;
      SelectReplace(init, j, x, keep, g);
      KeysOfAppend(Select(init[j := x], keep), tail, g);
    }
  }

  /** Filtering twice is filtering once by the narrower test. */
  lemma {:induction false} SelectSelect<R(!new)>(rows: seq<R>, wide: R -> bool, narrow: R -> bool)
    requires forall x | x in rows && narrow(x) :: wide(x)
    ensures Select(Select(rows, wide), narrow) == Select(rows, narrow)
  {
    if rows != [] {
      var init, last := rows[..|rows| - 1], rows[|rows| - 1];
      assert rows == init + [last];
      assert forall x | x in init :: x in rows;
      SelectSelect(init, wide, narrow);
      var tail := if wide(last) then [last] else [];
      SelectAppend(Select(init, wide), tail, narrow);
      if wide(last) {
        assert Select(tail, narrow) == Select([] + [last], narrow);
        SelectAppendOne([], last, narrow);
      }
    }
  }

  /** With unique keys, a selection finds a key exactly when the table does
      and the row found is kept, and then it finds the same row. */
  lemma SelectFind<R(!new)>(rows: seq<R>, keep: R -> bool, key: R -> Uuid, y: Uuid)
    requires UniqueKeys(rows, key)
    ensures var (i, i') := (IndexOf(rows, key, y), IndexOf(Select(rows, keep), key, y));
      && (i'.Some? <==> i.Some? && keep(rows[i.value]))
      && (i'.Some? ==> Select(rows, keep)[i'.value] == rows[i.value])
  {
    var sel := Select(rows, keep);
    var i := IndexOf(rows, key, y);
    forall k | 0 <= k < |sel| ensures key(sel[k]) == y ==> i.Some? && sel[k] == rows[i.value] {
      assert sel[k] in sel;
      var j :| 0 <= j < |rows| && rows[j] == sel[k];
    }
    if i.Some? && keep(rows[i.value]) {
      assert rows[i.value] in sel;
      var k :| 0 <= k < |sel| && sel[k] == rows[i.value];
    }
  }

  /** With unique keys, two different rows have different keys. */
  lemma UniqueKeysDistinct<R>(rows: seq<R>, key: R -> Uuid, a: R, b: R)
    requires UniqueKeys(rows, key) && a in rows && b in rows
    ensures a != b ==> key(a) != key(b)
  {
    var i :| 0 <= i < |rows| && rows[i] == a;
    var j :| 0 <= j < |rows| && rows[j] == b;
  }

  /** The set of rows of a table whose keys are unique has one element per
      row. */
  lemma {:induction false} UniqueKeysCard<R>(rows: seq<R>, key: R -> Uuid)
    requires UniqueKeys(rows, key)
    ensures |set x | x in rows| == |rows|
  {
    if rows != [] {
      var init, last := rows[..|rows| - 1], rows[|rows| - 1];
      UniqueKeysCard(init, key);
      assert last !in init by {
        forall k | 0 <= k < |init| ensures init[k] != last {
          assert key(rows[k]) != key(last);
        }
      }
      assert rows == init + [last];
      assert (set x | x in rows) == (set x | x in init) + {last};
    }
  }

  /** With unique keys no row repeats, so a selection is as long as the set of
      rows it accepts. */
  lemma SelectCountsRows<R(!new)>(rows: seq<R>, keep: R -> bool, key: R -> Uuid, accepted: set<R>)
    requires UniqueKeys(rows, key)
    requires forall x :: x in accepted <==> x in rows && keep(x)
    ensures |Select(rows, keep)| == |accepted|
  {
    SelectKeepsUnique(rows, keep, key);
    UniqueKeysCard(Select(rows, keep), key);
    assert (set x | x in Select(rows, keep)) == accepted;
  }

  /** `len(menu.submenus)` counts the submenu rows naming the menu. */
  lemma SubmenusOfCount(db: Db, menuId: Uuid)
    requires UniqueKeys(db.submenus, SubmenuKeyOf)
    ensures |SubmenusOf(db, menuId)| == |set s | s in db.submenus && s.menuId == menuId|
  {
    SelectCountsRows(db.submenus, InMenu(menuId), SubmenuKeyOf, set s | s in db.submenus && s.menuId == menuId);
  }

  /** `len(submenu.dishes)` counts the dish rows naming the submenu. */
  lemma DishesOfCount(db: Db, submenuId: Uuid)
    requires UniqueKeys(db.dishes, DishKeyOf)
    ensures |DishesOf(db, submenuId)| == |set d | d in db.dishes && d.submenuId == submenuId|
  {
    SelectCountsRows(db.dishes, InSubmenu(submenuId), DishKeyOf, set d | d in db.dishes && d.submenuId == submenuId);
  }

  /** A listing narrowed to a menu holds exactly that menu's submenus, each
      loaded with its dishes. */
  lemma ListSubmenusOfMenu(db: Db, menuId: Uuid, s: SubmenuRow)
    ensures SubmenuEntity(LoadSubmenu(db, s)) in List(db, SubmenuKind, Some(menuId))
      <==> s in db.submenus && s.menuId == menuId
  {
    var r, ss := List(db, SubmenuKind, Some(menuId)), SubmenusOf(db, menuId);
    if s in ss {
      var i :| 0 <= i < |ss| && ss[i] == s;
      assert r[i] == SubmenuEntity(LoadSubmenu(db, s));
    }
    if SubmenuEntity(LoadSubmenu(db, s)) in r {
      var i :| 0 <= i < |r| && r[i] == SubmenuEntity(LoadSubmenu(db, s));
      assert LoadSubmenu(db, ss[i]).row == s;
    }
  }

  /** A listing narrowed to a submenu holds exactly that submenu's dishes. */
  lemma ListDishesOfSubmenu(db: Db, submenuId: Uuid, d: DishRow)
    ensures DishEntity(d) in List(db, DishKind, Some(submenuId))
      <==> d in db.dishes && d.submenuId == submenuId
  {
    var r, ds := List(db, DishKind, Some(submenuId)), DishesOf(db, submenuId);
    if d in ds {
      var i :| 0 <= i < |ds| && ds[i] == d;
      assert r[i] == DishEntity(d);
    }
    if DishEntity(d) in r {
      var i :| 0 <= i < |r| && r[i] == DishEntity(d);
      assert ds[i] == d;
    }
  }
}
