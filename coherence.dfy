/**
  When the entries of the shared cache agree with the store. An item entry is
  fresh when a `get` that went to the store now would compute the same
  dictionary; the cache is coherent when every item entry is fresh. List
  entries are left unconstrained: their key ignores the filter they were built
  with, so no write could keep them exact.

  The lemmas follow the write operations of app/services/base_crud_service.py:
  which writes keep the cache coherent with the keys they delete, and which do
  not.
*/
module Coherence {
  import opened Wrappers
  import opened Models
  import opened Store
  import opened EntityServices
  import opened CacheService
  import opened CrudService

  /** The dictionary a store read of `id` would produce now, if the row exists. */
  function Current(db: Db, kind: Kind, id: Uuid): (r: Option<Read>)
    ensures r.Some? <==> Get(db, kind, id).Ok?
    ensures r.Some? ==> r.value.id == id && r.value.KindOf() == kind
  {
    match Get(db, kind, id)
    case Ok(e) =>
      assert e.KindOf() == kind;
      Some(Project(e))
    case Err(_) => None
  }

  ghost predicate FreshEntry(db: Db, key: string, v: Value) {
    v.One? ==> key == v.item.id && Current(db, v.item.KindOf(), v.item.id) == Some(v.item)
  }

  ghost predicate Coherent(db: Db, entries: map<string, Value>) {
    forall key | key in entries :: FreshEntry(db, key, entries[key])
  }

  // ------------------------------------------------------------------ get

  /** What coherence is for: an item entry that a `get` hits is what a store
      read of that id, in the entry's own kind, would project now. The cache
      key carries no kind, so the entry is the answer of every service's `get`
      of the id; it is the answer of that service's store read once ids are
      disjoint across tables. */
  lemma CoherentHitIsCurrent(db: Db, entries: map<string, Value>, kind: Kind, id: Uuid)
    requires Coherent(db, entries)
    requires IsHit(Lookup(entries, id)) && Lookup(entries, id).value.One?
    ensures Current(db, entries[id].item.KindOf(), id) == Some(entries[id].item)
    ensures DisjointIds(db) && Current(db, kind, id).Some? ==> Current(db, kind, id) == Some(entries[id].item)
  {
    var item := entries[id].item;
    assert FreshEntry(db, id, entries[id]);
    if DisjointIds(db) && Current(db, kind, id).Some? {
      assert Get(db, item.KindOf(), id).Ok?;
      assert Get(db, kind, id).Ok?;
      assert kind == item.KindOf();
    }
  }

  /** A `get` that misses caches a fresh entry and keeps the cache coherent. */
  lemma GetMissKeepsCoherent(db: Db, entries: map<string, Value>, kind: Kind, id: Uuid)
    requires Coherent(db, entries)
    requires Get(db, kind, id).Ok?
    ensures Coherent(db, Stored(entries, id, One(Project(Get(db, kind, id).value))))
  {
    var item := Project(Get(db, kind, id).value);
    assert Current(db, kind, id) == Some(item);
    var entries' := Stored(entries, id, One(item));
    forall key | key in entries' ensures FreshEntry(db, key, entries'[key]) {
      if key != id {
        assert Lookup(entries', key) == Lookup(entries, key);
      }
    }
  }

  // --------------------------------------------------------------- update

  /** An update changes no submenu's dish count. */
  lemma UpdateKeepsDishCounts(db: Db, kind: Kind, id: Uuid, p: Patch, submenuId: Uuid)
    requires Update(db, kind, id, p).Ok?
    ensures |DishesOf(Update(db, kind, id, p).value.db, submenuId)| == |DishesOf(db, submenuId)|
  {
    if kind == DishKind {
      var j := IndexOf(db.dishes, DishKeyOf, id).value;
      var rows := db.dishes;
      SelectReplace(rows, j, PatchDish(rows[j], p), InSubmenu(submenuId), DishKeyOf);
    }
  }

  /** An update changes no menu's submenus, as far as their ids go. */
  lemma UpdateKeepsSubmenuIds(db: Db, kind: Kind, id: Uuid, p: Patch, menuId: Uuid)
    requires Update(db, kind, id, p).Ok?
    ensures KeysOf(SubmenusOf(Update(db, kind, id, p).value.db, menuId), SubmenuKeyOf)
         == KeysOf(SubmenusOf(db, menuId), SubmenuKeyOf)
  {
    if kind == SubmenuKind {
      var j := IndexOf(db.submenus, SubmenuKeyOf, id).value;
      var rows := db.submenus;
      SelectReplace(rows, j, PatchSubmenu(rows[j], p), InMenu(menuId), SubmenuKeyOf);
    }
  }

  /** An update changes no menu's counts. */
  lemma UpdateKeepsMenuProjection(db: Db, kind: Kind, id: Uuid, p: Patch, m: MenuRow)
    requires Update(db, kind, id, p).Ok?
    ensures ProjectMenu(LoadMenu(Update(db, kind, id, p).value.db, m)) == ProjectMenu(LoadMenu(db, m))
  {
    var db' := Update(db, kind, id, p).value.db;
    var ss, ss' := SubmenusOf(db, m.id), SubmenusOf(db', m.id);
    UpdateKeepsSubmenuIds(db, kind, id, p, m.id);
    var a, b := LoadSubmenus(db', ss'), LoadSubmenus(db, ss);
    forall i | 0 <= i < |a| ensures |a[i].dishes| == |b[i].dishes| {
      assert ss'[i].id == KeysOf(ss', SubmenuKeyOf)[i] == KeysOf(ss, SubmenuKeyOf)[i] == ss[i].id;
      UpdateKeepsDishCounts(db, kind, id, p, ss[i].id);
    }
    DishesTotalPointwise(a, b);
    DishesTotalCountsAllDishes(a);
    DishesTotalCountsAllDishes(b);
  }

  lemma UpdateKeepsMenuRead(db: Db, kind: Kind, id: Uuid, p: Patch, y: Uuid)
    requires Update(db, kind, id, p).Ok?
    requires kind != MenuKind || y != id
    ensures Current(Update(db, kind, id, p).value.db, MenuKind, y) == Current(db, MenuKind, y)
  {
    var db' := Update(db, kind, id, p).value.db;
    if kind == MenuKind {
      var j := IndexOf(db.menus, MenuKeyOf, id).value;
      MenuPatchKeepsMenuRead(db, j, PatchMenu(db.menus[j], p), y);
    } else {
      assert db'.menus == db.menus;
      CurrentMenu(db, y);
      CurrentMenu(db', y);
      var i := IndexOf(db.menus, MenuKeyOf, y);
      if i.Some? {
        UpdateKeepsMenuProjection(db, kind, id, p, db.menus[i.value]);
      }
    }
  }

  lemma MenuPatchKeepsMenuRead(db: Db, j: nat, row: MenuRow, y: Uuid)
    requires j < |db.menus| && row.id == db.menus[j].id && row.id != y
    ensures Current(db.(menus := db.menus[j := row]), MenuKind, y) == Current(db, MenuKind, y)
  {
    var db' := db.(menus := db.menus[j := row]);
    CurrentMenu(db, y);
    CurrentMenu(db', y);
    IndexOfReplace(db.menus, j, row, MenuKeyOf, y);
    var i := IndexOf(db.menus, MenuKeyOf, y);
    if i.Some? {
      var m := db.menus[i.value];
      assert db'.menus[i.value] == m;
      LoadMenuDependsOnSubtree(db, db', m);
    }
  }

  lemma UpdateKeepsSubmenuRead(db: Db, kind: Kind, id: Uuid, p: Patch, y: Uuid)
    requires Update(db, kind, id, p).Ok?
    requires kind != SubmenuKind || y != id
    ensures Current(Update(db, kind, id, p).value.db, SubmenuKind, y) == Current(db, SubmenuKind, y)
  {
    var db' := Update(db, kind, id, p).value.db;
    match kind
    case MenuKind =>
      assert db'.submenus == db.submenus && db'.dishes == db.dishes;
      CurrentSubmenu(db, y);
      CurrentSubmenu(db', y);
    case SubmenuKind =>
      var j := IndexOf(db.submenus, SubmenuKeyOf, id).value;
      SubmenuPatchKeepsSubmenuRead(db, j, PatchSubmenu(db.submenus[j], p), y);
    case DishKind =>
      assert db'.submenus == db.submenus;
      CurrentSubmenu(db, y);
      CurrentSubmenu(db', y);
      UpdateKeepsDishCounts(db, kind, id, p, y);
  }

  lemma SubmenuPatchKeepsSubmenuRead(db: Db, j: nat, row: SubmenuRow, y: Uuid)
    requires j < |db.submenus| && row.id == db.submenus[j].id && row.id != y
    ensures Current(db.(submenus := db.submenus[j := row]), SubmenuKind, y) == Current(db, SubmenuKind, y)
  {
    var db' := db.(submenus := db.submenus[j := row]);
    CurrentSubmenu(db, y);
    CurrentSubmenu(db', y);
    IndexOfReplace(db.submenus, j, row, SubmenuKeyOf, y);
    var i := IndexOf(db.submenus, SubmenuKeyOf, y);
    if i.Some? {
      assert db'.submenus[i.value] == db.submenus[i.value];
    }
  }

  lemma UpdateKeepsDishRead(db: Db, kind: Kind, id: Uuid, p: Patch, y: Uuid)
    requires Update(db, kind, id, p).Ok?
    requires kind != DishKind || y != id
    ensures Current(Update(db, kind, id, p).value.db, DishKind, y) == Current(db, DishKind, y)
  {
    var db' := Update(db, kind, id, p).value.db;
    CurrentDish(db, y);
    CurrentDish(db', y);
    if kind == DishKind {
      var j := IndexOf(db.dishes, DishKeyOf, id).value;
      IndexOfReplace(db.dishes, j, PatchDish(db.dishes[j], p), DishKeyOf, y);
    } else {
      assert db'.dishes == db.dishes;
    }
  }

  /** An update changes the dictionary of no entity but the one it patches. */
  lemma UpdateKeepsOtherReads(db: Db, kind: Kind, id: Uuid, p: Patch, other: Kind, y: Uuid)
    requires Update(db, kind, id, p).Ok?
    requires other != kind || y != id
    ensures Current(Update(db, kind, id, p).value.db, other, y) == Current(db, other, y)
  {
    match other
    case MenuKind => UpdateKeepsMenuRead(db, kind, id, p, y);
    case SubmenuKind => UpdateKeepsSubmenuRead(db, kind, id, p, y);
    case DishKind => UpdateKeepsDishRead(db, kind, id, p, y);
  }

  /** After an update, a store read of the patched entity produces the
      dictionary the update returned. */
  lemma UpdateReadsBack(db: Db, kind: Kind, id: Uuid, p: Patch)
    requires Update(db, kind, id, p).Ok?
    ensures var w := Update(db, kind, id, p).value;
      Current(w.db, kind, id) == Some(Project(w.entity))
  {
    match kind
    case MenuKind =>
      var j := IndexOf(db.menus, MenuKeyOf, id).value;
      IndexOfReplace(db.menus, j, PatchMenu(db.menus[j], p), MenuKeyOf, id);
    case SubmenuKind =>
      var j := IndexOf(db.submenus, SubmenuKeyOf, id).value;
      IndexOfReplace(db.submenus, j, PatchSubmenu(db.submenus[j], p), SubmenuKeyOf, id);
    case DishKind =>
      var j := IndexOf(db.dishes, DishKeyOf, id).value;
      IndexOfReplace(db.dishes, j, PatchDish(db.dishes[j], p), DishKeyOf, id);
  }

  /** An updated menu reads back with the given fields patched in and its
      counts unchanged. */
  lemma UpdateMenuReads(db: Db, id: Uuid, p: Patch)
    requires Update(db, MenuKind, id, p).Ok?
    ensures var before := Current(db, MenuKind, id);
      && before.Some?
      && Current(Update(db, MenuKind, id, p).value.db, MenuKind, id) == Some(before.value.(
           title := Patched(before.value.title, p.title),
           description := Patched(before.value.description, p.description)))
  {
    var j := IndexOf(db.menus, MenuKeyOf, id).value;
    var row := db.menus[j];
    var db' := Update(db, MenuKind, id, p).value.db;
    assert db' == db.(menus := db.menus[j := PatchMenu(row, p)]);
    UpdateReadsBack(db, MenuKind, id, p);
    CurrentMenu(db, id);
    assert LoadMenu(db', PatchMenu(row, p)).submenus == LoadMenu(db, row).submenus;
  }

  /** An updated submenu reads back with the given fields patched in, its
      parent kept and its dish count unchanged. */
  lemma UpdateSubmenuReads(db: Db, id: Uuid, p: Patch)
    requires Update(db, SubmenuKind, id, p).Ok?
    ensures var before := Current(db, SubmenuKind, id);
      && before.Some?
      && Current(Update(db, SubmenuKind, id, p).value.db, SubmenuKind, id) == Some(before.value.(
           title := Patched(before.value.title, p.title),
           description := Patched(before.value.description, p.description)))
  {
    var j := IndexOf(db.submenus, SubmenuKeyOf, id).value;
    UpdateReadsBack(db, SubmenuKind, id, p);
    assert Update(db, SubmenuKind, id, p).value.db.dishes == db.dishes;
  }

  /** An updated dish reads back with the given fields patched in and its
      submenu kept. */
  lemma UpdateDishReads(db: Db, id: Uuid, p: Patch)
    requires Update(db, DishKind, id, p).Ok?
    ensures var before := Current(db, DishKind, id);
      && before.Some?
      && Current(Update(db, DishKind, id, p).value.db, DishKind, id) == Some(before.value.(
           title := Patched(before.value.title, p.title),
           description := Patched(before.value.description, p.description),
           price := if p.price.Some? then p.price else before.value.price))
  {
    var j := IndexOf(db.dishes, DishKeyOf, id).value;
    UpdateReadsBack(db, DishKind, id, p);
  }

  /** `update` needs to invalidate no ancestor: overwriting the item's own key
      (and dropping the list key) keeps a coherent cache coherent. */
  lemma UpdateKeepsCoherent(db: Db, entries: map<string, Value>, kind: Kind, id: Uuid, p: Patch)
    requires Coherent(db, entries)
    requires Update(db, kind, id, p).Ok?
    ensures var w := Update(db, kind, id, p).value;
      Coherent(w.db, Dropped(Stored(entries, id, One(Project(w.entity))), ListKey(kind)))
  {
    var w := Update(db, kind, id, p).value;
    var entries' := Dropped(Stored(entries, id, One(Project(w.entity))), ListKey(kind));
    UpdateReadsBack(db, kind, id, p);
    forall key | key in entries' ensures FreshEntry(w.db, key, entries'[key]) {
      if key != id {
        assert Lookup(entries', key) == Lookup(entries, key);
        var v := entries[key];
        if v.One? {
          UpdateKeepsOtherReads(db, kind, id, p, v.item.KindOf(), v.item.id);
        }
      }
    }
  }

  // --------------------------------------------------------------- create

  /** The menus a submenu id belongs to (one, in a valid store). */
  function ParentMenus(db: Db, submenuId: Uuid): set<Uuid> {
    set s | s in db.submenus && s.id == submenuId :: s.menuId
  }

  /** The entities whose dictionaries count the row a create adds below
      `parent`: its parent and, for a dish, the parent's menu. */
  function AncestorIds(db: Db, kind: Kind, parent: Option<Uuid>): set<Uuid> {
    match kind
    case MenuKind => {}
    case SubmenuKind => if parent.Some? then {parent.value} else {}
    case DishKind => if parent.Some? then {parent.value} + ParentMenus(db, parent.value) else {}
  }

  /** A loaded menu depends only on the menu's submenus and their dishes. */
  lemma LoadMenuDependsOnSubtree(db: Db, db': Db, m: MenuRow)
    requires SubmenusOf(db', m.id) == SubmenusOf(db, m.id)
    requires forall s | s in SubmenusOf(db, m.id) :: DishesOf(db', s.id) == DishesOf(db, s.id)
    ensures LoadMenu(db', m) == LoadMenu(db, m)
  {
    var ss := SubmenusOf(db, m.id);
    assert forall i | 0 <= i < |ss| :: ss[i] in ss;
  }

  lemma CreateKeepsMenuRead(db: Db, kind: Kind, id: Uuid, f: Fields, parent: Option<Uuid>, y: Uuid)
    requires Create(db, kind, id, f, parent).Ok?
    requires kind != MenuKind || y != id
    requires y !in AncestorIds(db, kind, parent)
    ensures Current(Create(db, kind, id, f, parent).value.db, MenuKind, y) == Current(db, MenuKind, y)
  {
    match kind
    case MenuKind =>
      MenuAddKeepsMenuRead(db, MenuRow(id, f.title, f.description), y);
    case SubmenuKind =>
      SubmenuAddKeepsMenuRead(db, SubmenuRow(id, f.title, f.description, parent.value), y);
    case DishKind =>
      DishAddKeepsMenuRead(db, DishRow(id, f.title, f.description, f.price, parent.value), y);
  }

  lemma MenuAddKeepsMenuRead(db: Db, row: MenuRow, y: Uuid)
    requires row.id != y
    ensures Current(db.(menus := db.menus + [row]), MenuKind, y) == Current(db, MenuKind, y)
  {
    var db' := db.(menus := db.menus + [row]);
    CurrentMenu(db, y);
    CurrentMenu(db', y);
    IndexOfAppend(db.menus, row, MenuKeyOf, y);
    var i := IndexOf(db.menus, MenuKeyOf, y);
    if i.Some? {
      var m := db.menus[i.value];
      assert db'.menus[i.value] == m;
      LoadMenuDependsOnSubtree(db, db', m);
    }
  }

  lemma SubmenuAddKeepsMenuRead(db: Db, row: SubmenuRow, y: Uuid)
    requires row.menuId != y
    ensures Current(db.(submenus := db.submenus + [row]), MenuKind, y) == Current(db, MenuKind, y)
  {
    var db' := db.(submenus := db.submenus + [row]);
    CurrentMenu(db, y);
    CurrentMenu(db', y);
    var i := IndexOf(db.menus, MenuKeyOf, y);
    if i.Some? {
      var m := db.menus[i.value];
      SelectAppendOne(db.submenus, row, InMenu(y));
      LoadMenuDependsOnSubtree(db, db', m);
    }
  }

  lemma DishAddKeepsMenuRead(db: Db, d: DishRow, y: Uuid)
    requires y !in ParentMenus(db, d.submenuId)
    ensures Current(db.(dishes := db.dishes + [d]), MenuKind, y) == Current(db, MenuKind, y)
  {
    var db' := db.(dishes := db.dishes + [d]);
    CurrentMenu(db, y);
    CurrentMenu(db', y);
    var i := IndexOf(db.menus, MenuKeyOf, y);
    if i.Some? {
      var m := db.menus[i.value];
      forall s | s in SubmenusOf(db, y) ensures DishesOf(db', s.id) == DishesOf(db, s.id) {
        assert s.menuId in ParentMenus(db, s.id);
        SelectAppendOne(db.dishes, d, InSubmenu(s.id));
      }
      LoadMenuDependsOnSubtree(db, db', m);
    }
  }

  lemma CreateKeepsSubmenuRead(db: Db, kind: Kind, id: Uuid, f: Fields, parent: Option<Uuid>, y: Uuid)
    requires Create(db, kind, id, f, parent).Ok?
    requires kind != SubmenuKind || y != id
    requires y !in AncestorIds(db, kind, parent)
    ensures Current(Create(db, kind, id, f, parent).value.db, SubmenuKind, y) == Current(db, SubmenuKind, y)
  {
    match kind
    case MenuKind =>
      var db' := Create(db, kind, id, f, parent).value.db;
      assert db'.submenus == db.submenus && db'.dishes == db.dishes;
      CurrentSubmenu(db, y);
      CurrentSubmenu(db', y);
    case SubmenuKind =>
      SubmenuAddKeepsSubmenuRead(db, SubmenuRow(id, f.title, f.description, parent.value), y);
    case DishKind =>
      DishAddKeepsSubmenuRead(db, DishRow(id, f.title, f.description, f.price, parent.value), y);
  }

  lemma SubmenuAddKeepsSubmenuRead(db: Db, row: SubmenuRow, y: Uuid)
    requires row.id != y
    ensures Current(db.(submenus := db.submenus + [row]), SubmenuKind, y) == Current(db, SubmenuKind, y)
  {
    var db' := db.(submenus := db.submenus + [row]);
    CurrentSubmenu(db, y);
    CurrentSubmenu(db', y);
    IndexOfAppend(db.submenus, row, SubmenuKeyOf, y);
    var i := IndexOf(db.submenus, SubmenuKeyOf, y);
    if i.Some? {
      assert db'.submenus[i.value] == db.submenus[i.value];
    }
  }

  lemma DishAddKeepsSubmenuRead(db: Db, d: DishRow, y: Uuid)
    requires d.submenuId != y
    ensures Current(db.(dishes := db.dishes + [d]), SubmenuKind, y) == Current(db, SubmenuKind, y)
  {
    var db' := db.(dishes := db.dishes + [d]);
    CurrentSubmenu(db, y);
    CurrentSubmenu(db', y);
    SelectAppendOne(db.dishes, d, InSubmenu(y));
  }

  lemma CreateKeepsDishRead(db: Db, kind: Kind, id: Uuid, f: Fields, parent: Option<Uuid>, y: Uuid)
    requires Create(db, kind, id, f, parent).Ok?
    requires kind != DishKind || y != id
    ensures Current(Create(db, kind, id, f, parent).value.db, DishKind, y) == Current(db, DishKind, y)
  {
    var db' := Create(db, kind, id, f, parent).value.db;
    CurrentDish(db, y);
    CurrentDish(db', y);
    match kind
    case MenuKind => assert db'.dishes == db.dishes;
    case SubmenuKind => assert db'.dishes == db.dishes;
    case DishKind =>
      var d := DishRow(id, f.title, f.description, f.price, parent.value);
      assert db'.dishes == db.dishes + [d];
      IndexOfAppend(db.dishes, d, DishKeyOf, y);
  }

  /** A create changes the dictionary of no entity but its ancestors (and
      makes the new one readable). */
  lemma CreateKeepsOtherReads(db: Db, kind: Kind, id: Uuid, f: Fields, parent: Option<Uuid>, other: Kind, y: Uuid)
    requires Create(db, kind, id, f, parent).Ok?
    requires other != kind || y != id
    requires y !in AncestorIds(db, kind, parent)
    ensures Current(Create(db, kind, id, f, parent).value.db, other, y) == Current(db, other, y)
  {
    match other
    case MenuKind => CreateKeepsMenuRead(db, kind, id, f, parent, y);
    case SubmenuKind => CreateKeepsSubmenuRead(db, kind, id, f, parent, y);
    case DishKind => CreateKeepsDishRead(db, kind, id, f, parent, y);
  }

  /** After a create, a store read of the new id produces the dictionary the
      create returned. */
  lemma CreateReadsBack(db: Db, kind: Kind, id: Uuid, f: Fields, parent: Option<Uuid>)
    requires Create(db, kind, id, f, parent).Ok?
    ensures var w := Create(db, kind, id, f, parent).value;
      Current(w.db, kind, id) == Some(Project(w.entity))
  {
    match kind
    case MenuKind =>
      IndexOfNew(db.menus, MenuRow(id, f.title, f.description), MenuKeyOf);
    case SubmenuKind =>
      IndexOfNew(db.submenus, SubmenuRow(id, f.title, f.description, parent.value), SubmenuKeyOf);
    case DishKind =>
      IndexOfNew(db.dishes, DishRow(id, f.title, f.description, f.price, parent.value), DishKeyOf);
  }

  /** A created menu reads back with the payload's title and description and
      no submenus or dishes. */
  lemma CreateMenuReads(db: Db, id: Uuid, f: Fields, parent: Option<Uuid>)
    requires Valid(db)
    requires Create(db, MenuKind, id, f, parent).Ok?
    ensures Current(Create(db, MenuKind, id, f, parent).value.db, MenuKind, id)
      == Some(MenuRead(id, f.title, f.description, 0, 0))
  {
    var w := Create(db, MenuKind, id, f, parent).value;
    CreateReadsBack(db, MenuKind, id, f, parent);
    assert w.db.submenus == db.submenus;
    SelectNothing(db.submenus, InMenu(id));
  }

  /** A created submenu reads back with the payload's title and description,
      the parent it was created under and no dishes. */
  lemma CreateSubmenuReads(db: Db, id: Uuid, f: Fields, m: Uuid)
    requires Valid(db)
    requires Create(db, SubmenuKind, id, f, Some(m)).Ok?
    ensures Current(Create(db, SubmenuKind, id, f, Some(m)).value.db, SubmenuKind, id)
      == Some(SubmenuRead(id, f.title, f.description, m, 0))
  {
    var w := Create(db, SubmenuKind, id, f, Some(m)).value;
    CreateReadsBack(db, SubmenuKind, id, f, Some(m));
    assert w.db.dishes == db.dishes;
    SelectNothing(db.dishes, InSubmenu(id));
  }

  /** A created dish reads back with the payload's fields and the submenu it
      was created under. */
  lemma CreateDishReads(db: Db, id: Uuid, f: Fields, s: Uuid)
    requires Create(db, DishKind, id, f, Some(s)).Ok?
    ensures Current(Create(db, DishKind, id, f, Some(s)).value.db, DishKind, id)
      == Some(DishRead(id, f.title, f.description, f.price, s))
  {
    CreateReadsBack(db, DishKind, id, f, Some(s));
  }

  /** `create` keeps a coherent cache coherent provided the keyword values it
      is called with name every ancestor of the new row. */
  lemma CreateKeepsCoherent(db: Db, entries: map<string, Value>, kind: Kind, id: Uuid, f: Fields, kwargs: seq<Uuid>)
    requires Coherent(db, entries)
    requires Create(db, kind, id, f, ParentRef(kwargs)).Ok?
    requires forall a | a in AncestorIds(db, kind, ParentRef(kwargs)) :: a in kwargs
    ensures var w := Create(db, kind, id, f, ParentRef(kwargs)).value;
      Coherent(w.db, Stored(DroppedAll(entries, kwargs + [ListKey(kind)]), id, One(Project(w.entity))))
  {
    var parent := ParentRef(kwargs);
    var w := Create(db, kind, id, f, parent).value;
    var keys: seq<string> := kwargs + [ListKey(kind)];
    var entries' := Stored(DroppedAll(entries, keys), id, One(Project(w.entity)));
    CreateReadsBack(db, kind, id, f, parent);
    forall key | key in entries' ensures FreshEntry(w.db, key, entries'[key]) {
      if key != id {
        assert key !in keys;
        assert Lookup(entries', key) == Lookup(entries, key);
        var v := entries[key];
        if v.One? {
          assert v.item.id !in AncestorIds(db, kind, parent) by {
            assert key !in kwargs;
          }
          CreateKeepsOtherReads(db, kind, id, f, parent, v.item.KindOf(), v.item.id);
        }
      }
    }
  }

  /** A submenu's `dishes_count` is the number of dish rows naming it. */
  lemma SubmenuCountIsDishRows(db: Db, s: SubmenuRow)
    requires UniqueKeys(db.dishes, DishKeyOf)
    ensures ProjectSubmenu(LoadSubmenu(db, s)).dishesCount == |set d | d in db.dishes && d.submenuId == s.id|
  {
    DishesOfCount(db, s.id);
  }

  /** A menu's `submenus_count` is the number of submenu rows naming it. */
  lemma MenuCountIsSubmenuRows(db: Db, m: MenuRow)
    requires UniqueKeys(db.submenus, SubmenuKeyOf)
    ensures ProjectMenu(LoadMenu(db, m)).submenusCount == |set s | s in db.submenus && s.menuId == m.id|
  {
    SubmenusOfCount(db, m.id);
  }

  /** Appending a dish to a store grows exactly one loaded submenu of a menu:
      the one the dish names. */
  lemma LoadedMenuGrows(db: Db, d: DishRow, mRow: MenuRow, k: nat)
    requires UniqueKeys(SubmenusOf(db, mRow.id), SubmenuKeyOf)
    requires k < |SubmenusOf(db, mRow.id)| && SubmenusOf(db, mRow.id)[k].id == d.submenuId
    ensures var lm := LoadMenu(db, mRow);
      var sub := lm.submenus[k];
      LoadMenu(db.(dishes := db.dishes + [d]), mRow)
        == lm.(submenus := lm.submenus[k := sub.(dishes := sub.dishes + [d])])
  {
    var db' := db.(dishes := db.dishes + [d]);
    var ss := SubmenusOf(db, mRow.id);
    var lm := LoadMenu(db, mRow);
    var sub := lm.submenus[k];
    var grown := lm.(submenus := lm.submenus[k := sub.(dishes := sub.dishes + [d])]);
    forall i | 0 <= i < |ss| ensures LoadMenu(db', mRow).submenus[i] == grown.submenus[i] {
      SelectAppendOne(db.dishes, d, InSubmenu(ss[i].id));
      if i != k {
        assert ss[i].id != ss[k].id;
      }
    }
  }

  /** A dish added under submenu `s` raises the submenu's dish count by
      exactly one and changes nothing else in its dictionary. */
  lemma DishCreateRaisesSubmenuCount(db: Db, id: Uuid, f: Fields, s: Uuid)
    requires Create(db, DishKind, id, f, Some(s)).Ok?
    ensures var db' := Create(db, DishKind, id, f, Some(s)).value.db;
      && Current(db, SubmenuKind, s).Some? && Current(db', SubmenuKind, s).Some?
      && var (a, a') := (Current(db, SubmenuKind, s).value, Current(db', SubmenuKind, s).value);
      && a.SubmenuRead? && a'.SubmenuRead?
      && a'.dishesCount == a.dishesCount + 1
      && a' == SubmenuRead(a.id, a.title, a.description, a.menuId, a'.dishesCount)
  {
    SelectAppendOne(db.dishes, DishRow(id, f.title, f.description, f.price, s), InSubmenu(s));
  }

  /** A dish added under a submenu of menu `m` raises the menu's dish count by
      exactly one and changes nothing else in its dictionary. */
  lemma DishCreateRaisesMenuCount(db: Db, id: Uuid, f: Fields, s: Uuid, m: Uuid)
    requires Valid(db)
    requires Create(db, DishKind, id, f, Some(s)).Ok?
    requires m in ParentMenus(db, s)
    ensures var db' := Create(db, DishKind, id, f, Some(s)).value.db;
      && Current(db, MenuKind, m).Some? && Current(db', MenuKind, m).Some?
      && var (b, b') := (Current(db, MenuKind, m).value, Current(db', MenuKind, m).value);
      && b.MenuRead? && b'.MenuRead?
      && b'.dishesCount == b.dishesCount + 1
      && b' == MenuRead(b.id, b.title, b.description, b.submenusCount, b'.dishesCount)
  {
    var db' := Create(db, DishKind, id, f, Some(s)).value.db;
    var d := DishRow(id, f.title, f.description, f.price, s);
    assert db' == db.(dishes := db.dishes + [d]);
    var sr :| sr in db.submenus && sr.id == s && sr.menuId == m;
    assert m in MenuIds(db);
    var mRow := db.menus[IndexOf(db.menus, MenuKeyOf, m).value];
    var ss := SubmenusOf(db, m);
    SelectKeepsUnique(db.submenus, InMenu(m), SubmenuKeyOf);
    assert sr in ss;
    var k :| 0 <= k < |ss| && ss[k] == sr;
    LoadedMenuGrows(db, d, mRow, k);
    AddDishRaisesMenuCount(LoadMenu(db, mRow), k, d);
  }

  /** The dish endpoint creates with the submenu id as its only keyword value,
      so a cached dictionary of the submenu's menu survives the create while
      the store now counts one more dish under that menu: the cache is no
      longer coherent. */
  lemma DishCreateLeavesMenuStale(db: Db, entries: map<string, Value>, id: Uuid, f: Fields, s: Uuid, m: Uuid)
    requires Valid(db) && Coherent(db, entries)
    requires Create(db, DishKind, id, f, Some(s)).Ok?
    requires m in ParentMenus(db, s) && m != s && m != id
    requires m in entries && entries[m].One? && entries[m].item.MenuRead?
    ensures var w := Create(db, DishKind, id, f, Some(s)).value;
      var entries' := Stored(DroppedAll(entries, [s] + [ListKey(DishKind)]), id, One(Project(w.entity)));
      && Lookup(entries', m) == Lookup(entries, m)
      && Current(w.db, MenuKind, m).Some?
      && Current(w.db, MenuKind, m).value.dishesCount == entries[m].item.dishesCount + 1
      && !Coherent(w.db, entries')
  {
    var w := Create(db, DishKind, id, f, Some(s)).value;
    var keys: seq<string> := [s] + [ListKey(DishKind)];
    ListKeysDistinct(DishKind, DishKind, m);
    assert m !in keys;
    var entries' := Stored(DroppedAll(entries, keys), id, One(Project(w.entity)));
    assert Lookup(entries', m) == Lookup(entries, m);
    assert FreshEntry(db, m, entries[m]);
    DishCreateRaisesMenuCount(db, id, f, s, m);
    assert !FreshEntry(w.db, m, entries'[m]);
  }

  /** In a valid store a submenu has exactly one menu. */
  lemma ParentMenuUnique(db: Db, s: Uuid, m: Uuid)
    requires Valid(db) && m in ParentMenus(db, s)
    ensures ParentMenus(db, s) == {m}
  {
    var y :| y in db.submenus && y.id == s && y.menuId == m;
    forall a | a in ParentMenus(db, s) ensures a == m {
      var x :| x in db.submenus && x.id == s && x.menuId == a;
      UniqueKeysDistinct(db.submenus, SubmenuKeyOf, x, y);
    }
  }

  /** The evidently intended dish create: with the menu id passed after the
      submenu id, as the dish delete endpoint does, the menu's key is deleted
      too and the cache stays coherent. */
  lemma DishCreateWithMenuKeepsCoherent(db: Db, entries: map<string, Value>, id: Uuid, f: Fields, s: Uuid, m: Uuid)
    requires Valid(db) && Coherent(db, entries)
    requires Create(db, DishKind, id, f, Some(s)).Ok?
    requires m in ParentMenus(db, s)
    ensures var w := Create(db, DishKind, id, f, Some(s)).value;
      Coherent(w.db, Stored(DroppedAll(entries, [s, m] + [ListKey(DishKind)]), id, One(Project(w.entity))))
  {
    ParentMenuUnique(db, s, m);
    assert ParentRef([s, m]) == Some(s);
    CreateKeepsCoherent(db, entries, DishKind, id, f, [s, m]);
  }

  // --------------------------------------------------------------- delete

  /** The submenus a dish id belongs to (one, in a valid store). */
  function DishParents(db: Db, dishId: Uuid): set<Uuid> {
    set d | d in db.dishes && d.id == dishId :: d.submenuId
  }

  /** The menus of those submenus. */
  function DishMenus(db: Db, dishId: Uuid): set<Uuid> {
    set d, s | d in db.dishes && s in db.submenus && d.id == dishId && s.id == d.submenuId :: s.menuId
  }

  /** The entities whose dictionaries count the row a delete removes. */
  function DeleteAncestors(db: Db, kind: Kind, id: Uuid): set<Uuid> {
    match kind
    case MenuKind => {}
    case SubmenuKind => ParentMenus(db, id)
    case DishKind => DishParents(db, id) + DishMenus(db, id)
  }

  /** The rows the cascade of a delete removes along with the row itself. */
  function Descendants(db: Db, kind: Kind, id: Uuid): set<Uuid> {
    match kind
    case MenuKind =>
      var doomed := DoomedSubmenus(db, id);
      doomed + set d | d in db.dishes && d.submenuId in doomed :: d.id
    case SubmenuKind => set d | d in db.dishes && d.submenuId == id :: d.id
    case DishKind => {}
  }

  lemma DeleteKeepsMenuRead(db: Db, kind: Kind, id: Uuid, y: Uuid)
    requires Valid(db)
    requires Delete(db, kind, id).Ok?
    requires kind != MenuKind || y != id
    requires y !in DeleteAncestors(db, kind, id)
    ensures Current(Delete(db, kind, id).value, MenuKind, y) == Current(db, MenuKind, y)
  {
    var db' := Delete(db, kind, id).value;
    CurrentMenu(db, y);
    CurrentMenu(db', y);
    if kind == MenuKind {
      SelectFind(db.menus, NotKey(MenuKeyOf, id), MenuKeyOf, y);
    }
    var i := IndexOf(db.menus, MenuKeyOf, y);
    if i.Some? {
      var m := db.menus[i.value];
      var i' := IndexOf(db'.menus, MenuKeyOf, y);
      assert db'.menus[i'.value] == m;
      match kind
      case MenuKind => MenuDeleteKeepsLoadedMenu(db, id, m);
      case SubmenuKind => SubmenuDeleteKeepsLoadedMenu(db, id, m);
      case DishKind => DishDeleteKeepsLoadedMenu(db, id, m);
    }
  }

  /** A menu's dictionary is its row's, found by id, with its subtree. */
  lemma CurrentMenu(db: Db, y: Uuid)
    ensures Current(db, MenuKind, y) ==
      (var i := IndexOf(db.menus, MenuKeyOf, y);
       if i.None? then None else Some(ProjectMenu(LoadMenu(db, db.menus[i.value]))))
  {
  }

  /** Another menu loads as before once a menu is deleted. */
  lemma MenuDeleteKeepsLoadedMenu(db: Db, id: Uuid, m: MenuRow)
    requires Valid(db) && id in MenuIds(db) && m.id != id
    ensures LoadMenu(Delete(db, MenuKind, id).value, m) == LoadMenu(db, m)
  {
    var db' := Delete(db, MenuKind, id).value;
    var doomed := DoomedSubmenus(db, id);
    SelectSelect(db.submenus, OutsideMenu(id), InMenu(m.id));
    forall s | s in SubmenusOf(db, m.id) ensures DishesOf(db', s.id) == DishesOf(db, s.id) {
      forall t | t in db.submenus && t.menuId == id ensures t.id != s.id {
        SelectKeepsUnique(db.submenus, InMenu(m.id), SubmenuKeyOf);
        UniqueKeysDistinct(db.submenus, SubmenuKeyOf, t, s);
      }
      SelectSelect(db.dishes, SurvivesMenuDelete(doomed), InSubmenu(s.id));
    }
    LoadMenuDependsOnSubtree(db, db', m);
  }

  /** A menu other than the deleted submenu's parent loads as before. */
  lemma SubmenuDeleteKeepsLoadedMenu(db: Db, id: Uuid, m: MenuRow)
    requires Valid(db) && id in SubmenuIds(db) && m.id !in ParentMenus(db, id)
    ensures LoadMenu(Delete(db, SubmenuKind, id).value, m) == LoadMenu(db, m)
  {
    var db' := Delete(db, SubmenuKind, id).value;
    forall x | x in db.submenus && x.menuId == m.id ensures x.id != id {
      assert x.menuId in ParentMenus(db, x.id);
    }
    SelectSelect(db.submenus, NotKey(SubmenuKeyOf, id), InMenu(m.id));
    forall s | s in SubmenusOf(db, m.id) ensures DishesOf(db', s.id) == DishesOf(db, s.id) {
      SelectSelect(db.dishes, OutsideSubmenu(id), InSubmenu(s.id));
    }
    LoadMenuDependsOnSubtree(db, db', m);
  }

  /** A menu other than the deleted dish's menu loads as before. */
  lemma DishDeleteKeepsLoadedMenu(db: Db, id: Uuid, m: MenuRow)
    requires Valid(db) && id in DishIds(db) && m.id !in DishMenus(db, id)
    ensures LoadMenu(Delete(db, DishKind, id).value, m) == LoadMenu(db, m)
  {
    var db' := Delete(db, DishKind, id).value;
    forall s | s in SubmenusOf(db, m.id) ensures DishesOf(db', s.id) == DishesOf(db, s.id) {
      forall x | x in db.dishes && x.submenuId == s.id ensures x.id != id {
        assert s.menuId in DishMenus(db, x.id);
      }
      SelectSelect(db.dishes, NotKey(DishKeyOf, id), InSubmenu(s.id));
    }
    LoadMenuDependsOnSubtree(db, db', m);
  }

  lemma DeleteKeepsSubmenuRead(db: Db, kind: Kind, id: Uuid, y: Uuid)
    requires Valid(db)
    requires Delete(db, kind, id).Ok?
    requires kind != SubmenuKind || y != id
    requires y !in DeleteAncestors(db, kind, id) && y !in Descendants(db, kind, id)
    ensures Current(Delete(db, kind, id).value, SubmenuKind, y) == Current(db, SubmenuKind, y)
  {
    var db' := Delete(db, kind, id).value;
    CurrentSubmenu(db, y);
    CurrentSubmenu(db', y);
    match kind
    case MenuKind => MenuDeleteKeepsSubmenu(db, id, y);
    case SubmenuKind => SubmenuDeleteKeepsSubmenu(db, id, y);
    case DishKind => DishDeleteKeepsSubmenu(db, id, y);
  }

  /** A submenu's dictionary is its row's, found by id, with its dishes. */
  lemma CurrentSubmenu(db: Db, y: Uuid)
    ensures Current(db, SubmenuKind, y) ==
      (var i := IndexOf(db.submenus, SubmenuKeyOf, y);
       if i.None? then None else Some(ProjectSubmenu(LoadSubmenu(db, db.submenus[i.value]))))
  {
  }

  lemma MenuDeleteKeepsSubmenu(db: Db, id: Uuid, y: Uuid)
    requires Valid(db) && id in MenuIds(db) && y !in DoomedSubmenus(db, id)
    ensures var db' := Delete(db, MenuKind, id).value;
      && IndexOf(db'.submenus, SubmenuKeyOf, y).Some? == IndexOf(db.submenus, SubmenuKeyOf, y).Some?
      && (IndexOf(db.submenus, SubmenuKeyOf, y).Some? ==>
          var s := db.submenus[IndexOf(db.submenus, SubmenuKeyOf, y).value];
          db'.submenus[IndexOf(db'.submenus, SubmenuKeyOf, y).value] == s && DishesOf(db', y) == DishesOf(db, y))
  {
    var doomed := DoomedSubmenus(db, id);
    var i := IndexOf(db.submenus, SubmenuKeyOf, y);
    SelectFind(db.submenus, OutsideMenu(id), SubmenuKeyOf, y);
    if i.Some? {
      var s := db.submenus[i.value];
      assert s.menuId == id ==> s.id in doomed;
      SelectSelect(db.dishes, SurvivesMenuDelete(doomed), InSubmenu(y));
    }
  }

  lemma SubmenuDeleteKeepsSubmenu(db: Db, id: Uuid, y: Uuid)
    requires Valid(db) && id in SubmenuIds(db) && y != id
    ensures var db' := Delete(db, SubmenuKind, id).value;
      && IndexOf(db'.submenus, SubmenuKeyOf, y).Some? == IndexOf(db.submenus, SubmenuKeyOf, y).Some?
      && (IndexOf(db.submenus, SubmenuKeyOf, y).Some? ==>
          var s := db.submenus[IndexOf(db.submenus, SubmenuKeyOf, y).value];
          db'.submenus[IndexOf(db'.submenus, SubmenuKeyOf, y).value] == s && DishesOf(db', y) == DishesOf(db, y))
  {
    var i := IndexOf(db.submenus, SubmenuKeyOf, y);
    SelectFind(db.submenus, NotKey(SubmenuKeyOf, id), SubmenuKeyOf, y);
    if i.Some? {
      SelectSelect(db.dishes, OutsideSubmenu(id), InSubmenu(y));
    }
  }

  lemma DishDeleteKeepsSubmenu(db: Db, id: Uuid, y: Uuid)
    requires Valid(db) && id in DishIds(db) && y !in DishParents(db, id)
    ensures var db' := Delete(db, DishKind, id).value;
      && db'.submenus == db.submenus
      && (IndexOf(db.submenus, SubmenuKeyOf, y).Some? ==> DishesOf(db', y) == DishesOf(db, y))
  {
    if IndexOf(db.submenus, SubmenuKeyOf, y).Some? {
      forall x | x in db.dishes && x.submenuId == y ensures x.id != id {
        assert x.submenuId in DishParents(db, x.id);
      }
      SelectSelect(db.dishes, NotKey(DishKeyOf, id), InSubmenu(y));
    }
  }

  /** A dish's dictionary is its row's, found by id. */
  lemma CurrentDish(db: Db, y: Uuid)
    ensures Current(db, DishKind, y) ==
      (var i := IndexOf(db.dishes, DishKeyOf, y); if i.None? then None else Some(ProjectDish(db.dishes[i.value])))
  {
  }

  lemma DeleteKeepsDishRead(db: Db, kind: Kind, id: Uuid, y: Uuid)
    requires UniqueKeys(db.dishes, DishKeyOf)
    requires Delete(db, kind, id).Ok?
    requires kind != DishKind || y != id
    requires y !in Descendants(db, kind, id)
    ensures Current(Delete(db, kind, id).value, DishKind, y) == Current(db, DishKind, y)
  {
    var db' := Delete(db, kind, id).value;
    var keep := match kind
      case MenuKind => SurvivesMenuDelete(DoomedSubmenus(db, id))
      case SubmenuKind => OutsideSubmenu(id)
      case DishKind => NotKey(DishKeyOf, id);
    assert db'.dishes == Select(db.dishes, keep);
    var i := IndexOf(db.dishes, DishKeyOf, y);
    if i.Some? {
      var d := db.dishes[i.value];
      assert !keep(d) ==> d.id in Descendants(db, kind, id) || d.id == id;
    }
    SelectFind(db.dishes, keep, DishKeyOf, y);
    CurrentDish(db, y);
    CurrentDish(db', y);
  }

  /** A delete changes the dictionary of no entity but the row's ancestors,
      the row itself and the rows its cascade removes. */
  lemma DeleteKeepsOtherReads(db: Db, kind: Kind, id: Uuid, other: Kind, y: Uuid)
    requires Valid(db)
    requires Delete(db, kind, id).Ok?
    requires y != id
    requires y !in DeleteAncestors(db, kind, id) && y !in Descendants(db, kind, id)
    ensures Current(Delete(db, kind, id).value, other, y) == Current(db, other, y)
  {
    match other
    case MenuKind => DeleteKeepsMenuRead(db, kind, id, y);
    case SubmenuKind => DeleteKeepsSubmenuRead(db, kind, id, y);
    case DishKind => DeleteKeepsDishRead(db, kind, id, y);
  }

  /** After a delete, a store read of the deleted id is NotFound. */
  lemma DeleteReadsGone(db: Db, kind: Kind, id: Uuid)
    requires Valid(db)
    requires Delete(db, kind, id).Ok?
    ensures Current(Delete(db, kind, id).value, kind, id) == None
  {
    match kind
    case MenuKind =>
      SelectFind(db.menus, NotKey(MenuKeyOf, id), MenuKeyOf, id);
    case SubmenuKind =>
      SelectFind(db.submenus, NotKey(SubmenuKeyOf, id), SubmenuKeyOf, id);
    case DishKind =>
      SelectFind(db.dishes, NotKey(DishKeyOf, id), DishKeyOf, id);
  }

  /** `delete` keeps a coherent cache coherent provided the keyword values it
      is called with name every ancestor of the row and every row the cascade
      removes that is cached. */
  lemma DeleteKeepsCoherent(db: Db, entries: map<string, Value>, kind: Kind, id: Uuid, kwargs: seq<Uuid>)
    requires Valid(db) && Coherent(db, entries)
    requires Delete(db, kind, id).Ok?
    requires forall a | a in DeleteAncestors(db, kind, id) :: a in kwargs
    requires forall key | key in entries && entries[key].One? && key in Descendants(db, kind, id) :: key in kwargs
    ensures Coherent(Delete(db, kind, id).value, DroppedAll(entries, kwargs + [ListKey(kind), id]))
  {
    var db' := Delete(db, kind, id).value;
    var keys: seq<string> := kwargs + [ListKey(kind), id];
    var entries' := DroppedAll(entries, keys);
    forall key | key in entries' ensures FreshEntry(db', key, entries'[key]) {
      assert key !in keys;
      assert Lookup(entries', key) == Lookup(entries, key);
      var v := entries[key];
      if v.One? {
        assert key !in kwargs && key != id;
        DeleteKeepsOtherReads(db, kind, id, v.item.KindOf(), v.item.id);
      }
    }
  }

  /** In a coherent cache, a dish entry under a dish's id is that dish's row. */
  lemma CachedDishIsRow(db: Db, entries: map<string, Value>, d: DishRow)
    requires UniqueKeys(db.dishes, DishKeyOf) && Coherent(db, entries)
    requires d in db.dishes && d.id in entries && entries[d.id].One? && entries[d.id].item.DishRead?
    ensures entries[d.id] == One(ProjectDish(d))
  {
    assert FreshEntry(db, d.id, entries[d.id]);
    CurrentDish(db, d.id);
    var i :| 0 <= i < |db.dishes| && db.dishes[i] == d;
    UniqueIndex(db.dishes, DishKeyOf, i);
  }

  /** The cascade of a submenu delete leaves no row for any of its dishes. */
  lemma SubmenuDeleteDropsDish(db: Db, s: Uuid, d: DishRow)
    requires Valid(db) && d in db.dishes && d.submenuId == s
    ensures Delete(db, SubmenuKind, s).Ok?
    ensures Current(Delete(db, SubmenuKind, s).value, DishKind, d.id) == None
  {
    SelectDropsKey(db.dishes, OutsideSubmenu(s), DishKeyOf, d);
  }

  /** The delete endpoints pass only ancestor ids, so deleting a submenu
      deletes no key of its dishes: a dish cached before the delete is still
      cached after it although the cascade removed its row, and a later `get`
      of it hits that entry instead of answering NotFound. */
  lemma SubmenuDeleteLeavesDishStale(db: Db, entries: map<string, Value>, s: Uuid, d: DishRow, kwargs: seq<Uuid>)
    requires Valid(db) && Coherent(db, entries)
    requires d in db.dishes && d.submenuId == s && d.id != s && d.id !in kwargs
    requires d.id in entries && entries[d.id].One? && entries[d.id].item.DishRead?
    ensures Delete(db, SubmenuKind, s).Ok?
    ensures var entries' := DroppedAll(entries, kwargs + [ListKey(SubmenuKind), s]);
      && Lookup(entries', d.id) == Some(One(ProjectDish(d)))
      && IsHit(Lookup(entries', d.id))
      && Current(Delete(db, SubmenuKind, s).value, DishKind, d.id) == None
      && !Coherent(Delete(db, SubmenuKind, s).value, entries')
  {
    CachedDishIsRow(db, entries, d);
    SubmenuDeleteDropsDish(db, s, d);
    ListKeysDistinct(SubmenuKind, SubmenuKind, d.id);
    assert d.id !in kwargs + [ListKey(SubmenuKind), s];
    var entries' := DroppedAll(entries, kwargs + [ListKey(SubmenuKind), s]);
    assert !FreshEntry(Delete(db, SubmenuKind, s).value, d.id, entries'[d.id]);
  }
}
