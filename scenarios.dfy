/**
  Client runs of the orchestrator over a fresh cache and an empty store,
  driven the way the endpoints of app/api/api_v1/endpoints/ drive it: one
  service per kind, all sharing the cache and the session. Ids and fields are
  arbitrary; the generated ids are pairwise distinct.
*/
module Scenarios {
  import opened Wrappers
  import opened Models
  import opened Store
  import opened EntityServices
  import opened CacheService
  import opened CrudService
  import Coherence

  lemma KeySetOne<R>(x: R, key: R -> Uuid)
    ensures KeySet([x], key) == {key(x)}
  {
    assert key([x][0]) in KeySet([x], key);
  }

  lemma SelectOne<R(!new)>(x: R, keep: R -> bool)
    ensures Select([x], keep) == if keep(x) then [x] else []
  {
    SelectAppendOne([], x, keep);
    assert [] + [x] == [x];
  }

  // ------------------------------------------------------- store states

  /** The store after a menu was created in the empty store. */
  lemma MenuCreated(mid: Uuid, fm: Fields)
    ensures var m := MenuRow(mid, fm.title, fm.description);
      Store.Create(Db([], [], []), MenuKind, mid, fm, None)
        == Ok(Written(Db([m], [], []), MenuEntity(LoadMenu(Db([m], [], []), m))))
  {
    var m := MenuRow(mid, fm.title, fm.description);
    assert [] + [m] == [m];
  }

  /** The store after a submenu was created under the only menu. */
  lemma SubmenuCreated(mid: Uuid, sid: Uuid, fm: Fields, fs: Fields)
    ensures var m := MenuRow(mid, fm.title, fm.description);
      var s := SubmenuRow(sid, fs.title, fs.description, mid);
      Store.Create(Db([m], [], []), SubmenuKind, sid, fs, Some(mid))
        == Ok(Written(Db([m], [s], []), SubmenuEntity(LoadSubmenu(Db([m], [s], []), s))))
  {
    var m := MenuRow(mid, fm.title, fm.description);
    var s := SubmenuRow(sid, fs.title, fs.description, mid);
    KeySetOne(m, MenuKeyOf);
    assert [] + [s] == [s];
  }

  /** The store after a dish was created under the only submenu. */
  lemma DishCreated(mid: Uuid, sid: Uuid, did: Uuid, fm: Fields, fs: Fields, fd: Fields)
    ensures var m := MenuRow(mid, fm.title, fm.description);
      var s := SubmenuRow(sid, fs.title, fs.description, mid);
      var d := DishRow(did, fd.title, fd.description, fd.price, sid);
      Store.Create(Db([m], [s], []), DishKind, did, fd, Some(sid))
        == Ok(Written(Db([m], [s], [d]), DishEntity(d)))
  {
    var s := SubmenuRow(sid, fs.title, fs.description, mid);
    var d := DishRow(did, fd.title, fd.description, fd.price, sid);
    KeySetOne(s, SubmenuKeyOf);
    assert [] + [d] == [d];
  }

  /** The store after a second menu was created beside the first. */
  lemma SecondMenuCreated(m1: Uuid, m2: Uuid, sid: Uuid, f1: Fields, f2: Fields, fs: Fields)
    requires m1 != m2
    ensures var r1 := MenuRow(m1, f1.title, f1.description);
      var r2 := MenuRow(m2, f2.title, f2.description);
      var s := SubmenuRow(sid, fs.title, fs.description, m1);
      && Store.Create(Db([r1], [s], []), MenuKind, m2, f2, None).Ok?
      && Store.Create(Db([r1], [s], []), MenuKind, m2, f2, None).value.db == Db([r1, r2], [s], [])
  {
    var r1 := MenuRow(m1, f1.title, f1.description);
    var r2 := MenuRow(m2, f2.title, f2.description);
    KeySetOne(r1, MenuKeyOf);
    assert [r1] + [r2] == [r1, r2];
  }

  // ---------------------------------------------------------- store reads

  /** A store `get` of the only menu loads it with its submenus. */
  lemma GetOnlyMenu(db: Db, m: MenuRow)
    requires db.menus == [m]
    ensures Store.Get(db, MenuKind, m.id) == Ok(MenuEntity(LoadMenu(db, m)))
  {
    assert IndexOf(db.menus, MenuKeyOf, m.id) == Some(0);
  }

  /** A menu whose only submenu is the store's only submenu loads with it. */
  lemma LoadOnlySubmenu(db: Db, m: MenuRow, s: SubmenuRow)
    requires db.submenus == [s] && s.menuId == m.id
    ensures LoadMenu(db, m) == LoadedMenu(m, [LoadSubmenu(db, s)])
  {
    SelectOne(s, InMenu(m.id));
    assert SubmenusOf(db, m.id) == [s];
    var l := LoadSubmenus(db, [s]);
    assert |l| == 1 && l[0] == LoadSubmenu(db, s);
    assert l == [LoadSubmenu(db, s)];
  }

  /** A menu with one submenu projects to that submenu's dish count. */
  lemma ProjectOneSubmenu(m: MenuRow, ls: LoadedSubmenu)
    ensures ProjectMenu(LoadedMenu(m, [ls])) == MenuRead(m.id, m.title, m.description, 1, |ls.dishes|)
  {
    assert AllDishes([ls]) == ls.dishes + AllDishes([]);
  }

  /** A store read of the menu while its submenu has no dish. */
  lemma MenuReadBefore(mid: Uuid, sid: Uuid, fm: Fields, fs: Fields)
    ensures var m := MenuRow(mid, fm.title, fm.description);
      var s := SubmenuRow(sid, fs.title, fs.description, mid);
      && Store.Get(Db([m], [s], []), MenuKind, mid).Ok?
      && Project(Store.Get(Db([m], [s], []), MenuKind, mid).value) == MenuRead(mid, fm.title, fm.description, 1, 0)
  {
    var m := MenuRow(mid, fm.title, fm.description);
    var s := SubmenuRow(sid, fs.title, fs.description, mid);
    var db := Db([m], [s], []);
    GetOnlyMenu(db, m);
    LoadOnlySubmenu(db, m, s);
    ProjectOneSubmenu(m, LoadSubmenu(db, s));
  }

  /** A store read of the menu once its submenu holds the dish. */
  lemma MenuReadAfter(mid: Uuid, sid: Uuid, did: Uuid, fm: Fields, fs: Fields, fd: Fields)
    ensures var m := MenuRow(mid, fm.title, fm.description);
      var s := SubmenuRow(sid, fs.title, fs.description, mid);
      var d := DishRow(did, fd.title, fd.description, fd.price, sid);
      && Store.Get(Db([m], [s], [d]), MenuKind, mid).Ok?
      && Project(Store.Get(Db([m], [s], [d]), MenuKind, mid).value) == MenuRead(mid, fm.title, fm.description, 1, 1)
  {
    var m := MenuRow(mid, fm.title, fm.description);
    var s := SubmenuRow(sid, fs.title, fs.description, mid);
    var d := DishRow(did, fd.title, fd.description, fd.price, sid);
    var db := Db([m], [s], [d]);
    GetOnlyMenu(db, m);
    LoadOnlySubmenu(db, m, s);
    SelectOne(d, InSubmenu(sid));
    ProjectOneSubmenu(m, LoadSubmenu(db, s));
  }

  /** The submenus a filtered store read finds under each of two menus when
      the only submenu is under the first. */
  lemma FilteredSubmenus(db: Db, m1: Uuid, m2: Uuid, s: SubmenuRow)
    requires db.submenus == [s] && db.dishes == [] && s.menuId == m1 && m1 != m2
    ensures ProjectAll(Store.List(db, SubmenuKind, Some(m1))) == [SubmenuRead(s.id, s.title, s.description, m1, 0)]
    ensures ProjectAll(Store.List(db, SubmenuKind, Some(m2))) == []
  {
    SelectOne(s, InMenu(m1));
    SelectOne(s, InMenu(m2));
    assert LoadSubmenu(db, s) == LoadedSubmenu(s, []);
    assert Store.List(db, SubmenuKind, Some(m1)) == [SubmenuEntity(LoadedSubmenu(s, []))];
  }

  // ------------------------------------------------------------ client runs

  /** A fresh cache and session after a menu and a submenu under it were
      created through their services: neither the menu nor the submenu list
      is cached. */
  method MenuWithSubmenu(mid: Uuid, sid: Uuid, fm: Fields, fs: Fields)
    returns (cache: Cache, store: Database, menus: CrudService, submenus: CrudService)
    requires mid != sid
    ensures fresh(cache) && fresh(store)
    ensures menus.kind == MenuKind && menus.itemsCacheList == ListKey(MenuKind)
    ensures menus.cache == cache && menus.store == store
    ensures submenus.kind == SubmenuKind && submenus.itemsCacheList == ListKey(SubmenuKind)
    ensures submenus.cache == cache && submenus.store == store
    ensures store.db == Db([MenuRow(mid, fm.title, fm.description)], [SubmenuRow(sid, fs.title, fs.description, mid)], [])
    ensures Lookup(cache.entries, mid) == None
    ensures Lookup(cache.entries, ListKey(SubmenuKind)) == None
  {
    cache := new Cache();
    store := new Database();
    menus := new CrudService(MenuKind, cache, store);
    submenus := new CrudService(SubmenuKind, cache, store);
    MenuCreated(mid, fm);
    SubmenuCreated(mid, sid, fm, fs);
    var m := menus.Create(fm, [], mid);
    var s := submenus.Create(fs, [mid], sid);
    assert [mid] + [ListKey(SubmenuKind)] == [mid, ListKey(SubmenuKind)];
  }

  /** A dish created with the submenu id as its only keyword value (as the
      dish endpoint does) does not delete the menu's key, so `get` of the
      menu answers the entry cached before the create. In this model the
      projection keeps its counts, so that entry says no dishes while a store
      read would now show one; the source's `MenuRead` drops the counts, so
      there the stale count would appear once `MenuRead` carries them. */
  method DishCreateKeepsStaleMenu(mid: Uuid, sid: Uuid, did: Uuid, fm: Fields, fs: Fields, fd: Fields)
    returns (before: Result<Value, StoreError>, after: Result<Value, StoreError>, stored: Option<Read>)
    requires mid != sid && mid != did && sid != did
    ensures before == Ok(One(MenuRead(mid, fm.title, fm.description, 1, 0)))
    ensures after == before
    ensures stored == Some(MenuRead(mid, fm.title, fm.description, 1, 1))
  {
    var cache, store, menus, _ := MenuWithSubmenu(mid, sid, fm, fs);
    MenuReadBefore(mid, sid, fm, fs);
    before := menus.Get(mid);
    assert Lookup(cache.entries, mid) == Some(before.value);
    var dishes := new CrudService(DishKind, cache, store);
    DishCreated(mid, sid, did, fm, fs, fd);
    ListKeysDistinct(DishKind, DishKind, mid);
    ghost var cached := cache.entries;
    var d := dishes.Create(fd, [sid], did);
    CreateInvalidates(cached, [sid], ListKey(DishKind), did, One(d.value));
    assert Lookup(cache.entries, mid) == Some(before.value);
    after := menus.Get(mid);
    MenuReadAfter(mid, sid, did, fm, fs, fd);
    stored := Coherence.Current(store.db, MenuKind, mid);
  }

  /** The submenu list cache key ignores the menu filter: once the submenus
      of the first menu have been listed, listing the submenus of a second
      menu answers the same list, although the second menu has none. */
  method ListIgnoresFilter(m1: Uuid, m2: Uuid, sid: Uuid, f1: Fields, f2: Fields, fs: Fields)
    returns (first: Value, second: Value, stored: seq<Read>)
    requires m1 != m2 && m1 != sid && m2 != sid
    ensures first == Many([SubmenuRead(sid, fs.title, fs.description, m1, 0)])
    ensures second == first
    ensures stored == []
  {
    var cache, store, menus, submenus := MenuWithSubmenu(m1, sid, f1, fs);
    SecondMenuCreated(m1, m2, sid, f1, f2, fs);
    ListKeysDistinct(MenuKind, SubmenuKind, m2);
    var b := menus.Create(f2, [], m2);
    assert Lookup(cache.entries, ListKey(SubmenuKind)) == None;
    var s := SubmenuRow(sid, fs.title, fs.description, m1);
    FilteredSubmenus(store.db, m1, m2, s);
    first := submenus.List(Some(m1));
    assert IsHit(Lookup(cache.entries, ListKey(SubmenuKind)));
    second := submenus.List(Some(m2));
    stored := ProjectAll(Store.List(store.db, SubmenuKind, Some(m2)));
  }
}
