/**
  The read-through / write-invalidate orchestrator of
  app/services/base_crud_service.py. One service per entity kind shares a
  cache and a database session with the others; `get` and `list` fill the
  cache on a miss, `create`, `update` and `delete` delete a computed list of
  keys and, for create and update, overwrite the item's own key.
*/
module CrudService {
  import opened Wrappers
  import opened Models
  import opened Store
  import opened EntityServices
  import opened CacheService

  // ------------------------------------------------------------ the session

  /** The database session every service shares; each operation is one call
      of the adapter. */
  class Database {
    var db: Db

    constructor ()
      ensures db == Db([], [], [])
    {
      db := Db([], [], []);
    }

    method List(kind: Kind, parent: Option<Uuid>) returns (es: seq<Entity>)
      ensures es == Store.List(db, kind, parent)
    {
      es := Store.List(db, kind, parent);
    }

    method Get(kind: Kind, id: Uuid) returns (r: Result<Entity, StoreError>)
      ensures r == Store.Get(db, kind, id)
    {
      r := Store.Get(db, kind, id);
    }

    method Create(kind: Kind, id: Uuid, f: Fields, parent: Option<Uuid>) returns (r: Result<Entity, StoreError>)
      modifies this
      ensures var w := Store.Create(old(db), kind, id, f, parent);
        if w.Ok? then r == Ok(w.value.entity) && db == w.value.db
        else r == Err(w.error) && db == old(db)
    {
      var w := Store.Create(db, kind, id, f, parent);
      if w.Ok? {
        db := w.value.db;
        r := Ok(w.value.entity);
      } else {
        r := Err(w.error);
      }
    }

    method Update(kind: Kind, id: Uuid, p: Patch) returns (r: Result<Entity, StoreError>)
      modifies this
      ensures var w := Store.Update(old(db), kind, id, p);
        if w.Ok? then r == Ok(w.value.entity) && db == w.value.db
        else r == Err(w.error) && db == old(db)
    {
      var w := Store.Update(db, kind, id, p);
      if w.Ok? {
        db := w.value.db;
        r := Ok(w.value.entity);
      } else {
        r := Err(w.error);
      }
    }

    method Delete(kind: Kind, id: Uuid) returns (r: Result<(), StoreError>)
      modifies this
      ensures var w := Store.Delete(old(db), kind, id);
        if w.Ok? then r == Ok(()) && db == w.value
        else r == Err(w.error) && db == old(db)
    {
      var w := Store.Delete(db, kind, id);
      if w.Ok? {
        db := w.value;
        r := Ok(());
      } else {
        r := Err(w.error);
      }
    }
  }

  /** A cached value counts as a hit only when it is truthy. */
  predicate IsHit(o: Option<Value>): (b: bool)
    ensures b <==> o.Some? && o.value != Many([])
  {
    o.Some? && Truthy(o.value)
  }

  /** The parent the store's `create(**kwargs)` fills the foreign key from:
      every call site passes at most one keyword, the parent's id. */
  function ParentRef(kwargs: seq<Uuid>): (r: Option<Uuid>)
    ensures r.Some? <==> |kwargs| > 0
    ensures r.Some? ==> r.value == kwargs[0]
  {
    if kwargs == [] then None else Some(kwargs[0])
  }

  /** `BaseCRUDService` configured for one entity kind. */
  class CrudService {
    const kind: Kind
    const itemsCacheList: string
    const cache: Cache
    const store: Database

    /** `get_menu_service`, `get_submenu_service`, `get_dish_service`. */
    constructor (kind: Kind, cache: Cache, store: Database)
      ensures this.kind == kind && this.itemsCacheList == ListKey(kind)
      ensures this.cache == cache && this.store == store
    {
      this.kind := kind;
      this.itemsCacheList := ListKey(kind);
      this.cache := cache;
      this.store := store;
    }

    /** `list(**kwargs)`: the cached list when one is cached and non-empty
        (whatever filter the caller passes), otherwise the projections of the
        stored items, which are then cached under the list key. */
    method List(parent: Option<Uuid>) returns (items: Value)
      modifies cache
      ensures var hit := Lookup(old(cache.entries), itemsCacheList);
        if IsHit(hit) then
          items == hit.value && cache.entries == old(cache.entries)
        else
          && items == Many(ProjectAll(Store.List(store.db, kind, parent)))
          && cache.entries == Stored(old(cache.entries), itemsCacheList, items)
    {
      var cached := cache.Get(itemsCacheList);
      if IsHit(cached) {
        items := cached.value;
      } else {
        var objList := store.List(kind, parent);
        items := Many(ProjectAll(objList));
        cache.Set(itemsCacheList, items);
      }
    }

    /** `get(item_id)`: the cached entry verbatim on a hit; on a miss the
        projection of the stored entity, which is then cached under the id,
        or the store's NotFound with the cache untouched. */
    method Get(itemId: Uuid) returns (r: Result<Value, StoreError>)
      modifies cache
      ensures var hit := Lookup(old(cache.entries), itemId);
        if IsHit(hit) then
          r == Ok(hit.value) && cache.entries == old(cache.entries)
        else match Store.Get(store.db, kind, itemId)
          case Ok(e) =>
            && r == Ok(One(Project(e)))
            && cache.entries == Stored(old(cache.entries), itemId, One(Project(e)))
          case Err(err) =>
            r == Err(err) && cache.entries == old(cache.entries)
    {
      var cached := cache.Get(itemId);
      if IsHit(cached) {
        r := Ok(cached.value);
      } else {
        var obj := store.Get(kind, itemId);
        if obj.Err? {
          return Err(obj.error);
        }
        var item := One(Project(obj.value));
        cache.Set(itemId, item);
        r := Ok(item);
      }
    }

    /** `create(schema, **kwargs)`: the store writes the row with the generated
        id `newId`; then every keyword value's key and the list key are
        deleted and the new projection is cached under its id. A store error
        leaves the cache as it was. */
    method Create(fields: Fields, kwargs: seq<Uuid>, newId: Uuid) returns (r: Result<Read, StoreError>)
      modifies cache, store
      ensures var w := Store.Create(old(store.db), kind, newId, fields, ParentRef(kwargs));
        if w.Err? then
          r == Err(w.error) && store.db == old(store.db) && cache.entries == old(cache.entries)
        else
          && r == Ok(Project(w.value.entity))
          && store.db == w.value.db
          && cache.entries == Stored(DroppedAll(old(cache.entries), kwargs + [itemsCacheList]), newId, One(r.value))
    {
      var obj := store.Create(kind, newId, fields, ParentRef(kwargs));
      if obj.Err? {
        return Err(obj.error);
      }
      var item := Project(obj.value);
      var keys: seq<string> := kwargs + [itemsCacheList];
      ghost var written := store.db;
      var i := 0;
      while i < |keys|
        invariant 0 <= i <= |keys|
        invariant cache.entries == DroppedAll(old(cache.entries), keys[..i])
        invariant store.db == written
      {
        assert keys[..i + 1][..i] == keys[..i];
        cache.Delete(keys[i]);
        i := i + 1;
      }
      assert keys[..i] == keys;
      cache.Set(obj.value.Id(), One(item));
      r := Ok(item);
    }

    /** `update(item_id, schema)`: the store patches the row; the new
        projection overwrites the item's key and the list key is deleted. No
        other key, in particular no ancestor's, is touched. */
    method Update(itemId: Uuid, patch: Patch) returns (r: Result<Read, StoreError>)
      modifies cache, store
      ensures var w := Store.Update(old(store.db), kind, itemId, patch);
        if w.Err? then
          r == Err(w.error) && store.db == old(store.db) && cache.entries == old(cache.entries)
        else
          && r == Ok(Project(w.value.entity))
          && store.db == w.value.db
          && cache.entries == Dropped(Stored(old(cache.entries), itemId, One(r.value)), itemsCacheList)
    {
      var obj := store.Update(kind, itemId, patch);
      if obj.Err? {
        return Err(obj.error);
      }
      var item := Project(obj.value);
      cache.Set(itemId, One(item));
      cache.Delete(itemsCacheList);
      r := Ok(item);
    }

    /** `delete(item_id, **kwargs)`: every keyword value's key, the list key
        and the item's key are deleted first, then the store deletes (with its
        cascade). The keys are gone even when the store answers NotFound. */
    method Delete(itemId: Uuid, kwargs: seq<Uuid>) returns (r: Result<(), StoreError>)
      modifies cache, store
      ensures cache.entries == DroppedAll(old(cache.entries), kwargs + [itemsCacheList, itemId])
      ensures var w := Store.Delete(old(store.db), kind, itemId);
        if w.Ok? then r == Ok(()) && store.db == w.value
        else r == Err(w.error) && store.db == old(store.db)
    {
      var keys: seq<string> := kwargs + [itemsCacheList, itemId];
      var i := 0;
      while i < |keys|
        invariant 0 <= i <= |keys|
        invariant cache.entries == DroppedAll(old(cache.entries), keys[..i])
        invariant unchanged(store)
      {
        assert keys[..i + 1][..i] == keys[..i];
        cache.Delete(keys[i]);
        i := i + 1;
      }
      assert keys[..i] == keys;
      r := store.Delete(kind, itemId);
    }
  }

  // ------------------------------------------- what each write leaves behind

  /** After `create`: the new id reads back as its projection, every keyword
      value's key and the list key are absent (unless one of them is the new
      id), and every other key keeps its previous value. */
  lemma CreateInvalidates(entries: map<string, Value>, kwargs: seq<Uuid>, listKey: string, newId: Uuid, v: Value)
    ensures var e := Stored(DroppedAll(entries, kwargs + [listKey]), newId, v);
      && Lookup(e, newId) == Some(v)
      && (forall k | (k in kwargs || k == listKey) && k != newId :: Lookup(e, k) == None)
      && (forall k | k !in kwargs && k != listKey && k != newId :: Lookup(e, k) == Lookup(entries, k))
  {
    assert forall k | k in kwargs || k == listKey :: k in kwargs + [listKey];
  }

  /** After `update`: the item's key reads back as its new projection, the
      list key is absent, and every other key (an ancestor's included) keeps
      its previous value. */
  lemma UpdateInvalidates(entries: map<string, Value>, itemId: Uuid, kind: Kind, v: Value)
    ensures var e := Dropped(Stored(entries, itemId, v), ListKey(kind));
      && Lookup(e, itemId) == Some(v)
      && Lookup(e, ListKey(kind)) == None
      && (forall k | k != itemId && k != ListKey(kind) :: Lookup(e, k) == Lookup(entries, k))
  {
    ListKeysDistinct(kind, kind, itemId);
  }

  /** After `delete`, whatever the store answered: every keyword value's key,
      the list key and the item's key are absent, and every other key keeps
      its previous value. */
  lemma DeleteInvalidates(entries: map<string, Value>, kwargs: seq<Uuid>, listKey: string, itemId: Uuid)
    ensures var e := DroppedAll(entries, kwargs + [listKey, itemId]);
      && (forall k | k in kwargs || k == listKey || k == itemId :: Lookup(e, k) == None)
      && (forall k | k !in kwargs && k != listKey && k != itemId :: Lookup(e, k) == Lookup(entries, k))
  {
    assert forall k | k in kwargs || k == listKey || k == itemId :: k in kwargs + [listKey, itemId];
  }
}
