# Menu catalogue: cached CRUD services over a cascading store

This project models the core of a Menu → Submenu → Dish catalogue service.
The heart of it is the read-through / write-invalidate orchestrator
`BaseCRUDService`. One instance runs per entity kind, and all instances share
one key-value cache and one database session:

- `get` and `list` answer from the cache when it holds a truthy value. On a
  miss they load from the store, project the row with `process_db_data`, and
  cache the projection.
- `create`, `update` and `delete` delete a computed list of keys, and create
  and update overwrite the item's own key.

Around the orchestrator the model covers:

- the cache adapter (`get` / `set` / `delete`);
- the projections, in which a menu carries `submenus_count` and
  `dishes_count` and a submenu carries `dishes_count`;
- the per-kind list keys `"menus_list"`, `"submenus_list"` and
  `"dishes_list"`;
- the entity hierarchy, its foreign keys and its cascade-on-delete;
- the create and update schemas;
- the nested report `get_menus_report_data`;
- the row layout of the spreadsheet task `generate_menu_xlsx`.

Modules, one per component:

| module | file | models |
|---|---|---|
| `Wrappers` | wrappers.dfy | `Option` and `Result` |
| `Models` | models.dfy | the rows, the loaded relationships, the read dictionaries and the schemas of app/db/models.py |
| `Store` | store.dfy | the database (three tables in insertion order) with list, get, create, update and cascading delete. The adapter app/services/base_db_service.py is not part of this model, so the store is described abstractly, and its referential-integrity invariant `Valid` is proved preserved |
| `EntityServices` | entity_services.dfy | the `process_db_data` projections and the list keys |
| `CacheService` | cache_service.dfy | `BaseCacheService`: a class whose `entries` map is the shared cache, plus the functions `Lookup` / `Stored` / `Dropped` / `DroppedAll` that specify it |
| `CrudService` | crud_service.dfy | `BaseCRUDService` as a class over a `Cache` and a `Database` session. Each method states exactly the new cache map and store. The lemmas `CreateInvalidates`, `UpdateInvalidates` and `DeleteInvalidates` spell out which keys are present, absent or unchanged afterwards |
| `Coherence` | coherence.dfy | when the cache agrees with the store (`Coherent`: every cached item equals what a store read would project now); which writes keep that, and which do not |
| `Reports` | reports.dfy | `get_menus_report_data` |
| `Tasks` | tasks.dfy | the three nested loops of `generate_menu_xlsx`, writing into a sheet modelled as a map from (row, column) to a cell |
| `Scenarios` | scenarios.dfy | short client runs through the service classes that exhibit the observed behaviour |

Ids are UUIDs in canonical text form, so `str(item_id)` is the id itself, and
no list key has that form. The generated id of a create is a parameter of
`Create`.

## Model

| member | source | states |
|---|---|---|
| `Models.ValidateCreate` | app/db/models.py:160-163 | A create payload is accepted exactly when title and description are present and, for a dish, a price with at most two decimal places. A rejection names the missing or malformed field, and a too-precise price is rejected for dishes only. A price sent for a menu or submenu is dropped |
| `Models.ValidateUpdate` | app/db/models.py:172-175 | An update payload is rejected exactly when it is a dish update whose price has more than two decimal places. Every field is optional, and a price is kept only for dishes |
| `Models.DecimalPlaces` | app/db/models.py:163 | The decimal places of a text are 0 without a point or with a trailing point, and never more than its length |
| `Models.DecimalPlacesOfFraction` | app/db/models.py:163 | A text `whole.frac` with no point in `frac` has exactly `|frac|` decimal places, so `condecimal(decimal_places=2)` accepts it exactly when `frac` has at most two digits |
| `Models.PatchMenu` | app/db/models.py:54-58 | A patch replaces exactly the present fields and keeps the id |
| `Models.PatchSubmenu` | app/db/models.py:142-145 | A patch replaces exactly the present fields and keeps the id and the menu foreign key |
| `Models.PatchDish` | app/db/models.py:172-175 | A patch replaces exactly the present fields, the price included, and keeps the id and the submenu foreign key |
| `Store.LoadSubmenu` | app/db/models.py:98-101 | A loaded submenu's `dishes` are exactly the stored dishes naming it |
| `Store.LoadMenu` | app/db/models.py:64-67 | A loaded menu keeps its row, and its submenus are the stored submenus naming it, in store order, each loaded with its dishes |
| `Store.List` | app/services/base_crud_service.py:40 | A listing holds entities of the service's kind only: every stored menu loaded, in store order; the submenus (each loaded with its dishes) or the dishes, in store order, narrowed to the parent when one is passed |
| `Store.Get` | app/services/base_crud_service.py:53 | The entity read has the requested kind and id. The read fails with NotFound exactly when no row has the id |
| `Store.Create` | app/db/models.py:26-32 | A create succeeds exactly when the id is new and, for a submenu or a dish, the parent row exists (non-null foreign keys). The entity written has the generated id |
| `Store.Update` | app/services/base_crud_service.py:87 | An update succeeds exactly when the row exists, and otherwise fails with NotFound |
| `Store.Delete` | app/services/base_crud_service.py:102 | A delete succeeds exactly when the row exists, and otherwise fails with NotFound |
| `Store.CreateKeepsValid` | app/db/models.py:26-32 | A create keeps primary keys unique and every foreign key pointing at an existing row |
| `Store.UpdateKeepsValid` | app/db/models.py:96 | An update keeps primary keys unique and every foreign key pointing at an existing row |
| `Store.DeleteKeepsValid` | app/db/models.py:152-156 | After a delete, including its cascade, no submenu or dish is left orphaned |
| `Store.MenuDeleteCascades` | app/db/models.py:64-67 | Deleting a menu removes the menu, every submenu naming it and every dish under those submenus, and keeps every other row |
| `Store.SubmenuDeleteCascades` | app/db/models.py:98-101 | Deleting a submenu removes it and every dish naming it. The menus and every other row stay |
| `Store.SubmenusOfCount` | app/db/models.py:64-67 | `menu.submenus` has one element per submenu row naming the menu |
| `Store.DishesOfCount` | app/db/models.py:98-101 | `submenu.dishes` has one element per dish row naming the submenu |
| `Store.ListSubmenusOfMenu` | app/api/api_v1/endpoints/submenu.py:31 | A submenu listing narrowed to a menu holds a loaded submenu exactly when that submenu is a stored row of the menu |
| `Store.ListDishesOfSubmenu` | app/api/api_v1/endpoints/dish.py:21 | A dish listing narrowed to a submenu holds a dish exactly when it is a stored row of the submenu |
| `EntityServices.ProjectMenu` | app/services/menu.py:28-34 | The menu dictionary copies id, title and description. `submenus_count` is the number of submenus, and `dishes_count` is the number of dishes under them (0 and 0 for a menu without submenus) |
| `EntityServices.ProjectSubmenu` | app/services/submenu.py:32-35 | The submenu dictionary copies id, title, description and the menu foreign key, and `dishes_count` is the number of loaded dishes (`Coherence.SubmenuCountIsDishRows` ties it to the dish rows) |
| `EntityServices.ProjectDish` | app/services/base_crud_service.py:28-34 | The default projection copies every stored column of the dish, the price and the submenu foreign key included |
| `EntityServices.DishesTotalCountsAllDishes` | app/services/menu.py:31-33 | The summed per-submenu lengths equal the number of all dishes under the submenus |
| `EntityServices.MenuCountIsSumOfSubmenuCounts` | app/services/menu.py:31-33 | A menu's `dishes_count` is the sum of the `dishes_count`s its submenus project to |
| `EntityServices.DishesTotalReplace` | app/services/menu.py:31-33 | Replacing one submenu changes the total only by the change in that submenu's own dish count |
| `EntityServices.AddDishRaisesMenuCount` | app/services/menu.py:30-33 | Adding a dish to any one submenu raises `dishes_count` by exactly one and changes no other field |
| `EntityServices.Project` | app/services/base_crud_service.py:28-34 | Each kind's projection keeps the id and yields the read dictionary of that kind |
| `EntityServices.ProjectAll` | app/services/base_crud_service.py:41 | The projected list has one dictionary per entity, in order |
| `EntityServices.ListKey` | app/services/menu.py:51 | No list key has the form of an item key |
| `EntityServices.ListKeysDistinct` | app/services/submenu.py:53 | The three list keys are pairwise distinct, and none equals any id |
| `CacheService.Lookup` | app/services/base_cache_service.py:22-25 | `get` answers the stored value when the key is present, and None otherwise |
| `CacheService.Truthy` | app/services/base_crud_service.py:39 | A cached value is truthy exactly when it is not the empty list |
| `CacheService.Stored` | app/services/base_cache_service.py:17-20 | After `set(k, v)`, `k` reads back `v` (an old value is overwritten) and every other key reads as before |
| `CacheService.Dropped` | app/services/base_cache_service.py:27-29 | After `delete(k)`, `k` reads None and every other key reads as before. Deleting an absent key changes nothing |
| `CacheService.DroppedAll` | app/services/base_cache_service.py:27-29 | After deleting a list of keys, every listed key reads None and every other key reads as before |
| `CacheService.Cache.Set` | app/services/base_cache_service.py:17-20 | `set` updates the shared map as `Stored` says |
| `CacheService.Cache.Get` | app/services/base_cache_service.py:22-25 | `get` answers `Lookup` of the shared map and changes nothing |
| `CacheService.Cache.Delete` | app/services/base_cache_service.py:27-29 | `delete` updates the shared map as `Dropped` says |
| `CrudService.ParentRef` | app/api/api_v1/endpoints/dish.py:47 | A create has a parent exactly when a keyword value is passed, and the parent is the first keyword value |
| `CrudService.IsHit` | app/services/base_crud_service.py:52 | A cache answer is a hit exactly when a value is present and it is not the empty list |
| `CrudService.Database.List` | app/services/base_crud_service.py:40 | The session's list answers the store listing for the kind and filter |
| `CrudService.Database.Get` | app/services/base_crud_service.py:53 | The session's get answers the store read for the kind and id |
| `CrudService.Database.Create` | app/services/base_crud_service.py:68-71 | On success the session holds the written store and answers the entity; on a store error nothing changes |
| `CrudService.Database.Update` | app/services/base_crud_service.py:87 | On success the session holds the patched store and answers the entity; on NotFound nothing changes |
| `CrudService.Database.Delete` | app/services/base_crud_service.py:102 | On success the session holds the cascaded store; on NotFound nothing changes |
| `CrudService.CrudService.constructor` | app/services/menu.py:47-52 | A service is configured with its kind's list key over the shared cache and session |
| `CrudService.CrudService.List` | app/services/base_crud_service.py:36-43 | On a truthy cached list, the result is that list whatever the filter, and the cache is unchanged. Otherwise (key absent or empty list cached) the result is the projections of the filtered stored items in store order, and it is now cached under the list key |
| `CrudService.CrudService.Get` | app/services/base_crud_service.py:45-56 | On a hit, the result is the cached entry verbatim, without a store read, and the cache is unchanged. On a miss, the result is the projection of the stored entity, which is now cached under the id, or NotFound with the cache unchanged |
| `CrudService.CrudService.Create` | app/services/base_crud_service.py:58-76 | On success the cache is the old one with every keyword key and the list key deleted, then the new projection set under the new id, and the store is the written one. A store error changes nothing |
| `CrudService.CrudService.Update` | app/services/base_crud_service.py:78-91 | On success the new projection overwrites the id's key and the list key is deleted, with no other key touched. A store error changes nothing |
| `CrudService.CrudService.Delete` | app/services/base_crud_service.py:93-102 | Every keyword key, the list key and the id's key are deleted before the store delete runs, so they are gone even when the store answers NotFound. The store is the cascaded one on success |
| `CrudService.CreateInvalidates` | app/services/base_crud_service.py:73-75 | After create, the new id reads its projection, every keyword key and the list key read None, and every other key is unchanged |
| `CrudService.UpdateInvalidates` | app/services/base_crud_service.py:89-90 | After update, the id reads the new projection, the list key reads None, and every other key, an ancestor's included, is unchanged |
| `CrudService.DeleteInvalidates` | app/services/base_crud_service.py:100-101 | After delete, every keyword key, the list key and the id read None, and every other key is unchanged |
| `Coherence.Current` | app/services/base_crud_service.py:53-54 | A store read of an id yields a dictionary exactly when the row exists, with that id and kind |
| `Coherence.CoherentHitIsCurrent` | app/services/base_crud_service.py:51-52 | In a coherent cache, an item entry a `get` hits is what a store read of the id in the entry's kind projects now, and, with ids disjoint across tables, what the service's own store read would answer |
| `Coherence.GetMissKeepsCoherent` | app/services/base_crud_service.py:53-55 | Caching the projection on a `get` miss keeps a coherent cache coherent |
| `Coherence.UpdateKeepsDishCounts` | app/services/base_crud_service.py:87 | An update changes no submenu's number of dishes |
| `Coherence.UpdateKeepsSubmenuIds` | app/services/base_crud_service.py:87 | An update changes no menu's submenus, as far as their ids go |
| `Coherence.UpdateKeepsMenuProjection` | app/services/menu.py:28-34 | An update changes no menu's dictionary except through the menu's own row |
| `Coherence.UpdateKeepsOtherReads` | app/services/base_crud_service.py:87-91 | An update changes the store read of no entity other than the patched one |
| `Coherence.UpdateReadsBack` | app/services/base_crud_service.py:87-89 | After an update, a store read of the id yields the dictionary the update returned and cached |
| `Coherence.UpdateMenuReads` | app/services/base_crud_service.py:87-88 | An updated menu reads back as before with the given title and description patched in and both counts unchanged |
| `Coherence.UpdateSubmenuReads` | app/services/base_crud_service.py:87-88 | An updated submenu reads back as before with the given title and description patched in, its menu and `dishes_count` unchanged |
| `Coherence.UpdateDishReads` | app/services/base_crud_service.py:87-88 | An updated dish reads back as before with the given title, description and price patched in and its submenu unchanged |
| `Coherence.UpdateKeepsCoherent` | app/services/base_crud_service.py:78-91 | Update needs no ancestor invalidation: overwriting its own key and dropping the list key keeps a coherent cache coherent |
| `Coherence.LoadMenuDependsOnSubtree` | app/db/models.py:64-67 | A loaded menu depends only on its submenus and their dishes |
| `Coherence.CreateKeepsOtherReads` | app/services/base_crud_service.py:68-75 | A create changes the store read of no entity other than the new row and its ancestors |
| `Coherence.CreateReadsBack` | app/services/base_crud_service.py:68-75 | After a create, a store read of the new id yields the dictionary the create returned and cached |
| `Coherence.CreateMenuReads` | app/services/base_crud_service.py:68-72 | In a valid store a created menu reads back with the payload's title and description and counts 0 and 0 |
| `Coherence.CreateSubmenuReads` | app/services/base_crud_service.py:68-72 | In a valid store a created submenu reads back with the payload's title and description, the menu it was created under and `dishes_count` 0 |
| `Coherence.CreateDishReads` | app/services/base_crud_service.py:68-72 | A created dish reads back with the payload's title, description and price and the submenu it was created under |
| `Coherence.CreateKeepsCoherent` | app/services/base_crud_service.py:58-76 | Create keeps a coherent cache coherent when its keyword values name every ancestor of the new row |
| `Coherence.SubmenuCountIsDishRows` | app/services/submenu.py:32-35 | A submenu's `dishes_count` is the number of dish rows naming it |
| `Coherence.MenuCountIsSubmenuRows` | app/services/menu.py:30 | A menu's `submenus_count` is the number of submenu rows naming it |
| `Coherence.LoadedMenuGrows` | app/db/models.py:98-101 | Appending a dish grows exactly the loaded submenu it names, inside its menu |
| `Coherence.DishCreateRaisesSubmenuCount` | app/services/submenu.py:32-35 | A dish create raises its submenu's `dishes_count` by one and changes no other field of that dictionary |
| `Coherence.DishCreateRaisesMenuCount` | app/services/menu.py:30-33 | A dish create raises its menu's `dishes_count` by one and keeps `submenus_count` and the stored fields |
| `Coherence.DishCreateLeavesMenuStale` | app/api/api_v1/endpoints/dish.py:47 | A dish create with only the submenu id as keyword keeps the cached menu entry, whose `dishes_count` is now one less than a store read gives, so the cache is no longer coherent |
| `Coherence.ParentMenuUnique` | app/db/models.py:96 | In a valid store a submenu belongs to exactly one menu |
| `Coherence.DishCreateWithMenuKeepsCoherent` | app/api/api_v1/endpoints/dish.py:66-70 | A dish create whose keywords name the submenu and then the menu, as the dish delete endpoint does, keeps a coherent cache coherent |
| `Coherence.DeleteKeepsOtherReads` | app/services/base_crud_service.py:100-102 | A delete changes the store read of no entity other than the row, its ancestors and its cascaded descendants |
| `Coherence.DeleteReadsGone` | app/services/base_crud_service.py:102 | After a delete, a store read of the id is NotFound |
| `Coherence.DeleteKeepsCoherent` | app/services/base_crud_service.py:93-102 | Delete keeps a coherent cache coherent when its keyword values name every ancestor and every cached descendant of the row |
| `Coherence.SubmenuDeleteLeavesDishStale` | app/services/base_crud_service.py:100-101 | A submenu delete whose keywords do not name a cached dish of it keeps that dish's entry. A later `get` hits the entry although a store read says NotFound, so the cache is no longer coherent |
| `Reports.PriceText` | app/services/reports.py:26 | The price column is the decimal's own text, or "None" for a dish stored without a price |
| `Reports.SubmenuEntry` | app/services/reports.py:19-30 | A submenu record keeps title and description and holds one dish record per dish, in order, with title, description and the price as a string |
| `Reports.MenuEntry` | app/services/reports.py:15-33 | A menu record keeps title and description and holds one submenu record per submenu, in order |
| `Reports.ReportData` | app/services/reports.py:14-35 | One menu record per loaded menu, in order |
| `Reports.LoadedMenus` | app/services/reports.py:13 | The store's menus, in store order, each loaded with its subtree |
| `Reports.LoadedMenusAreListed` | app/services/reports.py:13 | The report loads the same menus, position by position, as the menu service's unfiltered listing |
| `Reports.GetMenusReportData` | app/services/reports.py:7-36 | One record per stored menu in store order, carrying the menu's title and description. Its submenu records mirror the menu's submenus in store order, and each holds one dish record per dish of the submenu, in store order, with the dish's title, description and price text |
| `Reports.SubmenuRecordsCountDishes` | app/services/reports.py:18-31 | The submenu records of a menu hold as many dish records as its submenus hold dishes |
| `Reports.MenuEntryAgreesWithProjection` | app/services/reports.py:18-31 | A menu record holds `submenus_count` submenu records and `dishes_count` dish records |
| `Reports.ReportCountsAllDishes` | app/services/reports.py:18-31 | The report holds as many dish records as the sum of all menus' `dishes_count`s |
| `Tasks.StyleRow` | app/tasks/tasks.py:26-28 | All six cells of the row receive the style with the grey fill exactly when asked (assigning a named style replaces any earlier fill), and no other cell changes |
| `Tasks.WriteMenuRow` | app/tasks/tasks.py:26-31 | A menu row: header style with grey fill on all six columns, then index, title and description in columns 1-3, and nothing else written |
| `Tasks.WriteSubmenuRow` | app/tasks/tasks.py:35-39 | A submenu row: bold style on all six columns, then index, title and description in columns 2-4, and nothing else written |
| `Tasks.WriteDishRow` | app/tasks/tasks.py:43-48 | A dish row: base style on all six columns, then index, title, description and price in columns 3-6, and nothing else written |
| `Tasks.ShowsNextRow` | app/tasks/tasks.py:33 | Writing the row after the last one extends the rows the sheet shows by exactly that line |
| `Tasks.WriteDishes` | app/tasks/tasks.py:42-49 | The dish loop appends one row per dish, numbered from 1, right after the rows already written, and the cursor ends one past them |
| `Tasks.WriteSubmenus` | app/tasks/tasks.py:34-49 | The submenu loop appends each submenu row followed by its dish rows, and the cursor ends one past them |
| `Tasks.GenerateMenuXlsx` | app/tasks/tasks.py:10-52 | The sheet shows exactly the pre-order layout from row 1 with no gap and nothing beyond column 6. The task returns its id, and the file is named "<task id>.xlsx" |
| `Tasks.Layout` | app/tasks/tasks.py:25-31 | A non-empty report starts the sheet with the first menu's row, numbered 1 |
| `Tasks.LayoutMenuRows` | app/tasks/tasks.py:25-31 | The menu rows of the sheet are one per report record, in order, numbered from 1 with each menu's title and description |
| `Tasks.LayoutLength` | app/tasks/tasks.py:19-49 | The layout has one row per menu, per submenu and per dish, so the cursor ends at 1 plus that count |
| `Scenarios.MenuWithSubmenu` | app/services/base_crud_service.py:73-75 | After creating a menu and a submenu under it through the services, the store holds exactly those rows. Neither the menu's key nor the submenu list key is cached |
| `Scenarios.DishCreateKeepsStaleMenu` | app/api/api_v1/endpoints/dish.py:47 | Getting a menu, then creating a dish under its submenu as the dish endpoint does, then getting the menu again answers the old counts (1, 0), while a store read gives (1, 1) |
| `Scenarios.ListIgnoresFilter` | app/services/base_crud_service.py:38-42 | Listing the submenus of a second menu, after those of the first were listed, answers the first menu's list, although the second menu has no submenus |

## Left out

- The HTTP layer (routers, status codes, path-parameter extraction and the endpoints' own response builders) is left out. The endpoints are used only to learn which keyword values each operation receives.
- app/services/base_db_service.py is not part of this model. The store is an abstract three-table database whose list order is insertion order.
- app/crud/ is left out: thin wrappers over code that is not part of this model.
- `parse_obj` field filtering is left out. The projections are the dictionaries `process_db_data` builds, counts included, even where `MenuRead` has the count fields commented out (app/db/models.py:79).
- JSON encoding and decoding are left out. `jsonable_encoder` followed by `json.loads` is taken to be the identity on the values cached.
- Redis expiry (`REDIS_CACHE_TIME`) is left out: it is time-based, so an entry stays until it is overwritten or deleted.
- Concurrency and async scheduling are left out: operations run one after another.
- Decimal price arithmetic is left out. A price is its decimal text, and `str(None)` is "None" for a dish stored without one.
- `Models.DecimalPlaces`: counts the digits after the point of a plain decimal text. Exponent notation (`1E-3`), which `Decimal` also parses, is not modelled, nor is pydantic's rejection of text that is not a number.
- The `Submenu.__init__` and async `dishes_count` setter (app/db/models.py:92-110) are left out.
- Workbook styles are reduced to tags. Column widths, the sheet title and `wb.save` are left out. The Celery task id is a parameter.
- `get_task_info`, the Celery machinery and the data loader are left out.
- `CrudService.ParentRef`: the store's create takes its foreign key from the first keyword value. Every create call site passes at most one keyword, so what the database adapter does with further keywords is not modelled. `Coherence.DishCreateWithMenuKeepsCoherent` passes the submenu id and then the menu id, and so assumes the adapter takes the dish's foreign key from the first and ignores `menu_id`.
- `Coherence.CoherentHitIsCurrent`: ties a hit to the service's own kind only when ids are disjoint across tables (`Store.DisjointIds`), which `Store.Valid` does not demand; the cache key carries no kind, so otherwise a hit answers an entity of another kind with that id.
- `Coherence.Coherent`: constrains item entries only. A list entry's key ignores the filter it was built with, so no write could keep list entries exact, and `Scenarios.ListIgnoresFilter` shows the consequence.
- `Coherence.DeleteKeepsCoherent`: requires every cached descendant of the deleted row among the keyword values. The endpoints pass ancestors only, and `Coherence.SubmenuDeleteLeavesDishStale` shows what goes stale otherwise.

## Findings

| source | as written | input that shows it | evidently intended | confidence | as-written member | corrected member |
|---|---|---|---|---|---|---|
| app/api/api_v1/endpoints/dish.py:47 | The dish create passes only `submenu_id`, so the parent menu's cached entry is not deleted | Get the menu (cached with `dishes_count` 0), create a dish in its submenu, get the menu again: the menu's key was not deleted, so the answer is the entry cached before the create. In the model, which keeps the counts (see the `parse_obj` line under Left out), that entry still says `dishes_count` 0. The source's `MenuRead` (app/db/models.py:76-80) drops the counts, so as written the wrong count is latent and would show once `MenuRead` carries its counts again (app/db/models.py:79) | That create also passes `menu_id`, as the dish delete endpoint does (dish.py:66-70), so the menu's entry reflects the new dish | not executed | `Coherence.DishCreateLeavesMenuStale` | `Coherence.DishCreateWithMenuKeepsCoherent` |
| app/services/base_crud_service.py:100-101 | Delete removes the keys of the row, the keyword values and the list only, so the rows its cascade removes stay cached | Create a dish (its entry is cached by create), delete its submenu, get the dish: the cached dish is answered instead of NotFound | The cascaded rows' cached entries are deleted as well, so a get of a removed dish answers NotFound | not executed | `Coherence.SubmenuDeleteLeavesDishStale` | `Coherence.DeleteKeepsCoherent` |
