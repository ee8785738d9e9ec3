# LuaSTG resource-pool registry, modelled in Dafny

This project models `luastg::ResourceMgr`, the registry that owns LuaSTG's
loaded assets. The registry holds two built-in pools, `global` and `stage`,
and a map of named custom pools. It tracks an optional active custom pool,
with its name, and the active built-in pool type. It resolves a bare
resource name through a fixed precedence order.

The model is functional. A `Registry` is an immutable record, and every
operation is a pure transition function. A call that returns `bool` in the
source returns a `Step`: that boolean and the new registry. The `void` calls
`ClearAllResource` and `SetActivedPoolType` return the new registry alone.

- `resource_pool.dfy` (module `ResourcePool`): the ten resource kinds, opaque
  resource ids (a texture id carries its pixel size), pool identity and role,
  and one name-to-id table per kind.
- `resource_manager.dfy` (module `ResourceManager`): the registry state and
  its invariant `Valid`. It also holds pool creation, removal, lookup by
  name, active-pool selection, the reset `ClearAllResource`, and `EnumPools`.
- `resource_lookup.dfy` (module `ResourceLookup`): one generic `Find(kind, name)`
  standing for all ten `FindTexture` ... `FindModel` functions. It also holds
  `GetTextureSize`, `CacheTTFFontString`, and the precedence lemmas.
- `registry_properties.dfy` (module `RegistryProperties`): lemmas that relate
  several operations. They cover the invariant over any call sequence, the
  create/remove round trip, idempotence, and how selection and removal steer
  the lookup.

Modelling choices:

- Pool pointers become pool ids (`PoolId`). The built-in pools have ids 0 and
  1. Each new custom pool takes an id from the counter `nextId`. That id is
  distinct from every live pool's, and ids are never reused. The source
  compares pointers
  in `RemovePool` (line 43) and in the fallback scan (line 179); the model
  compares ids in the same places.
- The custom pools live in a `std::unordered_map`, whose iteration order is
  unspecified. The model keeps a `map<string, Pool>`. Every operation that
  iterates it takes an `order: seq<string>` that lists each key exactly once
  (`IsOrderOf`). Every property is stated for all such orders, except the
  tie witness `FindOrderDecidesTie`, which states that two orders exist.
  `FindOrderIndependent` proves that the order cannot change a lookup's result
  unless inactive custom pools hold different entries under the name.
  `FindOrderDecidesTie` proves
  the converse for every registry. Suppose the active, stage and global pools
  all miss, and two inactive custom pools hold different entries under the
  name. Then each of the two entries is the result for some iteration order.
- `ResourcePoolType::None` is spelt `NoneType`, to avoid a clash with
  `Option.None`.
- The image-scale factor is a `real`.
- No modelled operation loads a resource, so every registry reachable from
  `Init` has empty pools. The invariant `Valid` reads no pool's tables. So
  `ReachableValid` would still hold with loads added, and the lookup lemmas
  are stated for every valid registry, whatever its pools hold.

## Model

| member | source | states |
|---|---|---|
| ResourceManager.Init | LuaSTG/LuaSTG/GameResource/ResourceManager.cpp:5-9 | a new registry has empty built-in pools, no custom pool and no active custom pool; the active built-in type is `t` and the scale factor is `scale`; the registry invariant holds |
| ResourceManager.CreatePool | LuaSTG/LuaSTG/GameResource/ResourceManager.cpp:13-31 | succeeds exactly when the name is non-empty, not "global"/"stage" and unused; failure changes nothing; success adds exactly one new empty pool under that name with an id no existing pool has, and leaves every other pool, the active pool and the active type unchanged; the invariant is preserved |
| ResourceManager.RemovePool | LuaSTG/LuaSTG/GameResource/ResourceManager.cpp:33-52 | succeeds exactly for a non-empty known name; failure changes nothing; success removes exactly that key; removing the active pool leaves no active custom pool and an empty active name, removing another leaves the active pool as it was; the invariant is preserved |
| ResourceManager.ActivePointerIsActiveName | LuaSTG/LuaSTG/GameResource/ResourceManager.cpp:43-48 | under the invariant, the pointer comparison that decides whether the removed pool was active holds exactly when its key is the recorded active name |
| ResourceManager.GetPool | LuaSTG/LuaSTG/GameResource/ResourceManager.cpp:54-66 | the empty name gives nothing, reserved names give the built-in pools, a custom name gives its pool exactly when it exists; under the invariant a pool comes back exactly for reserved or known names |
| ResourceManager.SetActivedPoolByName | LuaSTG/LuaSTG/GameResource/ResourceManager.cpp:68-106 | fails, changing nothing, exactly for an unknown custom name; "" deactivates and keeps the built-in type; "global"/"stage" deactivate and select that type; a known custom name is recorded and keeps the type; pools are never touched; after success with a non-empty name the active pool is the pool `GetPool` gives for that name; the invariant is preserved |
| ResourceManager.ClearAllResource | LuaSTG/LuaSTG/GameResource/ResourceManager.cpp:110-115 | both built-in pools become empty but keep their identity, the type becomes Global and the scale 1.0, and custom pools and the active custom pool are untouched; the invariant is preserved |
| ResourceManager.SetActivedPoolType | LuaSTG/LuaSTG/GameResource/ResourceManager.cpp:117-123 | `GetActivedPoolType` then reports the new type, nothing else changes, and the active pool becomes that type's built-in pool unless a custom pool is active |
| ResourceManager.GetActivedPool | LuaSTG/LuaSTG/GameResource/ResourceManager.cpp:125-129 | the active custom pool (same id, same as `GetPool` by its recorded name) when one is set, otherwise the built-in pool of the active type; a custom-typed pool comes back exactly when a custom pool is active |
| ResourceManager.GetResourcePool | LuaSTG/LuaSTG/GameResource/ResourceManager.cpp:131-140 | Global and Stage give the matching built-in pool, and `NoneType` gives none |
| ResourceManager.EnumPools | LuaSTG/LuaSTG/GameResource/ResourceManager.cpp:142-154 | "global" and "stage" come first, then only custom keys and every custom key; the length is 2 plus the number of custom pools; under the invariant no name repeats |
| ResourceLookup.Scan | LuaSTG/LuaSTG/GameResource/ResourceManager.cpp:175-183 | the fallback loop finds nothing exactly when no visited pool, skipping the active one, holds the name |
| ResourceLookup.ScanFirstHit | LuaSTG/LuaSTG/GameResource/ResourceManager.cpp:176-182 | a fallback hit is the entry of the first non-skipped pool in iteration order that holds the name |
| ResourceLookup.Find | LuaSTG/LuaSTG/GameResource/ResourceManager.cpp:159-392 | precedence for every kind: the active custom pool's entry wins, then the stage entry, then the global entry; the result is empty exactly when no pool at all holds the name |
| ResourceLookup.ScanHitIsInactiveHas | LuaSTG/LuaSTG/GameResource/ResourceManager.cpp:178-180 | under the invariant, the loop's pointer test that skips the active pool visits exactly the custom pools other than the one under the recorded active name |
| ResourceLookup.FindFallback | LuaSTG/LuaSTG/GameResource/ResourceManager.cpp:175-183 | when the active, stage and global pools all miss, a hit comes from a custom pool other than the active one, and from the first one in map order that holds the name |
| ResourceLookup.FindOrderIndependent | LuaSTG/LuaSTG/GameResource/ResourceManager.cpp:176-182 | any two iteration orders give the same lookup result whenever every inactive custom pool that holds the name holds the same entry under it; with `FindOrderDecidesTie` this decides exactly when the order matters |
| ResourceLookup.FindOrderDecidesTie | LuaSTG/LuaSTG/GameResource/ResourceManager.cpp:176-182 | for every valid registry where the active, stage and global pools all miss the name and two inactive custom pools hold different entries under it, there are two iteration orders of the custom-pool map whose lookups return each of the two entries: the fallback tier has no defined tie-break |
| ResourceLookup.GetTextureSize | LuaSTG/LuaSTG/GameResource/ResourceManager.cpp:396-402 | reports success exactly when some pool holds the texture; on a miss the output size is returned untouched; on a hit it is the size of the texture the lookup resolves |
| ResourceLookup.CacheTTFFontString | LuaSTG/LuaSTG/GameResource/ResourceManager.cpp:404-410 | the glyph-caching branch is taken exactly when some pool holds the font, and on the font the lookup resolves; otherwise the error branch is taken |
| RegistryProperties.ReachableValid | LuaSTG/LuaSTG/GameResource/ResourceManager.cpp:13-123 | every sequence of create, remove, select-by-name, set-type and reset calls keeps the registry invariant: the active pool is live and recorded under its key, and custom keys are never empty or reserved |
| RegistryProperties.InitReachableValid | LuaSTG/LuaSTG/GameResource/ResourceManager.cpp:5-9 | every registry reachable from the constructor satisfies the invariant |
| RegistryProperties.CreateRemoveRoundTrip | LuaSTG/LuaSTG/GameResource/ResourceManager.cpp:13-52 | removing a pool right after creating it succeeds and restores the registry; only the id allocator has moved on |
| RegistryProperties.CreateTwiceFails | LuaSTG/LuaSTG/GameResource/ResourceManager.cpp:21-22 | a second creation under the same name fails and `GetPool` still returns the original pool |
| RegistryProperties.CreateThenGetPool | LuaSTG/LuaSTG/GameResource/ResourceManager.cpp:24-30 | a created pool is returned by `GetPool` under its name; it is empty, custom-typed and not the active pool |
| RegistryProperties.ActivatedPoolTakesPrecedence | LuaSTG/LuaSTG/GameResource/ResourceManager.cpp:162-167 | after a custom pool is selected by name, every name it holds resolves to its entry, whatever other pools hold |
| RegistryProperties.RemoveActiveFallsThrough | LuaSTG/LuaSTG/GameResource/ResourceManager.cpp:43-48 | selecting a custom pool and then removing it leaves no active custom pool; the active pool is again the built-in pool of the active type, and a lookup falls through to the stage entry and then the global entry |
| RegistryProperties.ClearAllResourceIdempotent | LuaSTG/LuaSTG/GameResource/ResourceManager.cpp:110-115 | resetting twice is the same as resetting once |
| RegistryProperties.SetActivedPoolByNameIdempotent | LuaSTG/LuaSTG/GameResource/ResourceManager.cpp:68-106 | selecting the same name twice has the same result and state as selecting it once |
| RegistryProperties.ClearThenFindOnlyCustom | LuaSTG/LuaSTG/GameResource/ResourceManager.cpp:169-182 | after a reset a lookup succeeds exactly when some custom pool holds the name |

## Left out

- Locking (`m_CustomPoolsMutex`) and the unlocked reads of the custom-pool map in `CreatePool`, `RemovePool` and the `FindX` scans: this is concurrency, and the registry is modelled single-threaded.
- Logging through `spdlog`. This includes the error message of `CacheTTFFontString`'s not-found branch.
- The process-wide `g_ResourceLoadingLog` flag and its accessors (lines 426-434): a plain global with no logic.
- `UpdateSound` (lines 412-422): it only calls `FlushCommand` on audio objects whose code is not part of this model.
- CacheTTFFontString: models only which branch is taken and which font is used. The `cacheString` call into the glyph manager is a foreign call.
- `SmartReference` reference counting and resource payloads: resources are opaque ids. A texture's size is a field of its id.
- The `it->second->Clear()` before erasing in `RemovePool` (line 49): once the pool leaves the map it cannot be observed, so only the removal is modelled.
- The per-kind getters of `ResourcePool` and its loaders: ResourcePool.cpp is not part of this model. A pool is modelled as its tables, with `Lookup` as the getter.
- Init: the initial `m_ActivedPool`, `m_GlobalImageScaleFactor` and `m_pActiveCustomPool` are set in ResourceManager.h, which is not part of this model. The first two are parameters of `Init`. The active custom pool is assumed null, with an empty recorded name.
- The image-scale factor's getter and setter live in the header. The factor is a `real`, and 32-bit float rounding is not modelled.
- The `const char*` names of `FindX` are strings, so a null pointer is not modelled.
- LuaSTG/LuaSTG/LuaBinding/LW_GameObjectManager.cpp: a Lua binding over the game-object pool, whose implementation is not part of this model. That leaves out super pause, world bounds, world flags and the object count.
