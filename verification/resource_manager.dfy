/**
 The resource-pool registry (`ResourceMgr`): two built-in pools, a map of
 named custom pools, an optional active custom pool with its recorded name,
 the active built-in pool type and the global image-scale factor.

 Pool objects are identified by a `PoolId`, standing for the pool's address:
 the source compares the active-pool pointer against map entries, and the
 model compares ids the same way. `nextId` hands out a fresh id to every new
 custom pool, an id distinct from every live pool's; ids are never reused.
 */
module ResourceManager {
  import opened Wrappers
  import opened ResourcePool

  const GlobalName: string := "global"
  const StageName: string := "stage"

  const GlobalId: PoolId := 0
  const StageId: PoolId := 1
  const FirstCustomId: PoolId := 2

  /** Names kept for the two built-in pools, for compatibility. */
  predicate IsReserved(name: string)
  {
    name == GlobalName || name == StageName
  }

  /** A name that `CreatePool` accepts as the key of a custom pool. */
  predicate IsCustomName(name: string)
  {
    name != "" && !IsReserved(name)
  }

  datatype Registry = Registry(
    global: Pool,
    stage: Pool,
    customs: map<string, Pool>,
    activeCustom: Option<PoolId>,   // m_pActiveCustomPool
    activeCustomName: string,       // m_ActiveCustomPoolName
    activeType: PoolType,           // m_ActivedPool
    imageScale: real,               // m_GlobalImageScaleFactor
    nextId: PoolId)

  /** The outcome of a mutating call: its boolean return value and the new registry. */
  datatype Step = Step(ok: bool, reg: Registry)

  // ---------------------------------------------------------------------------
  // The registry invariant
  // ---------------------------------------------------------------------------

  /** The two built-in pools keep their identity and role. */
  predicate BuiltinsFixed(r: Registry)
  {
    && r.global.id == GlobalId && r.global.poolType == GlobalType
    && r.stage.id == StageId && r.stage.poolType == StageType
  }

  /** Every custom pool sits under a legal name, carries that name, and has a distinct, allocated id. */
  predicate CustomsWellFormed(r: Registry)
  {
    && FirstCustomId <= r.nextId
    && (forall k :: k in r.customs ==>
          && IsCustomName(k)
          && r.customs[k].name == k
          && r.customs[k].poolType == NoneType
          && FirstCustomId <= r.customs[k].id < r.nextId)
    && (forall k1, k2 :: k1 in r.customs && k2 in r.customs && k1 != k2 ==>
          r.customs[k1].id != r.customs[k2].id)
  }

  /** The active-pool pointer is live and its recorded name is its key; no active custom pool means an empty name. */
  predicate ActiveConsistent(r: Registry)
  {
    && (r.activeCustom.Some? ==>
          r.activeCustomName in r.customs && r.customs[r.activeCustomName].id == r.activeCustom.value)
    && (r.activeCustom.None? ==> r.activeCustomName == "")
  }

  /** The registry invariant. It reads no pool's tables, so loading resources into a pool cannot break it. */
  predicate Valid(r: Registry)
  {
    BuiltinsFixed(r) && CustomsWellFormed(r) && ActiveConsistent(r)
  }

  /** Under the invariant, the pointer test `m_pActiveCustomPool == it->second.get()` is a name test. */
  lemma ActivePointerIsActiveName(r: Registry, name: string)
    requires Valid(r) && name in r.customs
    ensures r.activeCustom == Some(r.customs[name].id) <==> (r.activeCustom.Some? && r.activeCustomName == name)
  {
  }

  /**
   The constructor: both built-in pools, no custom pool, no active custom pool. The
   initial active type and scale factor are member initialisers of a header
   that is not part of this model, so they are parameters here.
   */
  function Init(t: PoolType, scale: real): (r: Registry)
    ensures Valid(r)
    ensures r.customs == map[] && r.activeCustom == None
    ensures IsEmpty(r.global) && IsEmpty(r.stage)
    ensures r.activeType == t && r.imageScale == scale
  {
    Registry(NewPool(GlobalId, GlobalType, ""), NewPool(StageId, StageType, ""),
             map[], None, "", t, scale, FirstCustomId)
  }

  // ---------------------------------------------------------------------------
  // Pool lifecycle
  // ---------------------------------------------------------------------------

  /** `CreatePool`: a new, empty, inactive custom pool under a legal, unused name. */
  function CreatePool(r: Registry, name: string): (s: Step)
    ensures s.ok <==> IsCustomName(name) && name !in r.customs
    ensures !s.ok ==> s.reg == r
    ensures s.ok ==>
      && s.reg.customs.Keys == r.customs.Keys + {name}
      && (forall k :: k in r.customs ==> s.reg.customs[k] == r.customs[k])
      && IsEmpty(s.reg.customs[name])
      && s.reg.customs[name].name == name
      && s.reg.global == r.global && s.reg.stage == r.stage
      && s.reg.activeCustom == r.activeCustom && s.reg.activeCustomName == r.activeCustomName
      && s.reg.activeType == r.activeType && s.reg.imageScale == r.imageScale
    ensures s.ok && Valid(r) ==>
      forall k :: k in r.customs ==> r.customs[k].id != s.reg.customs[name].id
    ensures Valid(r) ==> Valid(s.reg)
  {
    if name == "" then Step(false, r)
    else if IsReserved(name) then Step(false, r)
    else if name in r.customs then Step(false, r)
    else
      var p := NewPool(r.nextId, NoneType, name);
      Step(true, r.(customs := r.customs[name := p], nextId := r.nextId + 1))
  }

  /** `RemovePool`: drops a known custom pool, deactivating it first when it is the active one. */
  function RemovePool(r: Registry, name: string): (s: Step)
    ensures s.ok <==> name != "" && name in r.customs
    ensures !s.ok ==> s.reg == r
    ensures s.ok ==>
      && s.reg.customs == r.customs - {name}
      && s.reg.global == r.global && s.reg.stage == r.stage
      && s.reg.activeType == r.activeType && s.reg.imageScale == r.imageScale
    ensures s.ok && Valid(r) && r.activeCustom.Some? && r.activeCustomName == name ==>
      s.reg.activeCustom == None && s.reg.activeCustomName == ""
    ensures s.ok && Valid(r) && r.activeCustomName != name ==>
      s.reg.activeCustom == r.activeCustom && s.reg.activeCustomName == r.activeCustomName
    ensures Valid(r) ==> Valid(s.reg)
  {
    if name == "" then Step(false, r)
    else if name !in r.customs then Step(false, r)
    else
      var wasActive := r.activeCustom == Some(r.customs[name].id);
      var r1 := if wasActive then r.(activeCustom := None, activeCustomName := "") else r;
      assert Valid(r) ==> (ActivePointerIsActiveName(r, name); wasActive == (r.activeCustomName == name));
      Step(true, r1.(customs := r1.customs - {name}))
  }

  /** `GetPool`: the built-in pool for a reserved name, otherwise the custom pool of that name, if any. */
  function GetPool(r: Registry, name: string): (p: Option<Pool>)
    ensures name == "" ==> p == None
    ensures name == GlobalName ==> p == Some(r.global)
    ensures name == StageName ==> p == Some(r.stage)
    ensures IsCustomName(name) ==> (p.Some? <==> name in r.customs)
    ensures IsCustomName(name) && p.Some? ==> p.value == r.customs[name]
    ensures Valid(r) ==> (p.Some? <==> name in r.customs || IsReserved(name))
  {
    if name == "" then None
    else if name == GlobalName then Some(r.global)
    else if name == StageName then Some(r.stage)
    else if name in r.customs then Some(r.customs[name])
    else None
  }

  // ---------------------------------------------------------------------------
  // Active pool selection
  // ---------------------------------------------------------------------------

  /** `GetActivedPoolType`: the built-in selector, which is kept even while a custom pool is active. */
  function GetActivedPoolType(r: Registry): (t: PoolType)
    ensures t == r.activeType
  {
    r.activeType
  }

  /** `GetResourcePool`: the built-in pool of a type; `NoneType` has none. */
  function GetResourcePool(r: Registry, t: PoolType): (p: Option<Pool>)
    ensures p.Some? <==> t != NoneType
    ensures p == Some(r.global) || p == Some(r.stage) || p == None
    ensures Valid(r) && p.Some? ==> p.value.poolType == t
  {
    match t
    case GlobalType => Some(r.global)
    case StageType => Some(r.stage)
    case NoneType => None
  }

  /** `GetActivedPool`: the active custom pool when one is set, otherwise the built-in pool of the active type. */
  function GetActivedPool(r: Registry): (p: Option<Pool>)
    requires Valid(r)
    ensures r.activeCustom.Some? ==> p.Some? && p.value.id == r.activeCustom.value && p == GetPool(r, r.activeCustomName)
    ensures r.activeCustom.None? ==> p == GetResourcePool(r, r.activeType)
    ensures p.Some? ==> (p.value.poolType == NoneType <==> r.activeCustom.Some?)
  {
    if r.activeCustom.Some? then Some(r.customs[r.activeCustomName])
    else GetResourcePool(r, r.activeType)
  }

  /** `SetActivedPoolType`: only the built-in selector changes. */
  function SetActivedPoolType(r: Registry, t: PoolType): (r': Registry)
    ensures GetActivedPoolType(r') == t
    ensures r'.(activeType := r.activeType) == r
    ensures Valid(r) ==> Valid(r')
    ensures Valid(r) && r.activeCustom.None? ==> GetActivedPool(r') == GetResourcePool(r, t)
    ensures Valid(r) && r.activeCustom.Some? ==> GetActivedPool(r') == GetActivedPool(r)
  {
    r.(activeType := t)
  }

  /**
   `SetActivedPoolByName`: an empty name deactivates any custom pool; a
   reserved name also selects that built-in type; a known custom name becomes
   the active pool; an unknown name is refused.
   */
  function SetActivedPoolByName(r: Registry, name: string): (s: Step)
    ensures s.ok <==> name == "" || IsReserved(name) || name in r.customs
    ensures !s.ok ==> s.reg == r
    ensures s.ok ==>
      && s.reg.customs == r.customs && s.reg.global == r.global && s.reg.stage == r.stage
      && s.reg.imageScale == r.imageScale && s.reg.nextId == r.nextId
    ensures name == "" ==> s.reg.activeCustom == None && s.reg.activeCustomName == "" && s.reg.activeType == r.activeType
    ensures name == GlobalName ==> s.reg.activeCustom == None && s.reg.activeCustomName == "" && s.reg.activeType == GlobalType
    ensures name == StageName ==> s.reg.activeCustom == None && s.reg.activeCustomName == "" && s.reg.activeType == StageType
    ensures IsCustomName(name) ==> s.reg.activeType == r.activeType
    ensures s.ok && IsCustomName(name) ==> s.reg.activeCustomName == name
    ensures Valid(r) ==> Valid(s.reg)
    ensures Valid(r) && s.ok && name != "" ==> GetActivedPool(s.reg) == GetPool(r, name)
  {
    if name == "" then
      Step(true, r.(activeCustom := None, activeCustomName := ""))
    else if name == GlobalName then
      Step(true, r.(activeCustom := None, activeCustomName := "", activeType := GlobalType))
    else if name == StageName then
      Step(true, r.(activeCustom := None, activeCustomName := "", activeType := StageType))
    else if name !in r.customs then
      Step(false, r)
    else
      Step(true, r.(activeCustom := Some(r.customs[name].id), activeCustomName := name))
  }

  // ---------------------------------------------------------------------------
  // Reset and enumeration
  // ---------------------------------------------------------------------------

  /**
   `ClearAllResource`: empties both built-in pools, selects the global type and
   resets the scale factor; custom pools and the active custom pool survive.
   */
  function ClearAllResource(r: Registry): (r': Registry)
    ensures IsEmpty(r'.global) && IsEmpty(r'.stage)
    ensures r'.global.id == r.global.id && r'.global.poolType == r.global.poolType
    ensures r'.stage.id == r.stage.id && r'.stage.poolType == r.stage.poolType
    ensures r'.activeType == GlobalType && r'.imageScale == 1.0
    ensures r'.customs == r.customs && r'.nextId == r.nextId
    ensures r'.activeCustom == r.activeCustom && r'.activeCustomName == r.activeCustomName
    ensures Valid(r) ==> Valid(r')
  {
    r.(global := Clear(r.global), stage := Clear(r.stage), activeType := GlobalType, imageScale := 1.0)
  }

  /** The elements of `s` are pairwise distinct. */
  predicate Distinct<T(==)>(s: seq<T>)
  {
    forall i, j :: 0 <= i < j < |s| ==> s[i] != s[j]
  }

  /**
   One iteration order of the custom-pool `unordered_map`: every key exactly
   once. The order is unspecified, so every property below holds for all of them.
   */
  predicate IsOrderOf(order: seq<string>, customs: map<string, Pool>)
  {
    && Distinct(order)
    && (forall i :: 0 <= i < |order| ==> order[i] in customs)
    && (forall k :: k in customs ==> k in order)
  }

  /** Every finite set of names has an iteration order. */
  lemma {:induction false} OrderExists(keys: set<string>) returns (order: seq<string>)
    ensures Distinct(order)
    ensures forall i :: 0 <= i < |order| ==> order[i] in keys
    ensures forall k :: k in keys ==> k in order
    decreases keys
  {
    if keys == {} {
      order := [];
    } else {
      var k :| k in keys;
      var tail := OrderExists(keys - {k});
      order := [k] + tail;
      forall i, j | 0 <= i < j < |order| ensures order[i] != order[j] {
        assert order[j] == tail[j - 1];
      }
    }
  }

  lemma {:induction false} DistinctCard(s: seq<string>)
    requires Distinct(s)
    ensures |set x | x in s| == |s|
  {
    if |s| > 0 {
      var t := s[1..];
      assert Distinct(t);
      DistinctCard(t);
      assert (set x | x in s) == (set x | x in t) + {s[0]};
      assert s[0] !in t;
    }
  }

  /** An iteration order lists as many names as the map has keys. */
  lemma OrderLength(order: seq<string>, customs: map<string, Pool>)
    requires IsOrderOf(order, customs)
    ensures |order| == |customs|
  {
    DistinctCard(order);
    assert (set x | x in order) == customs.Keys;
  }

  /** `EnumPools`: "global", "stage", then every custom pool name once, in map order. */
  function EnumPools(r: Registry, order: seq<string>): (names: seq<string>)
    requires IsOrderOf(order, r.customs)
    ensures |names| == 2 + |r.customs|
    ensures names[0] == GlobalName && names[1] == StageName
    ensures forall i :: 2 <= i < |names| ==> names[i] in r.customs
    ensures forall k :: k in r.customs ==> k in names[2..]
    ensures Valid(r) ==> Distinct(names)
  {
    OrderLength(order, r.customs);
    [GlobalName, StageName] + order
  }
}
