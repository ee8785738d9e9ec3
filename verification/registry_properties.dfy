/**
 Properties that relate several registry operations: inverses, idempotence,
 the invariant over any sequence of calls, and how pool selection and removal
 steer the precedence lookup.
 */
module RegistryProperties {
  import opened Wrappers
  import opened ResourcePool
  import opened ResourceManager
  import opened ResourceLookup

  /** One mutating call on the registry. */
  datatype Op =
    | CreateOp(name: string)
    | RemoveOp(name: string)
    | ActivateOp(name: string)
    | SetTypeOp(t: PoolType)
    | ClearAllOp

  function Apply(r: Registry, op: Op): Registry
  {
    match op
    case CreateOp(n) => CreatePool(r, n).reg
    case RemoveOp(n) => RemovePool(r, n).reg
    case ActivateOp(n) => SetActivedPoolByName(r, n).reg
    case SetTypeOp(t) => SetActivedPoolType(r, t)
    case ClearAllOp => ClearAllResource(r)
  }

  function ApplyAll(r: Registry, ops: seq<Op>): Registry
    decreases |ops|
  {
    if |ops| == 0 then r else ApplyAll(Apply(r, ops[0]), ops[1..])
  }

  /** Every registry reachable from the constructor keeps the invariant. */
  lemma {:induction false} ReachableValid(r: Registry, ops: seq<Op>)
    requires Valid(r)
    ensures Valid(ApplyAll(r, ops))
    decreases |ops|
  {
    if |ops| > 0 {
      ReachableValid(Apply(r, ops[0]), ops[1..]);
    }
  }

  /** ... in particular from a freshly constructed registry. */
  lemma InitReachableValid(t: PoolType, scale: real, ops: seq<Op>)
    ensures Valid(ApplyAll(Init(t, scale), ops))
  {
    ReachableValid(Init(t, scale), ops);
  }

  /** Removing a pool right after creating it restores the registry; only the id allocator has moved on. */
  lemma CreateRemoveRoundTrip(r: Registry, name: string)
    requires Valid(r) && CreatePool(r, name).ok
    ensures RemovePool(CreatePool(r, name).reg, name).ok
    ensures RemovePool(CreatePool(r, name).reg, name).reg == r.(nextId := r.nextId + 1)
  {
  }

  /** A second `CreatePool` under the same name fails and leaves the first pool in place. */
  lemma CreateTwiceFails(r: Registry, name: string)
    requires CreatePool(r, name).ok
    ensures !CreatePool(CreatePool(r, name).reg, name).ok
    ensures GetPool(CreatePool(CreatePool(r, name).reg, name).reg, name) == GetPool(CreatePool(r, name).reg, name)
  {
  }

  /** A created pool is found by `GetPool` under its name, empty, custom, and not active. */
  lemma CreateThenGetPool(r: Registry, name: string)
    requires Valid(r) && CreatePool(r, name).ok
    ensures GetPool(CreatePool(r, name).reg, name).Some?
    ensures var p := GetPool(CreatePool(r, name).reg, name).value;
      IsEmpty(p) && p.name == name && p.poolType == NoneType
      && GetActivedPool(CreatePool(r, name).reg) != Some(p)
  {
  }

  /** After selecting a custom pool, names it holds resolve to its entries before any other pool's. */
  lemma ActivatedPoolTakesPrecedence(r: Registry, name: string, order: seq<string>, kind: Kind, x: string)
    requires Valid(r) && IsCustomName(name) && name in r.customs
    requires IsOrderOf(order, r.customs)
    requires Has(r.customs[name], kind, x)
    ensures SetActivedPoolByName(r, name).ok
    ensures Find(SetActivedPoolByName(r, name).reg, order, kind, x) == Lookup(r.customs[name], kind, x)
  {
  }

  /**
   Selecting a custom pool and then removing it leaves no active custom pool; a
   lookup then falls through to the stage and global pools.
   */
  lemma RemoveActiveFallsThrough(r: Registry, name: string, order: seq<string>, kind: Kind, x: string)
    requires Valid(r) && IsCustomName(name) && name in r.customs
    requires IsOrderOf(order, r.customs - {name})
    ensures var r2 := RemovePool(SetActivedPoolByName(r, name).reg, name).reg;
      && r2.activeCustom == None && r2.activeCustomName == ""
      && GetActivedPool(r2) == GetResourcePool(r, r.activeType)
      && (Has(r.stage, kind, x) ==> Find(r2, order, kind, x) == Lookup(r.stage, kind, x))
      && (!Has(r.stage, kind, x) && Has(r.global, kind, x) ==> Find(r2, order, kind, x) == Lookup(r.global, kind, x))
  {
  }

  /** `ClearAllResource` applied twice is applied once. */
  lemma ClearAllResourceIdempotent(r: Registry)
    ensures ClearAllResource(ClearAllResource(r)) == ClearAllResource(r)
  {
  }

  /** Selecting the same pool twice is selecting it once. */
  lemma SetActivedPoolByNameIdempotent(r: Registry, name: string)
    ensures SetActivedPoolByName(SetActivedPoolByName(r, name).reg, name) == SetActivedPoolByName(r, name)
  {
  }

  /** After a reset, a lookup can only be answered by a custom pool, and it answers whenever one holds the name. */
  lemma ClearThenFindOnlyCustom(r: Registry, order: seq<string>, kind: Kind, x: string)
    requires Valid(r) && IsOrderOf(order, r.customs)
    ensures var r' := ClearAllResource(r);
      Find(r', order, kind, x).Some? <==> exists k :: k in r.customs && Has(r.customs[k], kind, x)
  {
  }
}
