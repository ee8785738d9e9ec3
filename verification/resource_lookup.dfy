/**
 The precedence lookup shared by all ten `FindX` functions of the registry,
 written once over `Kind`: the active custom pool, then the stage pool, then
 the global pool, then every other custom pool in map order.
 */
module ResourceLookup {
  import opened Wrappers
  import opened ResourcePool
  import opened ResourceManager

  /** The fallback scan visits `key` (it is not the active pool) and finds `name` there. */
  predicate ScanHit(customs: map<string, Pool>, key: string, skip: Option<PoolId>, kind: Kind, name: string)
  {
    key in customs && Some(customs[key].id) != skip && Has(customs[key], kind, name)
  }

  /** The last-ditch loop over the custom pools, skipping the pool whose id is `skip`. */
  function Scan(customs: map<string, Pool>, order: seq<string>, skip: Option<PoolId>, kind: Kind, name: string)
    : (res: Option<ResId>)
    requires forall i :: 0 <= i < |order| ==> order[i] in customs
    ensures res.None? <==> forall i :: 0 <= i < |order| ==> !ScanHit(customs, order[i], skip, kind, name)
    decreases |order|
  {
    if |order| == 0 then None
    else
      var p := customs[order[0]];
      if Some(p.id) == skip then Scan(customs, order[1..], skip, kind, name)
      else if Has(p, kind, name) then Lookup(p, kind, name)
      else Scan(customs, order[1..], skip, kind, name)
  }

  /** A scan hit is the entry of the first visited pool that holds the name. */
  lemma {:induction false} ScanFirstHit(customs: map<string, Pool>, order: seq<string>, skip: Option<PoolId>,
                                        kind: Kind, name: string)
    requires forall i :: 0 <= i < |order| ==> order[i] in customs
    requires Scan(customs, order, skip, kind, name).Some?
    ensures exists i ::
              && 0 <= i < |order|
              && ScanHit(customs, order[i], skip, kind, name)
              && Scan(customs, order, skip, kind, name) == Lookup(customs[order[i]], kind, name)
              && (forall j :: 0 <= j < i ==> !ScanHit(customs, order[j], skip, kind, name))
    decreases |order|
  {
    if !ScanHit(customs, order[0], skip, kind, name) {
      var rest := order[1..];
      ScanFirstHit(customs, rest, skip, kind, name);
      var i :| 0 <= i < |rest|
        && ScanHit(customs, rest[i], skip, kind, name)
        && Scan(customs, rest, skip, kind, name) == Lookup(customs[rest[i]], kind, name)
        && (forall j :: 0 <= j < i ==> !ScanHit(customs, rest[j], skip, kind, name));
      assert rest[i] == order[i + 1];
      forall j | 0 <= j < i + 1
        ensures !ScanHit(customs, order[j], skip, kind, name)
      {
        if j > 0 {
          assert order[j] == rest[j - 1];
        }
      }
    }
  }

  /** The active custom pool holds `name` for `kind`. */
  predicate ActiveHas(r: Registry, kind: Kind, name: string)
    requires Valid(r)
  {
    r.activeCustom.Some? && Has(r.customs[r.activeCustomName], kind, name)
  }

  /** Some pool of the registry, built-in or custom, holds `name` for `kind`. */
  predicate InAnyPool(r: Registry, kind: Kind, name: string)
  {
    || Has(r.global, kind, name)
    || Has(r.stage, kind, name)
    || exists k :: k in r.customs && Has(r.customs[k], kind, name)
  }

  /** `FindTexture` ... `FindModel`, one lookup for every kind. */
  function Find(r: Registry, order: seq<string>, kind: Kind, name: string): (res: Option<ResId>)
    requires Valid(r) && IsOrderOf(order, r.customs)
    ensures ActiveHas(r, kind, name) ==> res == Lookup(r.customs[r.activeCustomName], kind, name)
    ensures !ActiveHas(r, kind, name) && Has(r.stage, kind, name) ==> res == Lookup(r.stage, kind, name)
    ensures !ActiveHas(r, kind, name) && !Has(r.stage, kind, name) && Has(r.global, kind, name) ==>
      res == Lookup(r.global, kind, name)
    ensures res.None? <==> !InAnyPool(r, kind, name)
  {
    if ActiveHas(r, kind, name) then Lookup(r.customs[r.activeCustomName], kind, name)
    else if Has(r.stage, kind, name) then Lookup(r.stage, kind, name)
    else if Has(r.global, kind, name) then Lookup(r.global, kind, name)
    else
      var res := Scan(r.customs, order, r.activeCustom, kind, name);
      ScanCoversCustoms(r, order, kind, name);
      res
  }

  /** Once the active pool has missed, the scan misses iff no custom pool holds the name. */
  lemma ScanCoversCustoms(r: Registry, order: seq<string>, kind: Kind, name: string)
    requires Valid(r) && IsOrderOf(order, r.customs)
    requires !ActiveHas(r, kind, name)
    ensures Scan(r.customs, order, r.activeCustom, kind, name).None? <==>
      forall k :: k in r.customs ==> !Has(r.customs[k], kind, name)
  {
  }

  /** Some custom pool other than the active one holds the name. */
  predicate InactiveHas(r: Registry, k: string, kind: Kind, name: string)
  {
    k in r.customs && (r.activeCustom.Some? ==> k != r.activeCustomName) && Has(r.customs[k], kind, name)
  }

  /** Under the invariant, skipping the active pool by id (as the loop does) is skipping it by name. */
  lemma ScanHitIsInactiveHas(r: Registry, k: string, kind: Kind, name: string)
    requires Valid(r)
    ensures ScanHit(r.customs, k, r.activeCustom, kind, name) <==> InactiveHas(r, k, kind, name)
  {
    if k in r.customs && r.activeCustom.Some? {
      ActivePointerIsActiveName(r, k);
    }
  }

  /**
   The fourth tier: when neither the active pool nor a built-in pool holds the
   name, a hit comes from a custom pool other than the active one, and it is
   the first such pool in map order.
   */
  lemma FindFallback(r: Registry, order: seq<string>, kind: Kind, name: string)
    requires Valid(r) && IsOrderOf(order, r.customs)
    requires !ActiveHas(r, kind, name) && !Has(r.stage, kind, name) && !Has(r.global, kind, name)
    requires Find(r, order, kind, name).Some?
    ensures exists i ::
              && 0 <= i < |order|
              && InactiveHas(r, order[i], kind, name)
              && Find(r, order, kind, name) == Lookup(r.customs[order[i]], kind, name)
              && (forall j :: 0 <= j < i ==> !InactiveHas(r, order[j], kind, name))
  {
    ScanFirstHit(r.customs, order, r.activeCustom, kind, name);
    forall k | true
      ensures ScanHit(r.customs, k, r.activeCustom, kind, name) <==> InactiveHas(r, k, kind, name)
    {
      ScanHitIsInactiveHas(r, k, kind, name);
    }
  }

  /**
   The map's iteration order only matters when inactive custom pools hold
   different entries under the name: otherwise every order yields the same result.
   */
  lemma FindOrderIndependent(r: Registry, o1: seq<string>, o2: seq<string>, kind: Kind, name: string)
    requires Valid(r) && IsOrderOf(o1, r.customs) && IsOrderOf(o2, r.customs)
    requires forall k1, k2 :: InactiveHas(r, k1, kind, name) && InactiveHas(r, k2, kind, name) ==>
               Lookup(r.customs[k1], kind, name) == Lookup(r.customs[k2], kind, name)
    ensures Find(r, o1, kind, name) == Find(r, o2, kind, name)
  {
    if !ActiveHas(r, kind, name) && !Has(r.stage, kind, name) && !Has(r.global, kind, name)
       && Find(r, o1, kind, name).Some?
    {
      FindFallback(r, o1, kind, name);
      var i1 :| 0 <= i1 < |o1| && InactiveHas(r, o1[i1], kind, name)
        && Find(r, o1, kind, name) == Lookup(r.customs[o1[i1]], kind, name);
      FindFallback(r, o2, kind, name);
      var i2 :| 0 <= i2 < |o2| && InactiveHas(r, o2[i2], kind, name)
        && Find(r, o2, kind, name) == Lookup(r.customs[o2[i2]], kind, name);
    }
  }

  /**
   The converse of `FindOrderIndependent`: when the active, stage and global
   pools all miss and two inactive custom pools hold different entries under
   the name, each of them is the answer for some iteration order of the map,
   so the fallback tier has no defined tie-break.
   */
  lemma FindOrderDecidesTie(r: Registry, kind: Kind, name: string, a: string, b: string)
    returns (o1: seq<string>, o2: seq<string>)
    requires Valid(r)
    requires !ActiveHas(r, kind, name) && !Has(r.stage, kind, name) && !Has(r.global, kind, name)
    requires InactiveHas(r, a, kind, name) && InactiveHas(r, b, kind, name)
    requires Lookup(r.customs[a], kind, name) != Lookup(r.customs[b], kind, name)
    ensures IsOrderOf(o1, r.customs) && IsOrderOf(o2, r.customs)
    ensures Find(r, o1, kind, name) == Lookup(r.customs[a], kind, name)
    ensures Find(r, o2, kind, name) == Lookup(r.customs[b], kind, name)
  {
    var rest := OrderExists(r.customs.Keys - {a, b});
    o1 := [a, b] + rest;
    o2 := [b, a] + rest;
    assert IsOrderOf(o1, r.customs) by {
      forall i, j | 0 <= i < j < |o1| ensures o1[i] != o1[j] {
        if j >= 2 { assert o1[j] == rest[j - 2]; }
      }
    }
    assert IsOrderOf(o2, r.customs) by {
      forall i, j | 0 <= i < j < |o2| ensures o2[i] != o2[j] {
        if j >= 2 { assert o2[j] == rest[j - 2]; }
      }
    }
  }

  /** `GetTextureSize`: the size of the texture the lookup resolves; on a miss `out` comes back untouched. */
  function GetTextureSize(r: Registry, order: seq<string>, name: string, out: Size): (res: (bool, Size))
    requires Valid(r) && IsOrderOf(order, r.customs)
    ensures res.0 <==> InAnyPool(r, Texture, name)
    ensures !res.0 ==> res.1 == out
    ensures res.0 ==> res.1 == Find(r, order, Texture, name).value.size
  {
    var t := Find(r, order, Texture, name);
    if t.None? then (false, out) else (true, t.value.size)
  }

  /**
   `CacheTTFFontString`: the font whose glyph cache is asked to cache the
   text, or `None` for the logged not-found branch.
   */
  function CacheTTFFontString(r: Registry, order: seq<string>, name: string): (font: Option<ResId>)
    requires Valid(r) && IsOrderOf(order, r.customs)
    ensures font.None? <==> !InAnyPool(r, TTFFont, name)
    ensures font.Some? ==> font == Find(r, order, TTFFont, name)
  {
    Find(r, order, TTFFont, name)
  }
}
