/**
 A resource pool: one name-to-resource table per resource kind.

 Resources are opaque ids; the only payload the registry ever reads is the
 pixel size of a texture, carried on the id itself.
 */
module ResourcePool {
  import opened Wrappers

  /** The ten resource kinds, one per `FindX` lookup of the registry. */
  datatype Kind =
    | Texture | Sprite | Animation | Music | Sound
    | Particle | SpriteFont | TTFFont | FX | Model

  /** Unsigned 32-bit component of `core::Vector2U`. */
  newtype u32 = x: int | 0 <= x < 0x1_0000_0000

  datatype Size = Size(width: u32, height: u32)

  /** An opaque handle to a loaded resource; `size` is read for textures only. */
  datatype ResId = ResId(handle: nat, size: Size)

  /** `ResourcePoolType`; custom pools are created with `ResourcePoolType::None`. */
  datatype PoolType = GlobalType | StageType | NoneType

  /** Identity of a pool object (the address the registry compares pointers by). */
  type PoolId = nat

  type Tables = map<Kind, map<string, ResId>>

  datatype Pool = Pool(id: PoolId, poolType: PoolType, name: string, tables: Tables)

  /** The pool's per-kind getter (`GetTexture`, `GetSprite`, ...): an entry or nothing. */
  function Lookup(p: Pool, kind: Kind, name: string): Option<ResId>
  {
    if kind in p.tables && name in p.tables[kind] then Some(p.tables[kind][name]) else None
  }

  predicate Has(p: Pool, kind: Kind, name: string)
  {
    Lookup(p, kind, name).Some?
  }

  /** No kind of the pool holds any name. */
  ghost predicate IsEmpty(p: Pool)
  {
    forall kind, name :: Lookup(p, kind, name) == None
  }

  /** A freshly constructed pool: identity, role and name, and no resources. */
  function NewPool(id: PoolId, t: PoolType, name: string): (p: Pool)
    ensures IsEmpty(p)
    ensures p.id == id && p.poolType == t && p.name == name
  {
    Pool(id, t, name, map[])
  }

  /** `ResourcePool::Clear`: releases every resource of every kind, keeps the pool's identity. */
  function Clear(p: Pool): (q: Pool)
    ensures IsEmpty(q)
    ensures q.id == p.id && q.poolType == p.poolType && q.name == p.name
  {
    p.(tables := map[])
  }
}
