/**
 * The two registries, `HoleSet` and `MoleSet`: objects whose bucket maps the
 * engine rewrites in place. Every entity holds a copy of its registry struct,
 * but the Go maps inside are shared references, so there is one registry
 * object of each kind and every operation updates it.
 */
module Registry {
  import opened Wrappers
  import opened Domain

  /** The error `addToMap` reports: the ID is already filed in the target bucket. */
  datatype AddError = AlreadyExists(id: int)

  /** `addToMap`: file `v` under `key`, unless the bucket already holds that key. */
  function AddToMap<T>(m: map<int, T>, key: int, v: T): (r: Result<map<int, T>, AddError>)
    ensures r.Failure? <==> key in m
    ensures r.Failure? ==> r.error == AlreadyExists(key)
    ensures r.Success? ==> r.value.Keys == m.Keys + {key} && r.value[key] == v
    ensures r.Success? ==> forall k :: k in m ==> r.value[k] == m[k]
  {
    if key in m then Failure(AlreadyExists(key)) else Success(m[key := v])
  }

  /** The hole registry: Available (empty) and Unavailable (occupied) holes. */
  class HoleSet {
    var available: map<int, Hole>
    var unavailable: map<int, Hole>

    constructor ()
      ensures available == map[] && unavailable == map[]
    {
      available := map[];
      unavailable := map[];
    }

    method AddAvailable(h: Hole) returns (err: Option<AddError>)
      modifies this
      ensures err.Some? <==> h.id in old(available)
      ensures err.Some? ==> err.value == AlreadyExists(h.id)
      ensures available == if err.Some? then old(available) else old(available)[h.id := h]
      ensures unavailable == old(unavailable)
    {
      match AddToMap(available, h.id, h)
      case Success(m) =>
        available := m;
        err := None;
      case Failure(e) =>
        err := Some(e);
    }

    method RemoveAvailable(id: int)
      modifies this
      ensures available == old(available) - {id} && unavailable == old(unavailable)
    {
      available := available - {id};
    }

    method AddUnavailable(h: Hole) returns (err: Option<AddError>)
      modifies this
      ensures err.Some? <==> h.id in old(unavailable)
      ensures err.Some? ==> err.value == AlreadyExists(h.id)
      ensures unavailable == if err.Some? then old(unavailable) else old(unavailable)[h.id := h]
      ensures available == old(available)
    {
      match AddToMap(unavailable, h.id, h)
      case Success(m) =>
        unavailable := m;
        err := None;
      case Failure(e) =>
        err := Some(e);
    }

    method RemoveUnavailable(id: int)
      modifies this
      ensures unavailable == old(unavailable) - {id} && available == old(available)
    {
      unavailable := unavailable - {id};
    }

    /** `GetHole`: the hole filed under `id`, looked up in Available first. */
    function GetHole(id: int): (r: Option<Hole>)
      reads this
      ensures r.Some? <==> id in available || id in unavailable
      ensures r.Some? ==> (id in available && r.value == available[id]) || (id in unavailable && r.value == unavailable[id])
    {
      if id in available then Some(available[id])
      else if id in unavailable then Some(unavailable[id])
      else None
    }
  }

  /** The mole registry: Housed, Unhoused and Dead moles. */
  class MoleSet {
    var housed: map<int, Mole>
    var unhoused: map<int, Mole>
    var dead: map<int, Mole>

    constructor ()
      ensures housed == map[] && unhoused == map[] && dead == map[]
    {
      housed := map[];
      unhoused := map[];
      dead := map[];
    }

    method AddHoused(m: Mole) returns (err: Option<AddError>)
      modifies this
      ensures err.Some? <==> m.id in old(housed)
      ensures err.Some? ==> err.value == AlreadyExists(m.id)
      ensures housed == if err.Some? then old(housed) else old(housed)[m.id := m]
      ensures unhoused == old(unhoused) && dead == old(dead)
    {
      match AddToMap(housed, m.id, m)
      case Success(r) =>
        housed := r;
        err := None;
      case Failure(e) =>
        err := Some(e);
    }

    method RemoveHoused(id: int)
      modifies this
      ensures housed == old(housed) - {id} && unhoused == old(unhoused) && dead == old(dead)
    {
      housed := housed - {id};
    }

    method AddUnhoused(m: Mole) returns (err: Option<AddError>)
      modifies this
      ensures err.Some? <==> m.id in old(unhoused)
      ensures err.Some? ==> err.value == AlreadyExists(m.id)
      ensures unhoused == if err.Some? then old(unhoused) else old(unhoused)[m.id := m]
      ensures housed == old(housed) && dead == old(dead)
    {
      match AddToMap(unhoused, m.id, m)
      case Success(r) =>
        unhoused := r;
        err := None;
      case Failure(e) =>
        err := Some(e);
    }

    method RemoveUnhoused(id: int)
      modifies this
      ensures unhoused == old(unhoused) - {id} && housed == old(housed) && dead == old(dead)
    {
      unhoused := unhoused - {id};
    }

    method AddDead(m: Mole) returns (err: Option<AddError>)
      modifies this
      ensures err.Some? <==> m.id in old(dead)
      ensures err.Some? ==> err.value == AlreadyExists(m.id)
      ensures dead == if err.Some? then old(dead) else old(dead)[m.id := m]
      ensures housed == old(housed) && unhoused == old(unhoused)
    {
      match AddToMap(dead, m.id, m)
      case Success(r) =>
        dead := r;
        err := None;
      case Failure(e) =>
        err := Some(e);
    }

    method RemoveDead(id: int)
      modifies this
      ensures dead == old(dead) - {id} && housed == old(housed) && unhoused == old(unhoused)
    {
      dead := dead - {id};
    }

    /** The record of mole `id`: what the engine reaches through a `*Mole` pointer. */
    function Find(id: int): (r: Option<Mole>)
      reads this
      ensures r.Some? <==> id in housed || id in unhoused || id in dead
      ensures id in housed ==> r == Some(housed[id])
      ensures id !in housed && id in unhoused ==> r == Some(unhoused[id])
      ensures id !in housed && id !in unhoused && id in dead ==> r == Some(dead[id])
    {
      if id in housed then Some(housed[id])
      else if id in unhoused then Some(unhoused[id])
      else if id in dead then Some(dead[id])
      else None
    }

    /**
     * A write through the shared pointer: the record filed under `m.id` is
     * replaced by `m` in every bucket that files it.
     */
    method Rewrite(m: Mole)
      modifies this
      ensures housed == if m.id in old(housed) then old(housed)[m.id := m] else old(housed)
      ensures unhoused == if m.id in old(unhoused) then old(unhoused)[m.id := m] else old(unhoused)
      ensures dead == if m.id in old(dead) then old(dead)[m.id := m] else old(dead)
    {
      if m.id in housed { housed := housed[m.id := m]; }
      if m.id in unhoused { unhoused := unhoused[m.id := m]; }
      if m.id in dead { dead := dead[m.id := m]; }
    }

    /** `GetMoleStats`: the number of living moles (housed or not) and of dead ones. */
    function GetMoleStats(): (r: (int, int))
      reads this
      ensures r.0 == |housed| + |unhoused| && r.1 == |dead|
    {
      (|housed| + |unhoused|, |dead|)
    }
  }

  /** Both registries as one value. */
  function Snapshot(hs: HoleSet, ms: MoleSet): (b: Board)
    reads hs, ms
    ensures b.available == hs.available && b.unavailable == hs.unavailable
    ensures b.housed == ms.housed && b.unhoused == ms.unhoused && b.dead == ms.dead
  {
    Board(hs.available, hs.unavailable, ms.housed, ms.unhoused, ms.dead)
  }
}
