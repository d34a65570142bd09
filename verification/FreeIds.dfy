/**
 The array free lists of Mini-OS (grant references, transmit ids).  Entry 0
 holds the first free id, and the entry of a free id holds the next one.  No
 entry marks the end: how far the links may be followed is known only from a
 semaphore beside the list.
 */
module FreeIds {

  /** Ids from low to high, the link of id being in entry id + shift. */
  datatype Shape = Shape(low: nat, high: nat, shift: nat)
  {
    predicate Ok() {
      low <= high && low + shift > 0
    }

    predicate IsId(id: nat) {
      low <= id < high
    }

    /** Entries the list array needs. */
    function Size(): nat {
      high + shift
    }
  }

  /** x for every id below n. */
  function ForEach<T>(low: nat, n: nat, x: T): (m: map<nat, T>)
    ensures forall id :: id in m <==> low <= id < n
    ensures forall id :: id in m ==> m[id] == x
  {
    if n <= low then map[] else ForEach(low, n - 1, x)[n - 1 := x]
  }

  // ----- the two critical sections, on the array's contents

  function Pushed(list: seq<nat>, shape: Shape, id: nat): seq<nat>
    requires shape.Ok() && |list| == shape.Size() && shape.IsId(id)
  {
    list[id + shape.shift := list[0]][0 := id]
  }

  function Popped(list: seq<nat>, shape: Shape): seq<nat>
    requires shape.Ok() && |list| == shape.Size() && shape.IsId(list[0])
  {
    list[0 := list[list[0] + shape.shift]]
  }

  /** Following |free| links from entry 0 visits the ids of free, each once.
      Nothing is said of the link after the last. */
  ghost predicate Chain(list: seq<nat>, shape: Shape, free: seq<nat>) {
    && shape.Ok() && |list| == shape.Size()
    && (forall k :: 0 <= k < |free| ==> shape.IsId(free[k]))
    && (forall j, k :: 0 <= j < k < |free| ==> free[j] != free[k])
    && (free != [] ==> list[0] == free[0])
    && (forall k :: 0 <= k < |free| - 1 ==> Next(list, shape, free[k]) == free[k + 1])
  }

  function Next(list: seq<nat>, shape: Shape, id: nat): nat {
    if id + shape.shift < |list| then list[id + shape.shift] else 0
  }

  lemma PushChain(list: seq<nat>, shape: Shape, free: seq<nat>, id: nat)
    requires Chain(list, shape, free) && shape.IsId(id) && id !in free
    ensures Chain(Pushed(list, shape, id), shape, [id] + free)
  {
    var now := Pushed(list, shape, id);
    var more := [id] + free;
    forall k | 0 <= k < |more| - 1
      ensures Next(now, shape, more[k]) == more[k + 1]
    {
      if k > 0 {
        assert more[k] == free[k - 1] && Next(list, shape, free[k - 1]) == free[k];
      }
    }
  }

  lemma PopChain(list: seq<nat>, shape: Shape, free: seq<nat>)
    requires Chain(list, shape, free) && free != []
    ensures shape.IsId(list[0]) && list[0] == free[0] && list[0] !in free[1..]
    ensures Chain(Popped(list, shape), shape, free[1..])
  {
    var now := Popped(list, shape);
    var rest := free[1..];
    if |free| > 1 {
      assert Next(list, shape, free[0]) == free[1];
    }
    forall k | 0 <= k < |rest| - 1
      ensures Next(now, shape, rest[k]) == rest[k + 1]
    {
      assert Next(list, shape, free[k + 1]) == free[k + 2];
    }
  }

  /** The array itself. */
  class IdList {
    const shape: Shape
    const list: array<nat>

    ghost predicate Valid()
      reads list
    {
      shape.Ok() && list.Length == shape.Size()
    }

    constructor (shape: Shape)
      requires shape.Ok()
      ensures Valid() && this.shape == shape && fresh(list) && Chain(list[..], shape, [])
    {
      this.shape := shape;
      list := new nat[shape.Size()](_ => 0);
    }

    /** add_id_to_freelist; put_free_entry between its interrupt locks. */
    method Put(id: nat)
      requires Valid() && shape.IsId(id)
      modifies list
      ensures list[..] == Pushed(old(list[..]), shape, id)
    {
      list[id + shape.shift] := list[0];
      list[0] := id;
    }

    /** get_id_from_freelist; get_free_entry between its interrupt locks. */
    method Get() returns (id: nat)
      requires Valid() && shape.IsId(list[0])
      modifies list
      ensures id == old(list[0]) && list[..] == Popped(old(list[..]), shape)
    {
      id := list[0];
      list[0] := list[id + shape.shift];
    }

    /** The loops of init_gnttab and init_netfront: every id free, the last put in first. */
    method Init() returns (ghost free: seq<nat>)
      requires Valid() && Chain(list[..], shape, [])
      modifies list
      ensures Chain(list[..], shape, free) && |free| == shape.high - shape.low
      ensures forall id :: id in free <==> shape.IsId(id)
    {
      free := [];
      var i := shape.low;
      while i < shape.high
        invariant shape.low <= i <= shape.high && Chain(list[..], shape, free) && |free| == i - shape.low
        invariant forall id :: id in free <==> shape.low <= id < i
      {
        PushChain(list[..], shape, free, i);
        Put(i);
        free := [i] + free;
        i := i + 1;
      }
    }
  }
}
