/**
 * The memory timeline (`create_memory`, `get_memories`, `delete_memory`).
 * A paired user adds a memory for the pair; both partners see the pair's
 * memories; only the memory's creator can delete it. The collection is a
 * sequence in insertion order; the fresh id and the time are parameters,
 * and the memory's own date is the text the client sent.
 */
module Memories {
  import opened Common
  import opened PairKey

  datatype Memory = Memory(
    id: string, pairKey: string, title: string, description: string, date: string,
    photoUrl: Option<string>, createdBy: UserId, createdByName: string, createdAt: int)

  /** `create_memory`: refused to an unpaired user; otherwise the memory is appended for the caller's pair. */
  function Create(ms: seq<Memory>, me: User, title: string, description: string, date: string,
                  photoUrl: Option<string>, newId: string, at: int): (r: Result<seq<Memory>>)
    ensures r.Err? <==> !me.Paired()
    ensures r.Err? ==> r.error == NotPaired
    ensures r.Ok? ==> r.value == ms + [Memory(newId, Key(me.id, me.partner.value.id), title, description, date,
                                              photoUrl, me.id, me.name, at)]
  {
    if !me.Paired() then Err(NotPaired)
    else Ok(ms + [Memory(newId, Key(me.id, me.partner.value.id), title, description, date, photoUrl, me.id, me.name, at)])
  }

  /** The memories stored for pair `key`, in order. */
  function ForPair(ms: seq<Memory>, key: string): (r: seq<Memory>)
    ensures forall m :: m in r <==> m in ms && m.pairKey == key
  {
    if ms == [] then []
    else (if ms[0].pairKey == key then [ms[0]] else []) + ForPair(ms[1..], key)
  }

  /** `get_memories`: refused to an unpaired user; otherwise the pair's memories. */
  function List(ms: seq<Memory>, me: User): (r: Result<seq<Memory>>)
    ensures r.Err? <==> !me.Paired()
    ensures r.Ok? ==> forall m :: m in r.value <==> m in ms && m.pairKey == Key(me.id, me.partner.value.id)
  {
    if !me.Paired() then Err(NotPaired) else Ok(ForPair(ms, Key(me.id, me.partner.value.id)))
  }

  /** Both partners see the same memories. */
  lemma ListSameForPartners(ms: seq<Memory>, me: User, other: User)
    requires me.Paired() && other.Paired()
    requires other.id == me.partner.value.id && other.partner.value.id == me.id
    ensures List(ms, me) == List(ms, other)
  {
    KeySymmetric(me.id, other.id);
  }

  /** Position of the first memory with this id created by `me`, or `|ms|`. */
  function FindOwn(ms: seq<Memory>, me: UserId, id: string): (i: nat)
    ensures i <= |ms|
    ensures i < |ms| ==> ms[i].id == id && ms[i].createdBy == me
    ensures forall j :: 0 <= j < i ==> !(ms[j].id == id && ms[j].createdBy == me)
  {
    if ms == [] then 0
    else if ms[0].id == id && ms[0].createdBy == me then 0
    else 1 + FindOwn(ms[1..], me, id)
  }

  /**
   * `delete_memory`: the first memory with the id that the caller created is
   * removed; when there is none (an unknown id, or someone else's memory)
   * nothing is removed and the memory is reported not found.
   */
  function Delete(ms: seq<Memory>, me: UserId, id: string): (r: Result<seq<Memory>>)
    ensures r.Err? <==> forall k :: 0 <= k < |ms| ==> !(ms[k].id == id && ms[k].createdBy == me)
    ensures r.Err? ==> r.error == MemoryNotFound
    ensures r.Ok? ==>
      var i := FindOwn(ms, me, id);
      i < |ms| && r.value == ms[..i] + ms[i + 1..]
  {
    var i := FindOwn(ms, me, id);
    if i == |ms| then Err(MemoryNotFound) else Ok(ms[..i] + ms[i + 1..])
  }

  /**
   * A delete takes away exactly one memory, one the caller created, and
   * every memory of anyone else is still there.
   */
  lemma DeleteOnlyOwn(ms: seq<Memory>, me: UserId, id: string)
    requires Delete(ms, me, id).Ok?
    ensures var r := Delete(ms, me, id).value; var i := FindOwn(ms, me, id);
      && multiset(r) + multiset{ms[i]} == multiset(ms)
      && ms[i].createdBy == me && ms[i].id == id
      && forall m :: m in ms && m.createdBy != me ==> m in r
  {
    var i := FindOwn(ms, me, id);
    assert ms == ms[..i] + [ms[i]] + ms[i + 1..];
    var r := ms[..i] + ms[i + 1..];
    forall m | m in ms && m.createdBy != me
      ensures m in r
    {
      assert m in multiset(ms);
      assert m != ms[i];
    }
  }

  /** The `memories` collection, updated in place by the handlers. */
  class MemoryStore {
    var memories: seq<Memory>

    constructor ()
      ensures memories == []
    {
      memories := [];
    }

    method HandleCreate(me: User, title: string, description: string, date: string,
                        photoUrl: Option<string>, newId: string, at: int) returns (r: Result<Memory>)
      modifies this
      ensures var c := Create(old(memories), me, title, description, date, photoUrl, newId, at);
        && (c.Ok? ==> r.Ok? && memories == c.value && r.value == memories[|memories| - 1])
        && (c.Err? ==> r == Err(c.error) && memories == old(memories))
    {
      if !me.Paired() {
        return Err(NotPaired);
      }
      var m := Memory(newId, Key(me.id, me.partner.value.id), title, description, date, photoUrl, me.id, me.name, at);
      memories := memories + [m];
      r := Ok(m);
    }

    method HandleDelete(me: UserId, id: string) returns (r: Result<()>)
      modifies this
      ensures var d := Delete(old(memories), me, id);
        && (d.Ok? ==> r.Ok? && memories == d.value)
        && (d.Err? ==> r == Err(d.error) && memories == old(memories))
    {
      var i := FindOwn(memories, me, id);
      if i == |memories| {
        return Err(MemoryNotFound);
      }
      memories := memories[..i] + memories[i + 1..];
      r := Ok(());
    }
  }
}
