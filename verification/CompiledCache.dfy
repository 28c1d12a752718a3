/** The cache of compiled components: at most 32 of them, and the order they came in decides which goes. */
module CompiledCaches {
  import opened Wrappers

  const CAPACITY := 32

  /** The cache as a value: the map, and its keys in the order they were inserted. */
  datatype Cache<V> = Cache(byKey: map<string, V>, order: seq<string>) {

    /** The queue is the map's keys, each once, and never longer than the capacity. */
    ghost predicate Valid() {
      && (forall k :: k in byKey <==> k in order)
      && Distinct(order)
      && |order| <= CAPACITY
    }

    function Insert(key: string, value: V): Cache<V> {
      if key in byKey then
        this.(byKey := byKey[key := value])
      else
        Cache(byKey[key := value], order + [key]).Evict()
    }

    function Evict(): Cache<V>
      decreases |order|
    {
      if |order| <= CAPACITY then this
      else Cache(byKey - {order[0]}, order[1..]).Evict()
    }
  }

  function Empty<V>(): Cache<V> {
    Cache(map[], [])
  }

  ghost predicate Distinct(order: seq<string>) {
    forall i, j | 0 <= i < j < |order| :: order[i] != order[j]
  }

  lemma {:induction false} MembersAfterFirst(order: seq<string>)
    requires order != [] && Distinct(order)
    ensures Distinct(order[1..])
    ensures forall k :: k in order[1..] <==> k in order && k != order[0]
  {
    forall k ensures k in order[1..] <==> k in order && k != order[0] {
      if k in order[1..] {
        var i :| 0 <= i < |order[1..]| && order[1..][i] == k;
        assert order[i + 1] == k;
      }
      if k in order && k != order[0] {
        var i :| 0 <= i < |order| && order[i] == k;
        assert order[1..][i - 1] == k;
      }
    }
  }

  /** Inserting a new key puts it at the end of the queue, in place of the oldest when the queue is full. */
  lemma {:induction false} InsertNew<V>(c: Cache<V>, key: string, value: V)
    requires c.Valid() && key !in c.byKey
    ensures c.Insert(key, value) ==
            if |c.order| < CAPACITY then Cache(c.byKey[key := value], c.order + [key])
            else Cache(c.byKey[key := value] - {c.order[0]}, c.order[1..] + [key])
    ensures c.Insert(key, value).Valid()
  {
    var order := c.order + [key];
    assert Distinct(c.order);
    assert Distinct(order);
    assert forall k :: k in order <==> k in c.byKey[key := value];
    if |order| > CAPACITY {
      assert order[0] == c.order[0] && order[1..] == c.order[1..] + [key];
      MembersAfterFirst(order);
      var evicted := Cache(c.byKey[key := value] - {order[0]}, order[1..]);
      assert evicted.Evict() == evicted;
    }
  }

  /** One insertion: the new entry is there, and at most the oldest other one is gone. */
  lemma {:induction false} InsertKeepsValid<V>(c: Cache<V>, key: string, value: V)
    requires c.Valid()
    ensures c.Insert(key, value).Valid()
    ensures key in c.Insert(key, value).byKey && c.Insert(key, value).byKey[key] == value
    ensures c.Insert(key, value).byKey.Keys ==
            c.byKey.Keys + {key} - (if key !in c.byKey && |c.order| == 32 then {c.order[0]} else {})
    ensures |c.Insert(key, value).order| <= 32
    ensures forall k | k in c.Insert(key, value).byKey && k != key :: c.Insert(key, value).byKey[k] == c.byKey[k]
  {
    if key !in c.byKey {
      InsertNew(c, key, value);
      if |c.order| == CAPACITY {
        assert c.order[0] in c.order;
      }
    }
  }

  /** How many keys were inserted after `key`. */
  ghost predicate AtAge<V>(c: Cache<V>, key: string, age: nat) {
    age < |c.order| && c.order[|c.order| - 1 - age] == key
  }

  function InsertAll<V>(c: Cache<V>, entries: seq<(string, V)>): Cache<V>
    decreases |entries|
  {
    if entries == [] then c else InsertAll(c.Insert(entries[0].0, entries[0].1), entries[1..])
  }

  /** An entry outlives every run of insertions too short to push it off the end of the queue. */
  lemma {:induction false} Survives<V>(c: Cache<V>, key: string, age: nat, entries: seq<(string, V)>)
    requires c.Valid() && AtAge(c, key, age)
    requires age + |entries| < 32
    ensures InsertAll(c, entries).Valid() && key in InsertAll(c, entries).byKey
    decreases |entries|
  {
    hide Cache.Insert;
    assert key in c.order;
    if entries != [] {
      var (k, v) := entries[0];
      InsertKeepsValid(c, k, v);
      InsertAges(c, key, age, k, v);
      Survives(c.Insert(k, v), key, if k in c.byKey then age else age + 1, entries[1..]);
    }
  }

  /** An insertion ages every entry by one, unless it only replaces what is there. */
  lemma {:induction false} InsertAges<V>(c: Cache<V>, key: string, age: nat, k: string, v: V)
    requires c.Valid() && AtAge(c, key, age) && age + 1 < CAPACITY
    ensures AtAge(c.Insert(k, v), key, if k in c.byKey then age else age + 1)
  {
    if k !in c.byKey {
      InsertNew(c, k, v);
      hide Cache.Insert, Cache.Valid;
    }
  }

  class CompiledCache<V> {
    var byKey: map<string, V>
    var insertionOrder: seq<string>

    function Contents(): Cache<V>
      reads this
    {
      Cache(byKey, insertionOrder)
    }

    ghost predicate Valid()
      reads this
    {
      Contents().Valid()
    }

    constructor ()
      ensures Valid() && Contents() == Empty<V>()
    {
      byKey, insertionOrder := map[], [];
    }

    method Get(key: string) returns (found: Option<V>)
      ensures found == if key in byKey then Some(byKey[key]) else None
    {
      found := if key in byKey then Some(byKey[key]) else None;
    }

    method Insert(key: string, value: V)
      requires Valid()
      modifies this
      ensures Valid()
      ensures Contents() == old(Contents()).Insert(key, value)
    {
      InsertKeepsValid(Contents(), key, value);
      var present := key in byKey;
      byKey := byKey[key := value];
      if present {
        return;
      }
      insertionOrder := insertionOrder + [key];
      while |insertionOrder| > CAPACITY
        invariant Contents().Evict() == old(Contents()).Insert(key, value)
        decreases |insertionOrder|
      {
        var oldest := insertionOrder[0];
        insertionOrder := insertionOrder[1..];
        byKey := byKey - {oldest};
      }
    }
  }
}
