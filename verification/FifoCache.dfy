/** The first-in-first-out cache behind the receipt cache and the status-token cache. */
module FifoCache {
  import opened Text

  datatype Entry<V> = Entry(value: V, expiresAt: int)

  /** The abstract cache: the keys from the oldest to the youngest, and what each is bound to. */
  datatype Model<V> = Model(order: seq<string>, entries: map<string, Entry<V>>)

  predicate NoRepeats(keys: seq<string>) {
    forall i, j :: 0 <= i < j < |keys| ==> keys[i] != keys[j]
  }

  ghost predicate Consistent<V>(m: Model<V>) {
    NoRepeats(m.order) && forall k :: k in m.order <==> k in m.entries
  }

  // ---------------------------------------------------------------- the abstract operations

  /** The order once `id` is bound: a key that is there keeps its place. */
  function WithKey(order: seq<string>, id: string): seq<string> {
    if id in order then order else order + [id]
  }

  /** How many of the oldest keys are over capacity. */
  function Excess(n: nat, max: int): (drop: nat)
    ensures drop <= n && (n <= max ==> drop == 0) && (0 <= max < n ==> n - drop == max) && (max < 0 ==> drop == n)
  {
    if n <= max then 0 else if max < 0 then n else n - max
  }

  function WithoutKey(order: seq<string>, id: string): seq<string> {
    if order == [] then [] else if order[0] == id then order[1..] else [order[0]] + WithoutKey(order[1..], id)
  }

  /** Keep the keys listed, with their entries. */
  function Restrict<V>(order: seq<string>, entries: map<string, Entry<V>>): Model<V> {
    Model(order, map k | k in order && k in entries :: entries[k])
  }

  /** What is left after the i oldest keys are dropped. */
  function Trim<V>(m: Model<V>, i: nat): Model<V>
    requires i <= |m.order|
  {
    Restrict(m.order[i..], m.entries)
  }

  /** Bind `id`, then drop the oldest keys over capacity. */
  function Put<V>(m: Model<V>, id: string, e: Entry<V>, max: int): Model<V> {
    var bound := Model(WithKey(m.order, id), m.entries[id := e]);
    Trim(bound, Excess(|bound.order|, max))
  }

  function Remove<V>(m: Model<V>, id: string): Model<V> {
    Restrict(WithoutKey(m.order, id), m.entries)
  }

  // ---------------------------------------------------------------- facts about lists of keys

  lemma {:induction false} WithoutKeyFacts(order: seq<string>, id: string)
    requires NoRepeats(order)
    ensures NoRepeats(WithoutKey(order, id)) && |WithoutKey(order, id)| <= |order|
    ensures forall k :: k in WithoutKey(order, id) <==> k in order && k != id
  {
    if order != [] {
      assert order == [order[0]] + order[1..];
      assert order[0] !in order[1..];
      WithoutKeyFacts(order[1..], id);
    }
  }

  /** The first occurrence is cut out; without one nothing changes. */
  lemma {:induction false} WithoutKeyAt(order: seq<string>, id: string, i: nat)
    requires i <= |order| && id !in order[..i]
    ensures i == |order| ==> WithoutKey(order, id) == order
    ensures i < |order| && order[i] == id ==> WithoutKey(order, id) == order[..i] + order[i + 1..]
  {
    if i > 0 {
      assert order[0] in order[..i] && order[..i] == [order[0]] + order[1..][..i - 1];
      WithoutKeyAt(order[1..], id, i - 1);
      assert order == [order[0]] + order[1..];
    }
  }

  /** Two keys that remain were in the same order before. */
  lemma {:induction false} WithoutKeyOrder(order: seq<string>, id: string, i: nat, j: nat) returns (a: nat, b: nat)
    requires i < j < |WithoutKey(order, id)|
    ensures a < b < |order| && order[a] == WithoutKey(order, id)[i] && order[b] == WithoutKey(order, id)[j]
  {
    if order[0] == id {
      a, b := i + 1, j + 1;
    } else if i == 0 {
      a := 0;
      b := WithoutKeyPlace(order[1..], id, j - 1);
      b := b + 1;
    } else {
      a, b := WithoutKeyOrder(order[1..], id, i - 1, j - 1);
      a, b := a + 1, b + 1;
    }
  }

  lemma {:induction false} WithoutKeyPlace(order: seq<string>, id: string, i: nat) returns (a: nat)
    requires i < |WithoutKey(order, id)|
    ensures a < |order| && order[a] == WithoutKey(order, id)[i]
  {
    if order[0] == id {
      a := i + 1;
    } else if i == 0 {
      a := 0;
    } else {
      a := WithoutKeyPlace(order[1..], id, i - 1);
      a := a + 1;
    }
  }

  lemma {:induction false} SameSize(order: seq<string>, keys: set<string>)
    requires NoRepeats(order) && forall k :: k in order <==> k in keys
    ensures |order| == |keys|
  {
    if order == [] {
      assert keys == {};
    } else {
      var init, last := order[..|order| - 1], order[|order| - 1];
      assert order == init + [last] && last in order && last !in init;
      SameSize(init, keys - {last});
    }
  }

  lemma TrimNone<V>(m: Model<V>)
    requires Consistent(m)
    ensures Trim(m, 0) == m
  {
    assert m.order[0..] == m.order;
    assert m.entries == map k | k in m.order && k in m.entries :: m.entries[k];
  }

  lemma TailOf(order: seq<string>, i: nat)
    requires NoRepeats(order) && i < |order|
    ensures order[i..][1..] == order[i + 1..] && order[i..][0] == order[i]
    ensures forall k :: k in order[i + 1..] <==> k in order[i..] && k != order[i]
  {
    assert order[i..] == [order[i]] + order[i + 1..];
  }

  lemma TrimOne<V>(m: Model<V>, i: nat)
    requires Consistent(m) && i < |m.order|
    ensures var rest := Trim(m, i); Trim(m, i + 1) == Model(rest.order[1..], rest.entries - {rest.order[0]})
  {
    TailOf(m.order, i);
    assert Trim(m, i).entries - {m.order[i]} == Trim(m, i + 1).entries;
  }

  lemma TrimStep<V>(m: Model<V>, i: nat, rest: Model<V>)
    requires Consistent(m) && i <= |m.order| && rest == Trim(m, i) && rest.order != []
    ensures i < |m.order| && Model(rest.order[1..], rest.entries - {rest.order[0]}) == Trim(m, i + 1)
  {
    TrimOne(m, i);
  }

  lemma PutConsistent<V>(m: Model<V>, id: string, e: Entry<V>, max: int)
    requires Consistent(m)
    ensures Consistent(Put(m, id, e, max))
  {
    var order := WithKey(m.order, id);
    assert forall k :: k in order <==> k in m.entries[id := e];
    var kept := order[Excess(|order|, max)..];
    assert forall k :: k in kept ==> k in order;
  }

  lemma RemoveConsistent<V>(m: Model<V>, id: string)
    requires Consistent(m)
    ensures Consistent(Remove(m, id)) && Remove(m, id).entries == m.entries - {id}
  {
    WithoutKeyFacts(m.order, id);
  }

  // ---------------------------------------------------------------- the object

  /** `ReceiptCache` passes insertion time + TTL as `expiresAt`, `StatusTokenCache` the token's own
      expiry; everything else is the same code. */
  class Cache<V> {
    const maxEntries: int
    var entries: map<string, Entry<V>>
    var insertOrder: seq<string>

    ghost function Abstract(): Model<V>
      reads this
    {
      Model(insertOrder, entries)
    }

    ghost predicate Valid()
      reads this
    {
      Consistent(Abstract())
    }

    constructor (maxEntries: int)
      ensures Valid() && Abstract() == Model([], map[]) && this.maxEntries == maxEntries
    {
      this.maxEntries := maxEntries;
      entries, insertOrder := map[], [];
    }

    method Get(id: string, now: int) returns (value: Option<V>)
      ensures value == if id in entries && now <= entries[id].expiresAt then Some(entries[id].value) else None
    {
      if id !in entries {
        return None;
      }
      if now > entries[id].expiresAt {
        return None;
      }
      return Some(entries[id].value);
    }

    method Len() returns (n: nat)
      requires Valid()
      ensures n == |insertOrder|
    {
      SameSize(insertOrder, entries.Keys);
      n := |entries|;
    }

    method Insert(id: string, value: V, expiresAt: int)
      requires Valid()
      modifies this
      ensures Valid() && Abstract() == Put(old(Abstract()), id, Entry(value, expiresAt), maxEntries)
    {
      PutConsistent(Abstract(), id, Entry(value, expiresAt), maxEntries);
      if id !in entries {
        insertOrder := insertOrder + [id];
      }
      entries := entries[id := Entry(value, expiresAt)];
      Evict();
    }

    method DropOldest()
      requires insertOrder != []
      modifies this
      ensures Abstract() == Model(old(insertOrder)[1..], old(entries) - {old(insertOrder)[0]})
    {
      var oldest := insertOrder[0];
      insertOrder := insertOrder[1..];
      entries := entries - {oldest};
    }

    /** Drop from the front, at most all. */
    method DropOldestOf(toRemove: int)
      requires Valid()
      modifies this
      ensures Abstract() == Trim(old(Abstract()), if toRemove < 0 then 0 else if toRemove > |old(insertOrder)| then |old(insertOrder)| else toRemove)
    {
      ghost var start := Abstract();
      TrimNone(start);
      var i := 0;
      while i < toRemove && |insertOrder| > 0
        invariant 0 <= i <= |start.order| && (i > 0 ==> i <= toRemove) && Abstract() == Trim(start, i)
      {
        TrimStep(start, i, Abstract());
        DropOldest();
        i := i + 1;
      }
    }

    /** `evictLocked`: drop from the front while over capacity; within capacity the loop does not run. */
    method Evict()
      requires Valid()
      modifies this
      ensures Abstract() == Trim(old(Abstract()), Excess(|old(insertOrder)|, maxEntries))
    {
      SameSize(insertOrder, entries.Keys);
      DropOldestOf(|entries| - maxEntries);
    }

    /** `removeFromOrderLocked`: cut the first occurrence out of the slice. */
    method RemoveFromOrder(id: string)
      modifies this`insertOrder
      ensures insertOrder == WithoutKey(old(insertOrder), id)
    {
      var i := 0;
      while i < |insertOrder|
        invariant 0 <= i <= |insertOrder| && insertOrder == old(insertOrder)
        invariant id !in insertOrder[..i]
      {
        WithoutKeyAt(insertOrder, id, i);
        if insertOrder[i] == id {
          insertOrder := insertOrder[..i] + insertOrder[i + 1..];
          return;
        }
        i := i + 1;
      }
      WithoutKeyAt(insertOrder, id, i);
    }

    method Invalidate(id: string)
      requires Valid()
      modifies this
      ensures Valid() && Abstract() == Remove(old(Abstract()), id)
    {
      RemoveConsistent(Abstract(), id);
      if id in entries {
        entries := entries - {id};
        RemoveFromOrder(id);
      } else {
        assert entries - {id} == entries;
        WithoutKeyAt(insertOrder, id, |insertOrder|);
      }
    }
  }

  // ---------------------------------------------------------------- all runs

  datatype Op<V> = Insertion(id: string, entry: Entry<V>) | Invalidation(id: string)

  function Apply<V>(m: Model<V>, op: Op<V>, max: int): Model<V> {
    match op
    case Insertion(id, e) => Put(m, id, e, max)
    case Invalidation(id) => Remove(m, id)
  }

  function Run<V>(ops: seq<Op<V>>, max: int): Model<V> {
    if ops == [] then Model([], map[]) else Apply(Run(ops[..|ops| - 1], max), ops[|ops| - 1], max)
  }

  /** The entry of the last insertion under this key. */
  function LastInsertion<V>(ops: seq<Op<V>>, id: string): Option<Entry<V>> {
    if ops == [] then None
    else
      var last := ops[|ops| - 1];
      if last.Insertion? && last.id == id then Some(last.entry) else LastInsertion(ops[..|ops| - 1], id)
  }

  /** After any run the order lists exactly the keys, without repeats and at most as many as
      allowed, and each key is bound to the entry inserted last under it. */
  lemma {:induction false} RunIsBoundedAndCurrent<V>(ops: seq<Op<V>>, max: int)
    ensures var m := Run(ops, max);
            Consistent(m) && |m.order| <= (if max < 0 then 0 else max) &&
            forall k :: k in m.entries ==> LastInsertion(ops, k) == Some(m.entries[k])
  {
    if ops != [] {
      var n := |ops| - 1;
      var before := Run(ops[..n], max);
      RunIsBoundedAndCurrent(ops[..n], max);
      match ops[n]
      case Insertion(id, e) => PutConsistent(before, id, e, max);
      case Invalidation(id) =>
        RemoveConsistent(before, id);
        WithoutKeyFacts(before.order, id);
    }
  }

  /** The last n keys, or all when there are no more. */
  function LastOf(order: seq<string>, n: int): seq<string> {
    if |order| <= n then order else if n <= 0 then [] else order[|order| - n..]
  }

  lemma LastByExcess(order: seq<string>, max: int)
    ensures order[Excess(|order|, max)..] == LastOf(order, max)
    ensures forall k :: k in LastOf(order, max) ==> k in order
  {
  }

  /** A key at the end is among the last. */
  lemma NewestStays(order: seq<string>, id: string, max: int)
    requires max >= 1 && (if id in order then |order| <= max else true)
    ensures id in LastOf(WithKey(order, id), max)
  {
    var all := WithKey(order, id);
    if |all| > max {
      InSuffix(all, |all| - max, |all| - 1);
    }
  }

  /** Keys kept are bound as they were, the new one to the new entry. */
  ghost predicate KeptAs<V>(m: Model<V>, after: Model<V>, id: string, e: Entry<V>) {
    && (forall k :: k in after.order ==> k in after.entries)
    && (id in after.order ==> after.entries[id] == e)
    && forall k :: k in after.order && k != id ==> k in m.entries && after.entries[k] == m.entries[k]
  }

  lemma PutKeeps<V>(m: Model<V>, id: string, e: Entry<V>, max: int)
    requires Consistent(m)
    ensures var after := Put(m, id, e, max);
            after.order == LastOf(if id in m.order then m.order else m.order + [id], max) && KeptAs(m, after, id, e)
  {
    LastByExcess(WithKey(m.order, id), max);
  }

  /** After every run an insertion, when there is any room at all, leaves its key in the cache with its entry; the keys
      are the last of those there were, with the key at the end if it is new, as many as fit; all others keep their entry. */
  lemma {:induction false} InsertionKeepsTheLast<V>(ops: seq<Op<V>>, max: int, id: string, e: Entry<V>)
    ensures var before, after := Run(ops, max), Run(ops + [Insertion(id, e)], max);
            && after.order == LastOf(if id in before.order then before.order else before.order + [id], max)
            && (max >= 1 ==> id in after.order) && KeptAs(before, after, id, e)
  {
    assert (ops + [Insertion(id, e)])[..|ops|] == ops;
    RunIsBoundedAndCurrent(ops, max);
    PutKeeps(Run(ops, max), id, e, max);
    if max >= 1 {
      NewestStays(Run(ops, max).order, id, max);
    }
  }

  /** And an invalidation takes away its key alone. */
  lemma {:induction false} InvalidationTakesOnlyItsKey<V>(ops: seq<Op<V>>, max: int, id: string)
    ensures var before, after := Run(ops, max), Run(ops + [Invalidation(id)], max);
            && after.entries == before.entries - {id}
            && (id !in before.order ==> after.order == before.order)
            && forall i :: 0 <= i < |before.order| && before.order[i] == id ==> after.order == before.order[..i] + before.order[i + 1..]
  {
    var op: Op<V> := Invalidation(id);
    assert (ops + [op])[..|ops|] == ops;
    RunIsBoundedAndCurrent(ops, max);
    var before := Run(ops, max);
    RemoveConsistent(before, id);
    if id !in before.order {
      WithoutKeyAt(before.order, id, |before.order|);
    }
    forall i | 0 <= i < |before.order| && before.order[i] == id
      ensures WithoutKey(before.order, id) == before.order[..i] + before.order[i + 1..]
    {
      WithoutKeyAt(before.order, id, i);
    }
  }

  /** When the present stay of a key began: at the insertion that found it absent. */
  function Born<V>(ops: seq<Op<V>>, max: int, id: string): (i: nat)
    requires id in Run(ops, max).order
    ensures i < |ops|
  {
    var n := |ops| - 1;
    if id in Run(ops[..n], max).order then Born(ops[..n], max, id) else n
  }

  /** Before its birth the key was absent, and from then on it never left. */
  lemma {:induction false} StaysSinceBirth<V>(ops: seq<Op<V>>, max: int, id: string, j: nat)
    requires id in Run(ops, max).order && Born(ops, max, id) <= j <= |ops|
    ensures id in Run(ops[..j], max).order <==> j > Born(ops, max, id)
  {
    var init := ops[..|ops| - 1];
    if j == |ops| {
      assert ops[..j] == ops;
    } else if id in Run(init, max).order {
      StaysSinceBirth(init, max, id, j);
      assert init[..j] == ops[..j];
    } else {
      assert ops[..j] == init;
    }
  }

  /** Where two keys stood before a step: in the same order, unless the second is new. */
  lemma Places<V>(m: Model<V>, op: Op<V>, max: int, i: nat, j: nat) returns (a: nat, b: nat)
    requires i < j < |Apply(m, op, max).order|
    ensures a < |m.order| && m.order[a] == Apply(m, op, max).order[i]
    ensures (a < b < |m.order| && m.order[b] == Apply(m, op, max).order[j]) || Apply(m, op, max).order[j] !in m.order
  {
    match op
    case Insertion(id, _) =>
      var order := WithKey(m.order, id);
      var drop := Excess(|order|, max);
      a, b := drop + i, drop + j;
    case Invalidation(id) =>
      a, b := WithoutKeyOrder(m.order, id, i, j);
  }

  /** The order of the keys is the order of their births: inserting again moves nothing. */
  lemma {:induction false} OrderIsByBirth<V>(ops: seq<Op<V>>, max: int, i: nat, j: nat)
    requires i < j < |Run(ops, max).order|
    ensures var order := Run(ops, max).order; Born(ops, max, order[i]) < Born(ops, max, order[j])
  {
    var n := |ops| - 1;
    var before, order := Run(ops[..n], max).order, Run(ops, max).order;
    var a, b := Places(Run(ops[..n], max), ops[n], max, i, j);
    if order[j] in before {
      OrderIsByBirth(ops[..n], max, a, b);
    }
  }

  lemma InSuffix(order: seq<string>, drop: nat, g: nat)
    requires drop <= |order| && g < |order|
    ensures g >= drop ==> order[g] in order[drop..]
  {
    if g >= drop {
      assert order[drop..][g - drop] == order[g];
    }
  }

  /** What is dropped from the front stood before what stays. */
  lemma DroppedIsEarlier(order: seq<string>, drop: nat, g: nat, k: nat)
    requires drop <= |order| && g < |order| && k < |order| && NoRepeats(order)
    requires order[g] !in order[drop..] && order[k] in order[drop..]
    ensures g < drop <= k
  {
    InSuffix(order, drop, g);
    var p :| 0 <= p < |order[drop..]| && order[drop..][p] == order[k];
    assert order[drop + p] == order[k];
  }

  /** Eviction takes exactly the excess, and exactly the oldest: whatever an insertion drops was born
      before everything that was there and stays. */
  lemma {:induction false} EvictionTakesTheOldest<V>(ops: seq<Op<V>>, max: int, id: string, e: Entry<V>, gone: string, kept: string)
    requires var before, after := Run(ops, max).order, Put(Run(ops, max), id, e, max).order;
             gone in before && gone !in after && kept in before && kept in after
    ensures Born(ops, max, gone) < Born(ops, max, kept)
    ensures |Put(Run(ops, max), id, e, max).order| == max
  {
    var before := Run(ops, max).order;
    var order := WithKey(before, id);
    RunIsBoundedAndCurrent(ops, max);
    var g :| 0 <= g < |before| && before[g] == gone;
    var k :| 0 <= k < |before| && before[k] == kept;
    assert NoRepeats(order) && order[g] == gone && order[k] == kept;
    DroppedIsEarlier(order, Excess(|order|, max), g, k);
    OrderIsByBirth(ops, max, g, k);
  }

  /** And exactly the excess: an insertion that drops any key at all leaves the cache full. */
  lemma {:induction false} EvictionLeavesItFull<V>(ops: seq<Op<V>>, max: int, id: string, e: Entry<V>, gone: string)
    requires gone in Run(ops, max).order && gone !in Put(Run(ops, max), id, e, max).order
    ensures |Put(Run(ops, max), id, e, max).order| == if max < 0 then 0 else max
  {
    var order := WithKey(Run(ops, max).order, id);
    assert order[0..] == order;
    assert gone in order;
  }
}
