/**
  assoc.c: a hash table that grows by moving one bucket at a time from the old
  table to the new one, while lookups, inserts and deletes go on.
 */
module AssocSpec {

  type Key = seq<bv8>

  datatype Option<T> = None | Some(value: T)

  datatype Item = Item(key: Key, id: nat)

  type Chain = seq<Item>

  /** hashsize(n). */
  function Size(n: nat): nat
    ensures Size(n) > 0
  {
    if n == 0 then 1 else 2 * Size(n - 1)
  }

  /** hv & hashmask(n): the low n bits. */
  function Low(hv: nat, n: nat): nat
    ensures Low(hv, n) < Size(n)
    decreases n
  {
    if n == 0 then 0 else hv % 2 + 2 * Low(hv / 2, n - 1)
  }

  /** The table; prior is meaningful only while expanding. */
  datatype Table = Table(
    hash: Key -> nat,
    power: nat,
    primary: seq<Chain>,
    prior: seq<Chain>,
    expanding: bool,
    expandBucket: nat)
  {
    predicate Shape() {
      && |primary| == Size(power)
      && (expanding ==> power > 0 && |prior| == Size(power - 1) && expandBucket < Size(power - 1))
    }

    /** The test at the top of assoc_find, _hashitem_before and assoc_insert. */
    predicate UsesOld(hv: nat) {
      expanding && power > 0 && Low(hv, power - 1) >= expandBucket
    }

    function ChainFor(hv: nat): Chain
      requires Shape()
    {
      if UsesOld(hv) then prior[Low(hv, power - 1)] else primary[Low(hv, power)]
    }

    function WithChain(hv: nat, c: Chain): Table
      requires Shape()
    {
      if UsesOld(hv) then this.(prior := prior[Low(hv, power - 1) := c])
      else this.(primary := primary[Low(hv, power) := c])
    }
  }

  function FindIn(c: Chain, key: Key): Option<Item> {
    if c == [] then None else if c[0].key == key then Some(c[0]) else FindIn(c[1..], key)
  }

  function RemoveIn(c: Chain, key: Key): Chain {
    if c == [] then [] else if c[0].key == key then c[1..] else [c[0]] + RemoveIn(c[1..], key)
  }

  // ----- operations -----

  function Find(t: Table, key: Key): Option<Item>
    requires t.Shape()
  {
    FindIn(t.ChainFor(t.hash(key)), key)
  }

  function Insert(t: Table, it: Item): Table
    requires t.Shape()
  {
    t.WithChain(t.hash(it.key), [it] + t.ChainFor(t.hash(it.key)))
  }

  function Delete(t: Table, key: Key): Table
    requires t.Shape()
  {
    t.WithChain(t.hash(key), RemoveIn(t.ChainFor(t.hash(key)), key))
  }

  /** assoc_expand when the allocation succeeds. */
  function Expand(t: Table): Table
    requires t.Shape() && !t.expanding
  {
    Table(t.hash, t.power + 1, seq(Size(t.power + 1), i => []), t.primary, true, 0)
  }

  /** Relinks one item of the migrating bucket into the new table. */
  function Relink(hash: Key -> nat, power: nat, primary: seq<Chain>, it: Item): seq<Chain>
    requires |primary| == Size(power)
  {
    var b := Low(hash(it.key), power);
    primary[b := [it] + primary[b]]
  }

  function RelinkAll(hash: Key -> nat, power: nat, primary: seq<Chain>, c: Chain): (r: seq<Chain>)
    requires |primary| == Size(power)
    ensures |r| == |primary|
    decreases |c|
  {
    if c == [] then primary else RelinkAll(hash, power, Relink(hash, power, primary, c[0]), c[1..])
  }

  /** The bucket pointer moves on; after the last bucket the expansion is over. */
  function Advance(t: Table): Table
    requires t.Shape() && t.expanding
  {
    t.(prior := t.prior[t.expandBucket := []],
       expandBucket := t.expandBucket + 1,
       expanding := t.expandBucket + 1 != Size(t.power - 1))
  }

  /** One iteration of the migration loop. */
  function Migrate(t: Table): Table
    requires t.Shape() && t.expanding
  {
    Advance(t.(primary := RelinkAll(t.hash, t.power, t.primary, t.prior[t.expandBucket])))
  }

  // ----- masks -----

  /** The low m bits are determined by the low n bits, m <= n: a bucket index fixes the index in any smaller table. */
  lemma {:induction false} LowLow(hv: nat, m: nat, n: nat)
    requires m <= n
    ensures Low(Low(hv, n), m) == Low(hv, m)
    decreases n
  {
    if m > 0 {
      LowLow(hv / 2, m - 1, n - 1);
    }
  }

  /** One more bit sends a bucket to itself or to its image in the upper half. */
  lemma {:induction false} LowNext(hv: nat, n: nat)
    ensures Low(hv, n + 1) == Low(hv, n) || Low(hv, n + 1) == Low(hv, n) + Size(n)
    decreases n
  {
    if n > 0 {
      LowNext(hv / 2, n - 1);
    }
  }

  /** An index below the table size is its own low bits. */
  lemma {:induction false} LowOfIndex(b: nat, n: nat)
    requires b < Size(n)
    ensures Low(b, n) == b
    decreases n
  {
    if n > 0 {
      LowOfIndex(b / 2, n - 1);
    }
  }

  // ----- chains -----

  predicate DistinctKeys(c: Chain) {
    forall i, j :: 0 <= i < j < |c| ==> c[i].key != c[j].key
  }

  /** A chain with distinct keys finds an item exactly when it holds it. */
  lemma {:induction false} FindInIff(c: Chain, key: Key)
    requires DistinctKeys(c)
    ensures FindIn(c, key).Some? ==> FindIn(c, key).value in c && FindIn(c, key).value.key == key
    ensures forall it :: it in c && it.key == key ==> FindIn(c, key) == Some(it)
  {
    if c != [] {
      assert DistinctKeys(c[1..]);
      FindInIff(c[1..], key);
      assert c == [c[0]] + c[1..];
    }
  }

  lemma ConsDistinct(x: Item, c: Chain)
    requires DistinctKeys(c) && forall it :: it in c ==> it.key != x.key
    ensures DistinctKeys([x] + c)
  {}

  lemma TailDistinct(c: Chain)
    requires DistinctKeys(c) && c != []
    ensures DistinctKeys(c[1..]) && forall it :: it in c[1..] ==> it.key != c[0].key
  {
    var rest := c[1..];
    assert forall i :: 0 <= i < |rest| ==> rest[i] == c[i + 1];
  }

  lemma {:induction false} RemoveInIff(c: Chain, key: Key)
    requires DistinctKeys(c)
    ensures DistinctKeys(RemoveIn(c, key))
    ensures forall it :: it in RemoveIn(c, key) <==> it in c && it.key != key
  {
    if c != [] {
      TailDistinct(c);
      hide DistinctKeys;
      RemoveInIff(c[1..], key);
      if c[0].key != key {
        ConsDistinct(c[0], RemoveIn(c[1..], key));
      }
      assert c == [c[0]] + c[1..];
    }
  }

  // ----- invariant and abstraction -----

  /**
    Every item sits in the chain its key routes to, and no key twice in a chain:
    so each key is in exactly one chain of the two tables.
   */
  ghost predicate Inv(t: Table) {
    && t.Shape()
    && (forall b :: 0 <= b < |t.primary| ==> PrimaryOk(t, b))
    && (t.expanding ==> forall b :: 0 <= b < |t.prior| ==> PriorOk(t, b))
  }

  ghost predicate PrimaryOk(t: Table, b: nat)
    requires t.Shape() && b < |t.primary|
  {
    && DistinctKeys(t.primary[b])
    && forall it :: it in t.primary[b] ==> Low(t.hash(it.key), t.power) == b && !t.UsesOld(t.hash(it.key))
  }

  ghost predicate PriorOk(t: Table, b: nat)
    requires t.Shape() && t.expanding && b < |t.prior|
  {
    && DistinctKeys(t.prior[b])
    && forall it :: it in t.prior[b] ==> Low(t.hash(it.key), t.power - 1) == b && t.UsesOld(t.hash(it.key))
  }

  ghost predicate InPrimary(t: Table, it: Item) {
    exists b :: 0 <= b < |t.primary| && it in t.primary[b]
  }

  ghost predicate InPrior(t: Table, it: Item) {
    t.expanding && exists b :: 0 <= b < |t.prior| && it in t.prior[b]
  }

  /** The items of the two tables together are exactly the plain map m. */
  ghost predicate Represents(t: Table, m: map<Key, Item>) {
    && (forall key :: key in m ==> m[key].key == key)
    && (forall it: Item :: (InPrimary(t, it) || InPrior(t, it)) <==> it.key in m && m[it.key] == it)
  }

  /** Under the invariant an item is in one of the tables exactly when it is in the chain its key routes to. */
  lemma Routed(t: Table, it: Item)
    requires Inv(t)
    ensures (InPrimary(t, it) || InPrior(t, it)) <==> it in t.ChainFor(t.hash(it.key))
  {
    var hv := t.hash(it.key);
    if InPrimary(t, it) {
      var b :| 0 <= b < |t.primary| && it in t.primary[b];
      assert PrimaryOk(t, b);
    }
    if InPrior(t, it) {
      var b :| 0 <= b < |t.prior| && it in t.prior[b];
      assert PriorOk(t, b);
    }
  }

  lemma ChainDistinct(t: Table, hv: nat)
    requires Inv(t)
    ensures DistinctKeys(t.ChainFor(hv))
  {
    if t.UsesOld(hv) {
      assert PriorOk(t, Low(hv, t.power - 1));
    } else {
      assert PrimaryOk(t, Low(hv, t.power));
    }
  }

  /** assoc_find agrees with the map. */
  lemma FindAgrees(t: Table, m: map<Key, Item>, key: Key)
    requires Inv(t) && Represents(t, m)
    ensures Find(t, key) == if key in m then Some(m[key]) else None
  {
    var c := t.ChainFor(t.hash(key));
    ChainDistinct(t, t.hash(key));
    FindInIff(c, key);
    if key in m {
      Routed(t, m[key]);
    }
    if Find(t, key).Some? {
      Routed(t, Find(t, key).value);
    }
  }

  /** Replacing the chain of a key by one whose other keys are unchanged. */
  lemma WithChainKeeps(t: Table, key: Key, c: Chain)
    requires Inv(t) && DistinctKeys(c)
    requires forall it :: it in c ==> it in t.ChainFor(t.hash(key)) || it.key == key
    ensures Inv(t.WithChain(t.hash(key), c))
    ensures forall k: Key :: t.WithChain(t.hash(key), c).ChainFor(t.hash(k)) ==
              if SameChain(t, t.hash(k), t.hash(key)) then c else t.ChainFor(t.hash(k))
  {
    var hv := t.hash(key);
    var u := t.WithChain(hv, c);
    assert u.Shape();
    forall b | 0 <= b < |u.primary|
      ensures PrimaryOk(u, b)
    {
      assert PrimaryOk(t, b);
    }
    if t.expanding {
      forall b | 0 <= b < |u.prior|
        ensures PriorOk(u, b)
      {
        assert PriorOk(t, b);
      }
    }
  }

  predicate SameChain(t: Table, h: nat, g: nat) {
    && t.UsesOld(h) == t.UsesOld(g)
    && (if t.UsesOld(g) then Low(h, t.power - 1) == Low(g, t.power - 1) else Low(h, t.power) == Low(g, t.power))
  }

  /** Represents, said through the routed chains alone. */
  ghost predicate ChainsHold(t: Table, m: map<Key, Item>)
    requires t.Shape()
  {
    && (forall key :: key in m ==> m[key].key == key)
    && (forall it: Item :: it in t.ChainFor(t.hash(it.key)) <==> it.key in m && m[it.key] == it)
  }

  lemma RepresentsIff(t: Table, m: map<Key, Item>)
    requires Inv(t)
    ensures Represents(t, m) <==> ChainsHold(t, m)
  {
    forall it: Item
      ensures (InPrimary(t, it) || InPrior(t, it)) <==> it in t.ChainFor(t.hash(it.key))
    {
      Routed(t, it);
    }
  }

  /** m and n agree away from key, and c is the chain of key changed in the same way. */
  ghost predicate ChangedAt(key: Key, m: map<Key, Item>, n: map<Key, Item>, chain: Chain, c: Chain) {
    && DistinctKeys(c)
    && (key in n ==> n[key].key == key)
    && (forall k :: k != key ==> (k in n <==> k in m) && (k in m ==> n[k] == m[k]))
    && (forall it: Item :: it in c <==> if it.key == key then key in n && n[key] == it else it in chain)
  }

  lemma SameChainSame(t: Table, h: nat, g: nat)
    requires t.Shape() && SameChain(t, h, g)
    ensures t.ChainFor(h) == t.ChainFor(g)
  {}

  lemma WithChainFrame(t: Table, hv: nat, c: Chain)
    requires t.Shape()
    ensures var u := t.WithChain(hv, c); u.Shape() && u.hash == t.hash
  {}

  lemma UpdateAgrees(t: Table, m: map<Key, Item>, n: map<Key, Item>, key: Key, c: Chain)
    requires Inv(t) && Represents(t, m) && ChangedAt(key, m, n, t.ChainFor(t.hash(key)), c)
    ensures var u := t.WithChain(t.hash(key), c); Inv(u) && Represents(u, n)
  {
    hide Inv, Represents, SameChain, DistinctKeys, Table.WithChain, Table.ChainFor, Table.UsesOld, Table.Shape;
    InvShape(t);
    var u := t.WithChain(t.hash(key), c);
    RepresentsIff(t, m);
    WithChainKeeps(t, key, c);
    WithChainFrame(t, t.hash(key), c);
    forall it: Item
      ensures it in u.ChainFor(u.hash(it.key)) <==> it.key in n && n[it.key] == it
    {
      var chain := t.ChainFor(t.hash(it.key));
      assert it in chain <==> it.key in m && m[it.key] == it;
      assert u.ChainFor(t.hash(it.key)) == if SameChain(t, t.hash(it.key), t.hash(key)) then c else chain;
      if SameChain(t, t.hash(it.key), t.hash(key)) {
        SameChainSame(t, t.hash(it.key), t.hash(key));
      } else {
        assert it.key != key by { SameChainRefl(t, t.hash(key)); }
      }
    }
    RepresentsIff(u, n);
  }

  lemma SameChainRefl(t: Table, h: nat)
    ensures SameChain(t, h, h)
  {}

  lemma InvShape(t: Table)
    requires Inv(t)
    ensures t.Shape()
  {}

  /** assoc_insert of a key that is not there adds exactly that item. */
  lemma InsertAgrees(t: Table, m: map<Key, Item>, it: Item)
    requires Inv(t) && Represents(t, m) && it.key !in m
    ensures Inv(Insert(t, it)) && Represents(Insert(t, it), m[it.key := it])
  {
    var hv := t.hash(it.key);
    var c := t.ChainFor(hv);
    ChainDistinct(t, hv);
    forall x | x in c
      ensures x.key != it.key
    {
      if x.key == it.key {
        Routed(t, x);
      }
    }
    UpdateAgrees(t, m, m[it.key := it], it.key, [it] + c);
  }

  /** assoc_delete removes exactly that key. */
  lemma DeleteAgrees(t: Table, m: map<Key, Item>, key: Key)
    requires Inv(t) && Represents(t, m)
    ensures Inv(Delete(t, key)) && Represents(Delete(t, key), m - {key})
  {
    var c := t.ChainFor(t.hash(key));
    ChainDistinct(t, t.hash(key));
    RemoveInIff(c, key);
    UpdateAgrees(t, m, m - {key}, key, RemoveIn(c, key));
  }

  /** Starting an expansion moves nothing and loses nothing. */
  lemma ExpandAgrees(t: Table, m: map<Key, Item>)
    requires Inv(t) && Represents(t, m) && !t.expanding
    ensures Inv(Expand(t)) && Represents(Expand(t), m)
  {
    var u := Expand(t);
    RepresentsIff(t, m);
    forall b | 0 <= b < |u.prior|
      ensures PriorOk(u, b)
    {
      assert PrimaryOk(t, b);
    }
    assert Inv(u);
    assert forall key: Key :: u.ChainFor(u.hash(key)) == t.ChainFor(t.hash(key));
    RepresentsIff(u, m);
  }

  // ----- migrating one bucket -----

  /**
    The table in the middle of moving the bucket `expandBucket`: rest is what has not
    been relinked yet. The migrating chain itself is not looked at.
   */
  ghost predicate Moving(t: Table, rest: Chain) {
    && t.Shape() && t.expanding
    && (forall b :: 0 <= b < |t.primary| ==> MovingPrimaryOk(t, b))
    && (forall b :: 0 <= b < |t.prior| && b != t.expandBucket ==> PriorOk(t, b))
    && RestOk(t, rest)
  }

  ghost predicate MovingPrimaryOk(t: Table, b: nat)
    requires t.Shape() && t.expanding && b < |t.primary|
  {
    && DistinctKeys(t.primary[b])
    && forall it :: it in t.primary[b] ==>
         Low(t.hash(it.key), t.power) == b && Low(t.hash(it.key), t.power - 1) <= t.expandBucket
  }

  ghost predicate RestOk(t: Table, rest: Chain)
    requires t.Shape() && t.expanding
  {
    && DistinctKeys(rest)
    && forall it :: it in rest ==>
         && Low(t.hash(it.key), t.power - 1) == t.expandBucket
         && forall x :: x in t.primary[Low(t.hash(it.key), t.power)] ==> x.key != it.key
  }

  /** The chain that holds a key's items while the bucket is moving. */
  function MovingChain(t: Table, rest: Chain, hv: nat): Chain
    requires t.Shape() && t.expanding
  {
    if Low(hv, t.power - 1) > t.expandBucket then t.prior[Low(hv, t.power - 1)]
    else if Low(hv, t.power - 1) == t.expandBucket then rest + t.primary[Low(hv, t.power)]
    else t.primary[Low(hv, t.power)]
  }

  ghost predicate MovingHolds(t: Table, rest: Chain, m: map<Key, Item>)
    requires t.Shape() && t.expanding
  {
    && (forall key :: key in m ==> m[key].key == key)
    && (forall it: Item :: it in MovingChain(t, rest, t.hash(it.key)) <==> it.key in m && m[it.key] == it)
  }

  lemma StartMoving(t: Table, m: map<Key, Item>)
    requires Inv(t) && Represents(t, m) && t.expanding
    ensures Moving(t, t.prior[t.expandBucket]) && MovingHolds(t, t.prior[t.expandBucket], m)
  {
    var rest := t.prior[t.expandBucket];
    RepresentsIff(t, m);
    assert PriorOk(t, t.expandBucket);
    forall b | 0 <= b < |t.primary|
      ensures MovingPrimaryOk(t, b)
    {
      assert PrimaryOk(t, b);
    }
    forall it | it in rest
      ensures forall x :: x in t.primary[Low(t.hash(it.key), t.power)] ==> x.key != it.key
    {
      assert PrimaryOk(t, Low(t.hash(it.key), t.power));
    }
    forall it: Item
      ensures it in MovingChain(t, rest, t.hash(it.key)) <==> it in t.ChainFor(t.hash(it.key))
    {
      assert PrimaryOk(t, Low(t.hash(it.key), t.power));
    }
  }

  /** Relinking one item moves it between the two tables and changes nothing else. */
  lemma RelinkOne(t: Table, rest: Chain, m: map<Key, Item>)
    requires Moving(t, rest) && MovingHolds(t, rest, m) && rest != []
    ensures var u := t.(primary := Relink(t.hash, t.power, t.primary, rest[0]));
      Moving(u, rest[1..]) && MovingHolds(u, rest[1..], m)
  {
    RelinkHolds(t, rest, m);
    RelinkRestOk(t, rest);
    RelinkChains(t, rest);
  }

  lemma RelinkChains(t: Table, rest: Chain)
    requires Moving(t, rest) && rest != []
    ensures var u := t.(primary := Relink(t.hash, t.power, t.primary, rest[0]));
      && u.Shape() && u.expanding
      && (forall b :: 0 <= b < |u.primary| ==> MovingPrimaryOk(u, b))
      && (forall b :: 0 <= b < |u.prior| && b != u.expandBucket ==> PriorOk(u, b))
  {
    var it := rest[0];
    var u := t.(primary := Relink(t.hash, t.power, t.primary, it));
    forall b | 0 <= b < |u.primary|
      ensures MovingPrimaryOk(u, b)
    {
      assert MovingPrimaryOk(t, b);
      if b == Low(t.hash(it.key), t.power) {
        ConsDistinct(it, t.primary[b]);
      }
    }
    forall b | 0 <= b < |u.prior| && b != u.expandBucket
      ensures PriorOk(u, b)
    {
      assert PriorOk(t, b);
    }
  }

  lemma RelinkRestOk(t: Table, rest: Chain)
    requires t.Shape() && t.expanding && RestOk(t, rest) && rest != []
    ensures var u := t.(primary := Relink(t.hash, t.power, t.primary, rest[0])); u.Shape() && RestOk(u, rest[1..])
  {
    var u := t.(primary := Relink(t.hash, t.power, t.primary, rest[0]));
    assert rest == [rest[0]] + rest[1..];
    forall it | it in rest[1..]
      ensures it.key != rest[0].key
    {
    }
  }

  lemma RelinkHolds(t: Table, rest: Chain, m: map<Key, Item>)
    requires Moving(t, rest) && MovingHolds(t, rest, m) && rest != []
    ensures var u := t.(primary := Relink(t.hash, t.power, t.primary, rest[0]));
      u.Shape() && MovingHolds(u, rest[1..], m)
  {
    var it := rest[0];
    var u := t.(primary := Relink(t.hash, t.power, t.primary, it));
    assert rest == [it] + rest[1..];
    forall x: Item
      ensures x in MovingChain(u, rest[1..], u.hash(x.key)) <==> x in MovingChain(t, rest, t.hash(x.key))
    {
    }
  }

  lemma {:induction false} RelinkRest(t: Table, rest: Chain, m: map<Key, Item>)
    requires Moving(t, rest) && MovingHolds(t, rest, m)
    ensures var u := t.(primary := RelinkAll(t.hash, t.power, t.primary, rest));
      Moving(u, []) && MovingHolds(u, [], m)
    decreases |rest|
  {
    hide Moving, MovingHolds, Relink;
    if rest != [] {
      RelinkOne(t, rest, m);
      MovingShape(t, rest);
      RelinkRest(t.(primary := Relink(t.hash, t.power, t.primary, rest[0])), rest[1..], m);
    } else {
      assert t.(primary := t.primary) == t;
    }
  }

  lemma MovingShape(t: Table, rest: Chain)
    requires Moving(t, rest)
    ensures t.Shape() && t.expanding
  {}

  lemma FinishMoving(t: Table, m: map<Key, Item>)
    requires Moving(t, []) && MovingHolds(t, [], m)
    ensures Inv(Advance(t)) && Represents(Advance(t), m)
  {
    var u := Advance(t);
    assert u.Shape();
    forall b | 0 <= b < |u.primary|
      ensures PrimaryOk(u, b)
    {
      assert MovingPrimaryOk(t, b);
    }
    if u.expanding {
      forall b | 0 <= b < |u.prior|
        ensures PriorOk(u, b)
      {
        assert b != t.expandBucket ==> PriorOk(t, b);
      }
    }
    assert forall it: Item :: u.ChainFor(u.hash(it.key)) == MovingChain(t, [], t.hash(it.key));
    RepresentsIff(u, m);
  }

  /** Moving a bucket changes nothing that a caller can see. */
  lemma MigrateAgrees(t: Table, m: map<Key, Item>)
    requires Inv(t) && Represents(t, m) && t.expanding
    ensures Inv(Migrate(t)) && Represents(Migrate(t), m)
  {
    hide Moving, MovingHolds, Represents, RelinkAll;
    StartMoving(t, m);
    RelinkRest(t, t.prior[t.expandBucket], m);
    FinishMoving(t.(primary := RelinkAll(t.hash, t.power, t.primary, t.prior[t.expandBucket])), m);
  }

  lemma PriorItem(t: Table, b: nat, it: Item)
    requires Inv(t) && t.expanding && b < |t.prior| && it in t.prior[b]
    ensures t.expandBucket <= b
  {
    assert PriorOk(t, b);
  }

  /** Buckets already moved are empty in the old table; when the last one moves, the whole old table is. */
  lemma MovedBucketsEmpty(t: Table, b: nat)
    requires Inv(t) && t.expanding && b < t.expandBucket
    ensures t.prior[b] == []
  {
    if t.prior[b] != [] {
      PriorItem(t, b, t.prior[b][0]);
      assert false;
    }
  }

  lemma MigrationDone(t: Table, b: nat)
    requires Inv(t) && t.expanding && b < |t.prior|
    ensures Migrate(t).expanding <==> t.expandBucket + 1 < Size(t.power - 1)
    ensures Migrate(t).expandBucket == t.expandBucket + 1
    ensures !Migrate(t).expanding ==> Migrate(t).prior[b] == []
  {
    if b < t.expandBucket {
      MovedBucketsEmpty(t, b);
    }
  }

  // ----- runs -----

  datatype Op = FindOp(key: Key) | InsertOp(it: Item) | DeleteOp(key: Key) | ExpandOp | MigrateOp

  /** What the callers of assoc.c guarantee. */
  predicate Allowed(t: Table, op: Op)
    requires t.Shape()
  {
    match op
    case FindOp(key) => true
    case InsertOp(it) => Find(t, it.key).None?
    case DeleteOp(key) => true
    case ExpandOp => !t.expanding
    case MigrateOp => t.expanding
  }

  function Apply(t: Table, op: Op): Table
    requires t.Shape() && Allowed(t, op)
  {
    match op
    case FindOp(key) => t
    case InsertOp(it) => Insert(t, it)
    case DeleteOp(key) => Delete(t, key)
    case ExpandOp => Expand(t)
    case MigrateOp => Migrate(t)
  }

  /** The same operation on a plain map: expansion and migration do nothing. */
  function ApplyMap(m: map<Key, Item>, op: Op): map<Key, Item> {
    match op
    case FindOp(key) => m
    case InsertOp(it) => m[it.key := it]
    case DeleteOp(key) => m - {key}
    case ExpandOp => m
    case MigrateOp => m
  }

  lemma StepAgrees(t: Table, m: map<Key, Item>, op: Op)
    requires Inv(t) && Represents(t, m) && Allowed(t, op)
    ensures Inv(Apply(t, op)) && Represents(Apply(t, op), ApplyMap(m, op))
  {
    match op
    case FindOp(key) =>
    case InsertOp(it) =>
      FindAgrees(t, m, it.key);
      InsertAgrees(t, m, it);
    case DeleteOp(key) => DeleteAgrees(t, m, key);
    case ExpandOp => ExpandAgrees(t, m);
    case MigrateOp => MigrateAgrees(t, m);
  }

  function MapAfter(ops: seq<Op>): map<Key, Item> {
    if ops == [] then map[] else ApplyMap(MapAfter(ops[..|ops| - 1]), ops[|ops| - 1])
  }

  function Empty(hash: Key -> nat, power: nat): Table {
    Table(hash, power, seq(Size(power), i => []), [], false, 0)
  }

  ghost predicate IsRun(hash: Key -> nat, power: nat, tables: seq<Table>, ops: seq<Op>) {
    && |tables| == |ops| + 1
    && tables[0] == Empty(hash, power)
    && forall i :: 0 <= i < |ops| ==>
         tables[i].Shape() && Allowed(tables[i], ops[i]) && tables[i + 1] == Apply(tables[i], ops[i])
  }

  /** At every point of every run the two tables together are the plain map that the same operations build. */
  lemma {:induction false} RunAgrees(hash: Key -> nat, power: nat, tables: seq<Table>, ops: seq<Op>, i: nat)
    requires IsRun(hash, power, tables, ops) && i < |tables|
    ensures i <= |ops| && Inv(tables[i]) && Represents(tables[i], MapAfter(ops[..i]))
    decreases i
  {
    hide IsRun, Inv, Represents, Apply, Allowed, Empty;
    RunStart(hash, power, tables, ops);
    if i == 0 {
      EmptyAgrees(hash, power);
    } else {
      RunAgrees(hash, power, tables, ops, i - 1);
      RunStep(hash, power, tables, ops, i - 1);
      StepAgrees(tables[i - 1], MapAfter(ops[..i - 1]), ops[i - 1]);
      assert ops[..i][..i - 1] == ops[..i - 1];
    }
  }

  lemma RunStart(hash: Key -> nat, power: nat, tables: seq<Table>, ops: seq<Op>)
    requires IsRun(hash, power, tables, ops)
    ensures |tables| == |ops| + 1 && tables[0] == Empty(hash, power)
  {}

  lemma EmptyAgrees(hash: Key -> nat, power: nat)
    ensures Inv(Empty(hash, power)) && Represents(Empty(hash, power), map[])
  {}

  /** A lookup at any point of any run returns what the plain map holds. */
  lemma RunFindAgrees(hash: Key -> nat, power: nat, tables: seq<Table>, ops: seq<Op>, i: nat, key: Key)
    requires IsRun(hash, power, tables, ops) && i < |tables|
    ensures i <= |ops| && Inv(tables[i])
    ensures var m := MapAfter(ops[..i]); Find(tables[i], key) == if key in m then Some(m[key]) else None
  {
    hide IsRun;
    RunAgrees(hash, power, tables, ops, i);
    FindAgrees(tables[i], MapAfter(ops[..i]), key);
  }

  /** After an expansion starts, its k-th migration, however interleaved, is of bucket k. */
  function Migrations(ops: seq<Op>): nat {
    if ops == [] then 0 else Migrations(ops[..|ops| - 1]) + if ops[|ops| - 1].MigrateOp? then 1 else 0
  }

  lemma RunStep(hash: Key -> nat, power: nat, tables: seq<Table>, ops: seq<Op>, i: nat)
    requires IsRun(hash, power, tables, ops) && i < |ops|
    ensures |tables| == |ops| + 1 && tables[i].Shape() && Allowed(tables[i], ops[i])
    ensures tables[i + 1] == Apply(tables[i], ops[i])
  {}

  lemma ExpandProgress(t: Table, op: Op)
    requires t.Shape() && Allowed(t, op) && op.ExpandOp?
    ensures var u := Apply(t, op); u.power == t.power + 1 && u.expandBucket == 0 && u.expanding
    ensures Migrations([]) == 0 < Size(t.power)
  {}

  lemma MigrationsSnoc(ops: seq<Op>, lo: nat, hi: nat)
    requires lo < hi <= |ops|
    ensures Migrations(ops[lo..hi]) == Migrations(ops[lo..hi - 1]) + if ops[hi - 1].MigrateOp? then 1 else 0
  {
    var seg := ops[lo..hi];
    assert seg[..|seg| - 1] == ops[lo..hi - 1] && seg[|seg| - 1] == ops[hi - 1];
  }

  lemma AllowedMigrate(t: Table, op: Op)
    requires t.Shape() && Allowed(t, op)
    ensures op.MigrateOp? ==> t.expanding
  {}

  lemma StepProgress(t: Table, op: Op)
    requires t.Shape() && Allowed(t, op) && !op.ExpandOp?
    ensures var u := Apply(t, op);
      && u.power == t.power
      && u.expandBucket == t.expandBucket + (if op.MigrateOp? then 1 else 0)
      && u.expanding == if op.MigrateOp? then t.expandBucket + 1 != Size(t.power - 1) else t.expanding
  {}

  lemma {:induction false} MigrationProgress(hash: Key -> nat, power: nat, tables: seq<Table>, ops: seq<Op>,
      i: nat, j: nat)
    requires IsRun(hash, power, tables, ops) && i < j <= |ops| && ops[i].ExpandOp?
    requires forall k :: i < k < j ==> !ops[k].ExpandOp?
    ensures var n, size := Migrations(ops[i + 1..j]), Size(tables[i].power);
      && tables[j].power == tables[i].power + 1
      && n <= size
      && (tables[j].expanding <==> n < size)
      && tables[j].expandBucket == n
    decreases j
  {
    hide IsRun, Apply, Size, Allowed, Migrations, Table.Shape;
    RunStep(hash, power, tables, ops, i);
    if j == i + 1 {
      assert ops[i + 1..j] == [];
      ExpandProgress(tables[i], ops[i]);
    } else {
      MigrationProgress(hash, power, tables, ops, i, j - 1);
      RunStep(hash, power, tables, ops, j - 1);
      StepProgress(tables[j - 1], ops[j - 1]);
      MigrationsSnoc(ops, i + 1, j);
      AllowedMigrate(tables[j - 1], ops[j - 1]);
    }
  }
}
