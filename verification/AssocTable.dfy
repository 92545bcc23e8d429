/** The code of assoc.c on mutable bucket arrays, proved against AssocSpec. */
module AssocTable {
  import opened AssocSpec

  lemma {:induction false} FindInAt(c: Chain, key: Key, k: nat)
    requires k <= |c| && (forall i :: 0 <= i < k ==> c[i].key != key) && (k < |c| ==> c[k].key == key)
    ensures FindIn(c, key) == if k < |c| then Some(c[k]) else None
    ensures RemoveIn(c, key) == if k < |c| then c[..k] + c[k + 1..] else c
  {
    if c != [] && k > 0 {
      FindInAt(c[1..], key, k - 1);
    }
  }

  lemma DeleteIs(t: Table, key: Key, c: Chain)
    requires t.Shape() && c == RemoveIn(t.ChainFor(t.hash(key)), key)
    ensures AssocSpec.Delete(t, key) == t.WithChain(t.hash(key), c)
  {}

  class HashTable {
    const hash: Key -> nat
    var power: nat
    var primary: array<Chain>
    var prior: array<Chain>
    var expanding: bool
    var expandBucket: nat

    ghost function View(): Table
      reads this, primary, prior
    {
      Table(hash, power, primary[..], prior[..], expanding, expandBucket)
    }

    ghost predicate Valid()
      reads this, primary, prior
    {
      primary != prior && Inv(View())
    }

    /** assoc_init. */
    constructor (hash: Key -> nat, power: nat)
      ensures Valid() && Represents(View(), map[]) && !expanding && fresh(primary) && fresh(prior)
    {
      this.hash := hash;
      this.power := power;
      primary := new Chain[Size(power)](i => []);
      prior := new Chain[0];
      expanding, expandBucket := false, 0;
      new;
      assert View() == Empty(hash, power);
      EmptyAgrees(hash, power);
    }

    /** Which chain holds the keys with this hash value: the old table until its bucket has moved. */
    method Route(hv: nat) returns (useOld: bool, bucket: nat)
      requires View().Shape()
      ensures useOld == View().UsesOld(hv)
      ensures bucket == if useOld then Low(hv, power - 1) else Low(hv, power)
      ensures bucket < if useOld then prior.Length else primary.Length
    {
      if expanding && Low(hv, power - 1) >= expandBucket {
        return true, Low(hv, power - 1);
      }
      return false, Low(hv, power);
    }

    /** _hashitem_before: the position of the key in its chain, or the chain's end. */
    method Before(key: Key, chain: Chain) returns (k: nat)
      ensures k <= |chain| && (k < |chain| ==> chain[k].key == key)
      ensures forall i :: 0 <= i < k ==> chain[i].key != key
    {
      k := 0;
      while k < |chain| && chain[k].key != key
        invariant 0 <= k <= |chain|
        invariant forall i :: 0 <= i < k ==> chain[i].key != key
      {
        k := k + 1;
      }
    }

    /** Reads the chain for a hash value and where it came from. */
    method Fetch(hv: nat) returns (useOld: bool, b: nat, chain: Chain)
      requires View().Shape()
      ensures useOld == View().UsesOld(hv) && chain == View().ChainFor(hv)
      ensures b == if useOld then Low(hv, power - 1) else Low(hv, power)
    {
      useOld, b := Route(hv);
      chain := if useOld then prior[b] else primary[b];
    }

    /** Writes a chain back to the bucket it was read from. */
    method Store(useOld: bool, b: nat, c: Chain, ghost hv: nat)
      requires primary != prior && View().Shape() && useOld == View().UsesOld(hv)
      requires b == if useOld then Low(hv, power - 1) else Low(hv, power)
      modifies primary, prior
      ensures View() == old(View()).WithChain(hv, c)
    {
      if useOld {
        prior[b] := c;
      } else {
        primary[b] := c;
      }
    }

    /** assoc_find. */
    method Find(key: Key, ghost m: map<Key, Item>) returns (r: Option<Item>)
      requires Valid() && Represents(View(), m)
      ensures r == if key in m then Some(m[key]) else None
    {
      var useOld, b, chain := Fetch(hash(key));
      var k := Before(key, chain);
      FindInAt(chain, key, k);
      FindAgrees(View(), m, key);
      r := if k < |chain| then Some(chain[k]) else None;
    }

    /** assoc_insert: the key must not be there yet. */
    method Insert(it: Item, ghost m: map<Key, Item>)
      requires Valid() && Represents(View(), m) && it.key !in m
      modifies primary, prior
      ensures Valid() && Represents(View(), m[it.key := it])
    {
      ghost var t := View();
      InsertAgrees(t, m, it);
      hide Inv, Represents;
      InvShape(t);
      var useOld, b, chain := Fetch(hash(it.key));
      Store(useOld, b, [it] + chain, hash(it.key));
    }

    /** assoc_delete. The source asserts that the key is found; found says when that assert holds. */
    method Delete(key: Key, ghost m: map<Key, Item>) returns (found: bool)
      requires Valid() && Represents(View(), m)
      modifies primary, prior
      ensures Valid() && Represents(View(), m - {key})
      ensures found <==> key in m
    {
      hide Represents, RemoveIn, FindIn, AssocSpec.Delete;
      ghost var t := View();
      FindAgrees(t, m, key);
      DeleteAgrees(t, m, key);
      hide Inv;
      InvShape(t);
      var useOld, b, chain := Fetch(hash(key));
      var k := Before(key, chain);
      FindInAt(chain, key, k);
      found := k < |chain|;
      var shorter := if k < |chain| then chain[..k] + chain[k + 1..] else chain;
      DeleteIs(t, key, shorter);
      Store(useOld, b, shorter, hash(key));
    }

    /** assoc_expand; ok is false when the new table cannot be allocated. */
    method StartExpand(ok: bool, ghost m: map<Key, Item>)
      requires Valid() && Represents(View(), m) && !expanding
      modifies this
      ensures Valid() && Represents(View(), m)
      ensures expanding == ok && power == old(power) + (if ok then 1 else 0)
      ensures !ok ==> View() == old(View())
      ensures ok ==> expandBucket == 0 && fresh(primary)
    {
      if ok {
        ghost var t := View();
        ExpandAgrees(t, m);
        hide Inv, Represents;
        InvShape(t);
        prior := primary;
        primary := new Chain[Size(power + 1)](i => []);
        power := power + 1;
        expanding := true;
        expandBucket := 0;
        assert View() == Expand(t);
      }
    }

    /** One bucket of the migration loop. */
    method MoveBucket(ghost m: map<Key, Item>)
      requires Valid() && Represents(View(), m) && expanding
      modifies this, primary, prior
      ensures Valid() && Represents(View(), m)
      ensures power == old(power) && expandBucket == old(expandBucket) + 1
      ensures expanding <==> expandBucket < Size(power - 1)
      ensures prior == old(prior) && primary == old(primary) && prior[old(expandBucket)] == []
    {
      ghost var t := View();
      MigrateAgrees(t, m);
      hide Inv, Represents;
      InvShape(t);
      var chain := prior[expandBucket];
      var k := 0;
      while k < |chain|
        invariant 0 <= k <= |chain|
        invariant unchanged(this) && prior[..] == t.prior
        invariant primary.Length == Size(power)
        invariant RelinkAll(hash, power, primary[..], chain[k..]) == RelinkAll(hash, power, t.primary, chain)
      {
        var bucket := Low(hash(chain[k].key), power);
        ghost var was := primary[..];
        primary[bucket] := [chain[k]] + primary[bucket];
        assert primary[..] == Relink(hash, power, was, chain[k]);
        assert chain[k..][1..] == chain[k + 1..];
        k := k + 1;
      }
      assert chain[k..] == [];
      prior[expandBucket] := [];
      expandBucket := expandBucket + 1;
      if expandBucket == Size(power - 1) {
        expanding := false;
      }
      assert View() == Migrate(t);
    }
  }
}
