/**
  The item locks of thread.c against the migration of assoc.c: worker threads
  and the migrating thread as a step machine. A worker takes the lock of its key,
  picks a chain, acts on it and releases; the migrator moves items one by one.
 */
module AssocLocks {
  import opened AssocSpec

  /** memcached_thread_init: the lock table size for a number of worker threads. */
  function LockPower(nthreads: int): (power: nat)
    ensures 10 <= power <= 15
  {
    if nthreads < 3 then 10
    else if nthreads < 4 then 11
    else if nthreads < 5 then 12
    else if nthreads <= 10 then 13
    else if nthreads <= 20 then 14
    else 15
  }

  /** HASHPOWER_DEFAULT. */
  const HASHPOWER_DEFAULT: nat := 16

  /** The startup check that refuses a lock table as large as the hash table never fires at the default size. */
  lemma DefaultSizesAccepted(nthreads: int)
    ensures LockPower(nthreads) < HASHPOWER_DEFAULT
  {}

  // ----- what one lock covers -----

  /** item_lock: which lock a hash value takes. */
  function LockOf(hv: nat, lockPower: nat): nat {
    Low(hv, lockPower)
  }

  /**
    The lock taken for the migrating bucket is the lock of every item in it and
    of both buckets those items can land in.
   */
  lemma OneLockCovers(t: Table, lockPower: nat, it: Item)
    requires t.Shape() && t.expanding && lockPower < t.power
    requires Low(t.hash(it.key), t.power - 1) == t.expandBucket
    ensures LockOf(t.hash(it.key), lockPower) == LockOf(t.expandBucket, lockPower)
    ensures
      || Low(t.hash(it.key), t.power) == t.expandBucket
      || Low(t.hash(it.key), t.power) == t.expandBucket + Size(t.power - 1)
    ensures LockOf(Low(t.hash(it.key), t.power), lockPower) == LockOf(t.expandBucket, lockPower)
  {
    var hv := t.hash(it.key);
    LowLow(hv, lockPower, t.power - 1);
    LowLow(hv, lockPower, t.power);
    LowNext(hv, t.power - 1);
  }

  /** Two keys that route to the same chain take the same lock, so a chain has one user at a time. */
  lemma ChainHasOneLock(t: Table, lockPower: nat, h: nat, g: nat)
    requires t.Shape() && lockPower < t.power && SameChain(t, h, g)
    ensures LockOf(h, lockPower) == LockOf(g, lockPower)
  {
    var n := if t.UsesOld(g) then t.power - 1 else t.power;
    LowLow(h, lockPower, n);
    LowLow(g, lockPower, n);
  }

  /** A key under another lock is not in the migrating bucket. */
  lemma OtherLockElsewhere(t: Table, lockPower: nat, hv: nat)
    requires t.Shape() && t.expanding && lockPower < t.power
    requires LockOf(hv, lockPower) != LockOf(t.expandBucket, lockPower)
    ensures Low(hv, t.power - 1) != t.expandBucket
  {
    LowLow(hv, lockPower, t.power - 1);
  }

  /** Advancing the bucket pointer does not reroute a key that is under another lock. */
  lemma AdvanceKeepsRoute(t: Table, lockPower: nat, hv: nat)
    requires t.Shape() && t.expanding && lockPower < t.power
    requires LockOf(hv, lockPower) != LockOf(t.expandBucket, lockPower)
    ensures Advance(t).UsesOld(hv) == t.UsesOld(hv)
  {
    OtherLockElsewhere(t, lockPower, hv);
  }

  // ----- the step machine -----

  datatype Worker =
    | Idle
    | Locked(key: Key)
    | Checking(key: Key)  // saw expanding set, has yet to read expand_bucket
    | Routed(key: Key, useOld: bool, bucket: nat)

  datatype Mover =
    | Resting
    | Busy(rest: Chain)
    | Finishing(lock: nat)  // past the last bucket, has yet to clear expanding
    | Releasing(lock: nat)

  datatype State = State(t: Table, lockPower: nat, workers: seq<Worker>, mover: Mover)

  datatype Call = FindIt | InsertIt(it: Item) | DeleteIt

  datatype Action =
    | Acquire(i: nat, key: Key)
    | Look(i: nat)        // reads expanding
    | Route(i: nat)       // reads expand_bucket
    | Act(i: nat, call: Call)
    | Release(i: nat)
    | StartExpand
    | MoverLock
    | MoverRelink
    | MoverAdvance        // writes expand_bucket
    | MoverFinish         // writes expanding
    | MoverUnlock

  predicate Holds(s: State, i: nat, lock: nat)
    requires i < |s.workers|
  {
    !s.workers[i].Idle? && LockOf(s.t.hash(s.workers[i].key), s.lockPower) == lock
  }

  predicate MoverHolds(s: State, lock: nat) {
    match s.mover
    case Resting => false
    case Busy(_) => LockOf(s.t.expandBucket, s.lockPower) == lock
    case Finishing(l) => l == lock
    case Releasing(l) => l == lock
  }

  predicate LockFree(s: State, lock: nat) {
    !MoverHolds(s, lock) && forall i :: 0 <= i < |s.workers| ==> !Holds(s, i, lock)
  }

  /** The flag in memory: the table counts as whole once its last bucket has moved, a moment before the flag says so. */
  predicate Flag(s: State) {
    s.t.expanding || s.mover.Finishing?
  }

  /** Every bucket of the old table has moved, and expand_bucket says so. */
  predicate AllMoved(t: Table) {
    !t.expanding && t.power > 0 && t.expandBucket == Size(t.power - 1)
  }

  predicate RouteOk(t: Table, w: Worker) {
    t.Shape() ==>
      match w
      case Idle => true
      case Locked(_) => true
      case Checking(_) => t.expanding || AllMoved(t)
      case Routed(key, useOld, bucket) =>
        useOld == t.UsesOld(t.hash(key))
        && bucket == if useOld then Low(t.hash(key), t.power - 1) else Low(t.hash(key), t.power)
  }

  /** The chain a worker chose when it routed, read at the time it acts. */
  function ChosenChain(s: State, w: Worker): Chain
    requires w.Routed?
  {
    if w.useOld then (if w.bucket < |s.t.prior| then s.t.prior[w.bucket] else [])
    else (if w.bucket < |s.t.primary| then s.t.primary[w.bucket] else [])
  }

  function SetChosen(t: Table, w: Worker, c: Chain): Table
    requires w.Routed?
  {
    if w.useOld then (if w.bucket < |t.prior| then t.(prior := t.prior[w.bucket := c]) else t)
    else (if w.bucket < |t.primary| then t.(primary := t.primary[w.bucket := c]) else t)
  }

  predicate Enabled(s: State, a: Action) {
    match a
    case Acquire(i, key) =>
      i < |s.workers| && s.workers[i].Idle? && LockFree(s, LockOf(s.t.hash(key), s.lockPower))
    case Look(i) => i < |s.workers| && s.workers[i].Locked?
    case Route(i) => i < |s.workers| && s.workers[i].Checking? && s.t.power > 0
    case Act(i, call) =>
      i < |s.workers| && s.workers[i].Routed?
      && (call.InsertIt? ==>
           call.it.key == s.workers[i].key && FindIn(ChosenChain(s, s.workers[i]), s.workers[i].key).None?)
    case Release(i) => i < |s.workers| && s.workers[i].Locked?
    case StartExpand =>
      s.mover.Resting? && !s.t.expanding && s.t.Shape() && forall i :: 0 <= i < |s.workers| ==> s.workers[i].Idle?
    case MoverLock =>
      s.mover.Resting? && s.t.expanding && s.t.Shape() && LockFree(s, LockOf(s.t.expandBucket, s.lockPower))
    case MoverRelink => s.mover.Busy? && s.mover.rest != [] && s.t.Shape()
    case MoverAdvance => s.mover.Busy? && s.mover.rest == [] && s.t.Shape() && s.t.expanding
    case MoverFinish => s.mover.Finishing?
    case MoverUnlock => s.mover.Releasing?
  }

  function Changed(c: Chain, key: Key, call: Call): Chain {
    match call
    case FindIt => c
    case InsertIt(it) => [it] + c
    case DeleteIt => RemoveIn(c, key)
  }

  function Apply(s: State, a: Action): State
    requires Enabled(s, a)
  {
    match a
    case Acquire(i, key) => s.(workers := s.workers[i := Locked(key)])
    case Look(i) =>
      var key := s.workers[i].key;
      s.(workers := s.workers[i := if Flag(s) then Checking(key)
        else Routed(key, false, Low(s.t.hash(key), s.t.power))])
    case Route(i) =>
      var key := s.workers[i].key;
      var hv := s.t.hash(key);
      var useOld := Low(hv, s.t.power - 1) >= s.t.expandBucket;
      s.(workers := s.workers[i := Routed(key, useOld, if useOld then Low(hv, s.t.power - 1) else Low(hv, s.t.power))])
    case Act(i, call) =>
      var w := s.workers[i];
      s.(t := SetChosen(s.t, w, Changed(ChosenChain(s, w), w.key, call)), workers := s.workers[i := Locked(w.key)])
    case Release(i) => s.(workers := s.workers[i := Idle])
    case StartExpand => s.(t := Expand(s.t))
    case MoverLock => s.(mover := Busy(s.t.prior[s.t.expandBucket]))
    case MoverRelink =>
      s.(t := s.t.(primary := Relink(s.t.hash, s.t.power, s.t.primary, s.mover.rest[0])),
        mover := Busy(s.mover.rest[1..]))
    case MoverAdvance =>
      var lock := LockOf(s.t.expandBucket, s.lockPower);
      s.(t := Advance(s.t), mover := if Advance(s.t).expanding then Releasing(lock) else Finishing(lock))
    case MoverFinish => s.(mover := Releasing(s.mover.lock))
    case MoverUnlock => s.(mover := Resting)
  }

  /** What a worker's call gets back. */
  function Answer(s: State, i: nat): Option<Item>
    requires i < |s.workers| && s.workers[i].Routed?
  {
    FindIn(ChosenChain(s, s.workers[i]), s.workers[i].key)
  }

  // ----- the invariant -----

  /** The table, whole or with a bucket on the move, holds the map m. */
  ghost predicate TableHolds(s: State, m: map<Key, Item>) {
    if s.mover.Busy? then Moving(s.t, s.mover.rest) && MovingHolds(s.t, s.mover.rest, m)
    else Inv(s.t) && Represents(s.t, m)
  }

  ghost predicate Exclusive(s: State) {
    && (forall i, j :: 0 <= i < j < |s.workers| && !s.workers[i].Idle? && !s.workers[j].Idle? ==>
          LockOf(s.t.hash(s.workers[i].key), s.lockPower) != LockOf(s.t.hash(s.workers[j].key), s.lockPower))
    && (forall i :: 0 <= i < |s.workers| && !s.workers[i].Idle? ==>
          !MoverHolds(s, LockOf(s.t.hash(s.workers[i].key), s.lockPower)))
  }

  ghost predicate Linear(s: State, m: map<Key, Item>) {
    && s.t.Shape()
    && s.lockPower < s.t.power
    && TableHolds(s, m)
    && Exclusive(s)
    && (s.mover.Finishing? ==> AllMoved(s.t))
    && (forall i :: 0 <= i < |s.workers| ==> RouteOk(s.t, s.workers[i]))
  }

  /** The plain map after a call on a key. */
  function CallOnMap(m: map<Key, Item>, key: Key, call: Call): map<Key, Item> {
    match call
    case FindIt => m
    case InsertIt(it) => m[key := it]
    case DeleteIt => m - {key}
  }

  function MapAfter(s: State, m: map<Key, Item>, a: Action): map<Key, Item>
    requires Enabled(s, a)
  {
    if a.Act? then CallOnMap(m, s.workers[a.i].key, a.call) else m
  }

  // ----- acting on a chain -----

  /** A chain with distinct keys that holds exactly m's item for key. */
  ghost predicate ChainFaithful(chain: Chain, m: map<Key, Item>, key: Key) {
    && DistinctKeys(chain)
    && (key in m ==> m[key].key == key)
    && (forall it: Item :: it in chain && it.key == key <==> key in m && m[key] == it)
  }

  lemma CallChanges(chain: Chain, m: map<Key, Item>, key: Key, call: Call)
    requires ChainFaithful(chain, m, key)
    requires call.InsertIt? ==> call.it.key == key && FindIn(chain, key).None?
    ensures FindIn(chain, key) == if key in m then Some(m[key]) else None
    ensures ChangedAt(key, m, CallOnMap(m, key, call), chain, Changed(chain, key, call))
  {
    FindInIff(chain, key);
    match call
    case FindIt =>
    case InsertIt(it) =>
      assert forall x :: x in chain ==> x.key != key;
    case DeleteIt => RemoveInIff(chain, key);
  }

  lemma WholeFaithful(t: Table, m: map<Key, Item>, key: Key)
    requires Inv(t) && Represents(t, m)
    ensures ChainFaithful(t.ChainFor(t.hash(key)), m, key)
  {
    ChainDistinct(t, t.hash(key));
    RepresentsIff(t, m);
  }

  lemma MovingFaithful(t: Table, rest: Chain, m: map<Key, Item>, key: Key)
    requires Moving(t, rest) && MovingHolds(t, rest, m) && Low(t.hash(key), t.power - 1) != t.expandBucket
    ensures ChainFaithful(t.ChainFor(t.hash(key)), m, key)
  {
    var hv := t.hash(key);
    assert t.ChainFor(hv) == MovingChain(t, rest, hv);
    if t.UsesOld(hv) {
      assert PriorOk(t, Low(hv, t.power - 1));
    } else {
      assert MovingPrimaryOk(t, Low(hv, t.power));
    }
  }

  lemma MovingUpdate(t: Table, rest: Chain, m: map<Key, Item>, n: map<Key, Item>, key: Key, c: Chain)
    requires Moving(t, rest) && MovingHolds(t, rest, m) && Low(t.hash(key), t.power - 1) != t.expandBucket
    requires ChangedAt(key, m, n, t.ChainFor(t.hash(key)), c)
    ensures var u := t.WithChain(t.hash(key), c); Moving(u, rest) && MovingHolds(u, rest, n)
  {
    MovingUpdateShape(t, rest, m, n, key, c);
    MovingUpdateHolds(t, rest, m, n, key, c);
  }

  lemma MovingUpdateShape(t: Table, rest: Chain, m: map<Key, Item>, n: map<Key, Item>, key: Key, c: Chain)
    requires Moving(t, rest) && Low(t.hash(key), t.power - 1) != t.expandBucket
    requires ChangedAt(key, m, n, t.ChainFor(t.hash(key)), c)
    ensures Moving(t.WithChain(t.hash(key), c), rest)
  {
    var hv := t.hash(key);
    var u := t.WithChain(hv, c);
    forall b | 0 <= b < |u.primary|
      ensures MovingPrimaryOk(u, b)
    {
      assert MovingPrimaryOk(t, b);
    }
    forall b | 0 <= b < |u.prior| && b != u.expandBucket
      ensures PriorOk(u, b)
    {
      assert PriorOk(t, b);
    }
    forall it | it in rest
      ensures forall x :: x in u.primary[Low(u.hash(it.key), u.power)] ==> x.key != it.key
    {
      LowLow(u.hash(it.key), u.power - 1, u.power);
      LowLow(hv, u.power - 1, u.power);
    }
  }

  lemma MovingUpdateHolds(t: Table, rest: Chain, m: map<Key, Item>, n: map<Key, Item>, key: Key, c: Chain)
    requires Moving(t, rest) && MovingHolds(t, rest, m) && Low(t.hash(key), t.power - 1) != t.expandBucket
    requires ChangedAt(key, m, n, t.ChainFor(t.hash(key)), c)
    ensures var u := t.WithChain(t.hash(key), c); u.Shape() && MovingHolds(u, rest, n)
  {
    hide Low, DistinctKeys, MovingPrimaryOk, PriorOk, RestOk;
    var hv := t.hash(key);
    var u := t.WithChain(hv, c);
    forall it: Item
      ensures it in MovingChain(u, rest, u.hash(it.key)) <==> it.key in n && n[it.key] == it
    {
      var g := t.hash(it.key);
      assert it in MovingChain(t, rest, g) <==> it.key in m && m[it.key] == it;
      LowLow(g, t.power - 1, t.power);
      LowLow(hv, t.power - 1, t.power);
      assert MovingChain(u, rest, g) == if SameChain(t, g, hv) then c else MovingChain(t, rest, g);
    }
  }

  lemma ChosenIsRouted(s: State, w: Worker, c: Chain)
    requires s.t.Shape() && w.Routed? && RouteOk(s.t, w)
    ensures ChosenChain(s, w) == s.t.ChainFor(s.t.hash(w.key))
    ensures SetChosen(s.t, w, c) == s.t.WithChain(s.t.hash(w.key), c)
  {}

  /**
    A call made under the key's lock, on a chain picked earlier, answers and acts
    exactly as on the plain map, whatever the migrator has done since.
   */
  lemma ActIsAtomic(s: State, m: map<Key, Item>, i: nat, call: Call)
    requires Linear(s, m) && Enabled(s, Act(i, call))
    ensures var key := s.workers[i].key; Answer(s, i) == if key in m then Some(m[key]) else None
    ensures TableHolds(Apply(s, Act(i, call)), MapAfter(s, m, Act(i, call)))
  {
    hide Exclusive, Inv, Represents, Moving, MovingHolds, ChangedAt, ChainFaithful;
    var w := s.workers[i];
    var chain := ChosenChain(s, w);
    var c := Changed(chain, w.key, call);
    ChosenIsRouted(s, w, c);
    if s.mover.Busy? {
      NotMigrating(s, m, i);
      MovingFaithful(s.t, s.mover.rest, m, w.key);
      CallChanges(chain, m, w.key, call);
      MovingUpdate(s.t, s.mover.rest, m, CallOnMap(m, w.key, call), w.key, c);
    } else {
      WholeFaithful(s.t, m, w.key);
      CallChanges(chain, m, w.key, call);
      UpdateAgrees(s.t, m, CallOnMap(m, w.key, call), w.key, c);
    }
  }

  lemma NotMigrating(s: State, m: map<Key, Item>, i: nat)
    requires Linear(s, m) && s.mover.Busy? && i < |s.workers| && !s.workers[i].Idle?
    ensures s.t.expanding && Low(s.t.hash(s.workers[i].key), s.t.power - 1) != s.t.expandBucket
  {
    MovingShape(s.t, s.mover.rest);
    hide Moving, MovingHolds;
    OtherLockElsewhere(s.t, s.lockPower, s.t.hash(s.workers[i].key));
  }

  // ----- every step keeps the invariant -----

  lemma AcquireKeeps(s: State, m: map<Key, Item>, i: nat, key: Key)
    requires Linear(s, m) && Enabled(s, Acquire(i, key))
    ensures Linear(Apply(s, Acquire(i, key)), m)
  {
    hide TableHolds;
    var u := Apply(s, Acquire(i, key));
    forall j | 0 <= j < |s.workers| && j != i && !s.workers[j].Idle?
      ensures LockOf(s.t.hash(s.workers[j].key), s.lockPower) != LockOf(s.t.hash(key), s.lockPower)
    {
      assert !Holds(s, j, LockOf(s.t.hash(key), s.lockPower));
    }
    assert TableHolds(u, m) by { SameHolds(s, u, m); }
  }

  lemma SameHolds(s: State, u: State, m: map<Key, Item>)
    requires TableHolds(s, m) && u.t == s.t && u.mover == s.mover
    ensures TableHolds(u, m)
  {}

  lemma WorkerKeeps(s: State, m: map<Key, Item>, i: nat, w: Worker)
    requires Linear(s, m) && i < |s.workers| && !s.workers[i].Idle?
    requires w.Idle? || (w.key == s.workers[i].key && RouteOk(s.t, w))
    ensures Linear(s.(workers := s.workers[i := w]), m)
  {
    hide TableHolds;
    var u := s.(workers := s.workers[i := w]);
    SameHolds(s, u, m);
    assert Exclusive(u);
  }

  /** Two tables that send every hash value to the same place. */
  ghost predicate SameRouting(t: Table, u: Table) {
    && u.hash == t.hash && u.power == t.power && u.expanding == t.expanding && u.expandBucket == t.expandBucket
    && |u.primary| == |t.primary| && |u.prior| == |t.prior|
  }

  lemma ActKeeps(s: State, m: map<Key, Item>, i: nat, call: Call)
    requires Linear(s, m) && Enabled(s, Act(i, call))
    ensures Linear(Apply(s, Act(i, call)), MapAfter(s, m, Act(i, call)))
  {
    hide TableHolds;
    ActIsAtomic(s, m, i, call);
    var u := Apply(s, Act(i, call));
    assert SameRouting(s.t, u.t);
    assert Exclusive(u);
    forall j | 0 <= j < |u.workers|
      ensures RouteOk(u.t, u.workers[j])
    {
      assert RouteOk(s.t, s.workers[j]);
    }
  }

  lemma StartExpandKeeps(s: State, m: map<Key, Item>)
    requires Linear(s, m) && Enabled(s, StartExpand)
    ensures Linear(Apply(s, StartExpand), m)
  {
    ExpandAgrees(s.t, m);
    hide Inv, Represents;
    var u := Apply(s, StartExpand);
    InvShape(u.t);
    assert TableHolds(u, m);
  }

  lemma MoverLockKeeps(s: State, m: map<Key, Item>)
    requires Linear(s, m) && Enabled(s, MoverLock)
    ensures Linear(Apply(s, MoverLock), m)
  {
    StartMoving(s.t, m);
    hide Inv, Represents, Moving, MovingHolds;
    var u := Apply(s, MoverLock);
    forall i | 0 <= i < |u.workers| && !u.workers[i].Idle?
      ensures !MoverHolds(u, LockOf(u.t.hash(u.workers[i].key), u.lockPower))
    {
      assert !Holds(s, i, LockOf(s.t.expandBucket, s.lockPower));
    }
  }

  lemma MoverRelinkKeeps(s: State, m: map<Key, Item>)
    requires Linear(s, m) && Enabled(s, MoverRelink)
    ensures Linear(Apply(s, MoverRelink), m)
  {
    hide Inv, Represents, Moving, MovingHolds, Relink;
    MovingShape(s.t, s.mover.rest);
    RelinkOne(s.t, s.mover.rest, m);
    var u := Apply(s, MoverRelink);
    MovingShape(u.t, u.mover.rest);
    assert Exclusive(u);
    forall j | 0 <= j < |u.workers|
      ensures RouteOk(u.t, u.workers[j])
    {
      assert RouteOk(s.t, s.workers[j]);
    }
  }

  /** The bucket pointer advances under the feet of other workers without rerouting any of them. */
  lemma MoverAdvanceKeeps(s: State, m: map<Key, Item>)
    requires Linear(s, m) && Enabled(s, MoverAdvance)
    ensures Linear(Apply(s, MoverAdvance), m)
  {
    FinishMoving(s.t, m);
    hide Inv, Represents, Moving, MovingHolds;
    var u := Apply(s, MoverAdvance);
    InvShape(u.t);
    forall j | 0 <= j < |u.workers|
      ensures RouteOk(u.t, u.workers[j])
    {
      assert RouteOk(s.t, s.workers[j]);
      if !s.workers[j].Idle? {
        AdvanceKeepsRoute(s.t, s.lockPower, s.t.hash(s.workers[j].key));
      }
    }
    assert Exclusive(u);
  }

  /** Every step of every thread keeps the table faithful to the map, and only a worker's call changes the map. */
  lemma StepKeeps(s: State, m: map<Key, Item>, a: Action)
    requires Linear(s, m) && Enabled(s, a)
    ensures Linear(Apply(s, a), MapAfter(s, m, a))
  {
    match a
    case Acquire(i, key) => AcquireKeeps(s, m, i, key);
    case Look(i) => WorkerKeeps(s, m, i, Apply(s, a).workers[i]);
    case Route(i) => RouteKeeps(s, m, i);
    case Act(i, call) => ActKeeps(s, m, i, call);
    case Release(i) => WorkerKeeps(s, m, i, Idle);
    case StartExpand => StartExpandKeeps(s, m);
    case MoverLock => MoverLockKeeps(s, m);
    case MoverRelink => MoverRelinkKeeps(s, m);
    case MoverAdvance => MoverAdvanceKeeps(s, m);
    case MoverFinish => MoverUnlockKeeps(s, m, a);
    case MoverUnlock => MoverUnlockKeeps(s, m, a);
  }

  /** The second read may come after the migration has ended; it then sends the key to the new table, as it must. */
  lemma RouteKeeps(s: State, m: map<Key, Item>, i: nat)
    requires Linear(s, m) && Enabled(s, Route(i))
    ensures Linear(Apply(s, Route(i)), m)
  {
    hide TableHolds;
    assert RouteOk(s.t, s.workers[i]);
    WorkerKeeps(s, m, i, Apply(s, Route(i)).workers[i]);
  }

  lemma MoverUnlockKeeps(s: State, m: map<Key, Item>, a: Action)
    requires Linear(s, m) && Enabled(s, a) && (a.MoverFinish? || a.MoverUnlock?)
    ensures Linear(Apply(s, a), m)
  {
    hide Inv, Represents;
  }

  // ----- whole runs -----

  /** An empty table that is larger than the lock table, with nobody at work. */
  ghost predicate IsStart(s: State) {
    && s.t == Empty(s.t.hash, s.t.power) && s.lockPower < s.t.power
    && s.workers == seq(|s.workers|, i => Idle) && s.mover == Resting
  }

  lemma StartLinear(s: State)
    requires IsStart(s)
    ensures Linear(s, map[])
  {
    EmptyAgrees(s.t.hash, s.t.power);
  }

  ghost predicate IsRun(states: seq<State>, maps: seq<map<Key, Item>>, actions: seq<Action>) {
    && |states| == |maps| == |actions| + 1
    && IsStart(states[0]) && maps[0] == map[]
    && forall k :: 0 <= k < |actions| ==>
         Enabled(states[k], actions[k]) && states[k + 1] == Apply(states[k], actions[k])
         && maps[k + 1] == MapAfter(states[k], maps[k], actions[k])
  }

  lemma RunStep(states: seq<State>, maps: seq<map<Key, Item>>, actions: seq<Action>, k: nat)
    requires IsRun(states, maps, actions)
    ensures |states| == |maps| == |actions| + 1 && IsStart(states[0]) && maps[0] == map[]
    ensures k < |actions| ==> Enabled(states[k], actions[k]) && states[k + 1] == Apply(states[k], actions[k])
                              && maps[k + 1] == MapAfter(states[k], maps[k], actions[k])
  {}

  lemma {:induction false} RunLinear(states: seq<State>, maps: seq<map<Key, Item>>, actions: seq<Action>, k: nat)
    requires IsRun(states, maps, actions) && k < |states|
    ensures k < |maps| && Linear(states[k], maps[k])
    decreases k
  {
    hide IsRun, IsStart, Linear, Enabled, Apply, MapAfter;
    RunStep(states, maps, actions, 0);
    if k == 0 {
      StartLinear(states[0]);
    } else {
      RunLinear(states, maps, actions, k - 1);
      RunStep(states, maps, actions, k - 1);
      StepKeeps(states[k - 1], maps[k - 1], actions[k - 1]);
    }
  }

  /** Linearizability: in every run each call answers as the plain map did at the moment of the call. */
  lemma RunAnswers(states: seq<State>, maps: seq<map<Key, Item>>, actions: seq<Action>, k: nat)
    requires IsRun(states, maps, actions) && k < |actions| && actions[k].Act?
    ensures k < |states| && k < |maps|
    ensures actions[k].i < |states[k].workers| && states[k].workers[actions[k].i].Routed?
    ensures var key := states[k].workers[actions[k].i].key;
      Answer(states[k], actions[k].i) == if key in maps[k] then Some(maps[k][key]) else None
  {
    hide IsRun, Linear, Apply, MapAfter;
    RunStep(states, maps, actions, k);
    RunLinear(states, maps, actions, k);
    ActIsAtomic(states[k], maps[k], actions[k].i, actions[k].call);
  }
}
