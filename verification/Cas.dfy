/**
  memcached.c and items.c: the storage commands and the ids that guard them
  against lost updates. Items live at addresses; the table links one item per
  key; connections hold references to items, linked or not.
 */
module CasTypes {
  import opened Decimals
  import opened Strtoull

  newtype Id = x: int | 0 <= x

  type Key = string

  /** value is the data without its CRLF. */
  datatype Item = Item(key: Key, value: string, chunked: bool, cas: nat)

  datatype State = State(items: map<Id, Item>, table: map<Key, Id>, held: multiset<Id>, casId: nat)

  datatype Command = Add | Set | Replace | Append | Prepend | Cas

  datatype Reply = Stored | NotStored | Exists | NotFound

  /**
    One critical section under the item lock of a key. at is the address of a
    newly allocated item, room says whether it could be allocated, after is the
    memory behind the CRLF of the value, which the scan for a number may run into.
   */
  datatype Action =
    | Store(comm: Command, key: Key, value: string, chunked: bool, cas: nat, room: bool, at: Id)
    | Delta(key: Key, incr: bool, delta: nat, after: string, room: bool, at: Id)
    | Unlink(id: Id)    // item_unlink, the second half of a delete
    | Expire(key: Key)  // lazy expiry, flush or eviction
    | Fetch(key: Key)   // item_get
    | Release(id: Id)   // item_remove

  predicate Linked(s: State, id: Id) {
    id in s.items && s.items[id].key in s.table && s.table[s.items[id].key] == id
  }

  /** Every linked item exists and has the key it is linked under. */
  predicate TableOk(s: State) {
    forall key :: key in s.table ==> s.table[key] in s.items && s.items[s.table[key]].key == key
  }

  predicate Enabled(s: State, a: Action) {
    match a
    case Store(_, _, _, _, _, _, at) => at !in s.items
    case Delta(_, _, delta, _, _, at) => at !in s.items && delta < U64
    case Unlink(id) => id in s.items && s.held[id] > 0
    case Expire(key) => key in s.table && s.table[key] in s.items
    case Fetch(key) => key in s.table
    case Release(id) => s.held[id] > 0
  }

  // ----- items.c -----

  /** An item that is neither linked nor held goes back to the allocator. */
  function FreeIfUnused(s: State, id: Id): State {
    if id in s.items && !Linked(s, id) && s.held[id] == 0 then s.(items := s.items - {id}) else s
  }

  /** do_item_unlink of the item linked under key. */
  function UnlinkKey(s: State, key: Key): State
    requires key in s.table
  {
    FreeIfUnused(s.(table := s.table - {key}), s.table[key])
  }

  /** do_item_link, which draws the next id, after do_item_unlink of the item it replaces. */
  function LinkItem(s: State, at: Id, key: Key, value: string, chunked: bool): State {
    LinkNew(if key in s.table then UnlinkKey(s, key) else s, at, Item(key, value, chunked, s.casId + 1))
  }

  function LinkNew(s: State, at: Id, item: Item): State {
    State(s.items[at := item], s.table[item.key := at], s.held, item.cas)
  }

  // ----- memcached.c -----

  /** The reply of do_store_item. */
  function Outcome(s: State, a: Action): Reply
    requires a.Store? && (a.key in s.table ==> s.table[a.key] in s.items)
  {
    var found := a.key in s.table;
    if found && a.comm == Add then NotStored
    else if !found && (a.comm == Replace || a.comm == Append || a.comm == Prepend) then NotStored
    else if a.comm == Cas then
      if !found then NotFound
      else if a.cas == s.items[s.table[a.key]].cas then Stored
      else Exists
    else if a.comm == Append || a.comm == Prepend then
      if a.cas != 0 && a.cas != s.items[s.table[a.key]].cas then Exists
      else if !a.room then NotStored
      else Stored
    else Stored
  }

  /** The value an effective store leaves behind. */
  function StoredValue(s: State, a: Action): string
    requires a.Store?
    requires a.comm == Append || a.comm == Prepend ==> a.key in s.table && s.table[a.key] in s.items
  {
    match a.comm
    case Append => s.items[s.table[a.key]].value + a.value
    case Prepend => a.value + s.items[s.table[a.key]].value
    case _ => a.value
  }

  /** m is n plus delta, less 2^64 if that overflows, or n less delta, but not below zero. */
  predicate Counted(n: nat, incr: bool, delta: nat, m: nat) {
    if incr then m < U64 && (m == n + delta || m + U64 == n + delta)
    else if delta <= n then m + delta == n
    else m == 0
  }

  /** The number do_add_delta arrives at, in unsigned 64-bit arithmetic. */
  function Adjusted(number: nat, incr: bool, delta: nat): (n: nat)
    ensures number < U64 ==> n < U64
    ensures number < U64 && delta < U64 ==> Counted(number, incr, delta, n)
  {
    if incr then (number + delta) % U64 else if delta > number then 0 else number - delta
  }

  function Spaces(n: nat): (s: string)
    ensures |s| == n
  {
    seq(n, _ => ' ')
  }

  /** The number that safe_strtoull finds in the value, its CRLF and the memory behind it. */
  function ReadNumber(s: State, a: Action): (n: Option)
    requires a.Delta? && a.key in s.table && s.table[a.key] in s.items
    ensures n.Some? ==> n.value < U64
  {
    Number(s.items[s.table[a.key]].value + "\r\n" + a.after)
  }

  function NewText(s: State, a: Action): string
    requires a.Delta? && a.key in s.table && s.table[a.key] in s.items && ReadNumber(s, a).Some?
  {
    Decimal(Adjusted(ReadNumber(s, a).value, a.incr, a.delta))
  }

  /** What do_add_delta does. */
  datatype DeltaCase = Missing | Leaked | NonNumeric | InPlace | NoRoom | Replaced

  function DeltaOf(s: State, a: Action): DeltaCase
    requires a.Delta? && (a.key in s.table ==> s.table[a.key] in s.items)
  {
    if a.key !in s.table then Missing
    else
      var it := s.table[a.key];
      if |s.items[it].value| == 0 || s.items[it].chunked then Leaked
      else if ReadNumber(s, a).None? then NonNumeric
      else if |NewText(s, a)| <= |s.items[it].value| && s.held[it] == 0 then InPlace
      else if !a.room then NoRoom
      else Replaced
  }

  function ApplyDelta(s: State, a: Action): State
    requires a.Delta? && (a.key in s.table ==> s.table[a.key] in s.items)
  {
    match DeltaOf(s, a)
    case Missing => s
    case Leaked => s.(held := s.held + multiset{s.table[a.key]})
    case NonNumeric => s
    case NoRoom => s
    case InPlace =>
      var it, text := s.table[a.key], NewText(s, a);
      var item := s.items[it];
      s.(items := s.items[it := item.(value := text + Spaces(|item.value| - |text|), cas := s.casId + 1)],
        casId := s.casId + 1)
    case Replaced =>
      var it, text := s.table[a.key], NewText(s, a);
      var t := LinkItem(s, a.at, a.key, text, false);
      // the replaced item, if somebody still holds it, gets the new id as well
      if it in t.items then t.(items := t.items[it := t.items[it].(cas := t.casId)]) else t
  }

  function Apply(s: State, a: Action): State
    requires Enabled(s, a)
    requires TableOk(s)
  {
    match a
    case Store(_, key, _, chunked, _, _, at) =>
      if Outcome(s, a) == Stored then LinkItem(s, at, key, StoredValue(s, a), chunked) else s
    case Delta(_, _, _, _, _, _) => ApplyDelta(s, a)
    case Unlink(id) => if Linked(s, id) then UnlinkKey(s, s.items[id].key) else s
    case Expire(key) => UnlinkKey(s, key)
    case Fetch(key) => s.(held := s.held + multiset{s.table[key]})
    case Release(id) => FreeIfUnused(s.(held := s.held - multiset{id}), id)
  }

  // ----- what a step means for a key -----

  /** The step is a set, add, replace, append, prepend, cas, incr, decr or delete of key that takes effect. */
  predicate Updates(s: State, a: Action, key: Key)
    requires TableOk(s)
  {
    match a
    case Store(_, k, _, _, _, _, _) => k == key && Outcome(s, a) == Stored
    case Delta(k, _, _, _, _, _) => k == key && (DeltaOf(s, a) == InPlace || DeltaOf(s, a) == Replaced)
    case Unlink(id) => Linked(s, id) && s.items[id].key == key
    case _ => false
  }

  /** The step replaces the item at o by an incr or decr, which also overwrites the id of the item at o. */
  predicate Overwrites(s: State, a: Action, o: Id)
    requires TableOk(s)
  {
    a.Delta? && a.key in s.table && s.table[a.key] == o && DeltaOf(s, a) == Replaced
  }

  // ----- reachable states -----

  ghost predicate Inv(s: State) {
    && TableOk(s)
    && (forall id :: id in s.items ==> s.items[id].cas <= s.casId)
    && (forall id :: s.held[id] > 0 ==> id in s.items)
    && (forall id :: id in s.items ==> Linked(s, id) || s.held[id] > 0)
  }

  const INIT := State(map[], map[], multiset{}, 0)

  /** One step; TableOk makes the step well defined and holds in every reachable state. */
  ghost predicate Step(s: State, a: Action, t: State) {
    TableOk(s) && Enabled(s, a) && t == Apply(s, a)
  }

  ghost predicate IsRun(states: seq<State>, actions: seq<Action>) {
    && |states| == |actions| + 1 && states[0] == INIT
    && forall k {:trigger actions[k]} :: 0 <= k < |actions| ==> Step(states[k], actions[k], states[k + 1])
  }
}

/** No lost update: what a cas that replies STORED proves about the past. */
module Cas {
  import opened CasTypes
  import opened Decimals
  import opened Strtoull

  lemma UnlinkKeeps(s: State, key: Key)
    requires Inv(s) && key in s.table
    ensures var t := UnlinkKey(s, key);
      Inv(t) && key !in t.table && t.casId == s.casId && forall id :: id in t.items ==> id in s.items
  {}

  lemma LinkNewKeeps(s: State, at: Id, item: Item)
    requires Inv(s) && at !in s.items && item.key !in s.table && item.cas == s.casId + 1
    ensures Inv(LinkNew(s, at, item))
  {
    var t := LinkNew(s, at, item);
    assert TableOk(t);
    forall id | id in t.items
      ensures Linked(t, id) || t.held[id] > 0
    {
      assert id != at ==> Linked(s, id) || s.held[id] > 0;
    }
  }

  lemma LinkKeeps(s: State, at: Id, key: Key, value: string, chunked: bool)
    requires Inv(s) && at !in s.items
    ensures Inv(LinkItem(s, at, key, value, chunked))
  {
    hide Inv, UnlinkKey, LinkNew;
    var t := if key in s.table then UnlinkKey(s, key) else s;
    if key in s.table {
      UnlinkKeeps(s, key);
    }
    LinkNewKeeps(t, at, Item(key, value, chunked, s.casId + 1));
  }

  /** An item may change its value and take an id already drawn. */
  lemma ReviseKeeps(s: State, id: Id, item: Item, casId: nat)
    requires Inv(s) && id in s.items && item.key == s.items[id].key && item.cas <= casId && s.casId <= casId
    ensures Inv(s.(items := s.items[id := item], casId := casId))
  {
    var t := s.(items := s.items[id := item], casId := casId);
    assert forall x :: x in t.items ==> t.items[x].key == s.items[x].key;
    assert forall x :: Linked(t, x) <==> Linked(s, x);
  }

  lemma HoldKeeps(s: State, id: Id)
    requires Inv(s) && id in s.items
    ensures Inv(s.(held := s.held + multiset{id}))
  {
    var t := s.(held := s.held + multiset{id});
    assert forall x :: Linked(t, x) <==> Linked(s, x);
  }

  lemma ReleaseKeeps(s: State, id: Id)
    requires Inv(s) && s.held[id] > 0
    ensures Inv(FreeIfUnused(s.(held := s.held - multiset{id}), id))
  {
    var t := FreeIfUnused(s.(held := s.held - multiset{id}), id);
    assert forall x :: x != id ==> (Linked(t, x) <==> Linked(s, x));
  }

  lemma DeltaKeeps(s: State, a: Action)
    requires Inv(s) && Enabled(s, a) && a.Delta?
    ensures Inv(ApplyDelta(s, a))
  {
    assert TableOk(s);
    hide Inv, LinkItem, ReadNumber, NewText;
    match DeltaOf(s, a)
    case Replaced =>
      var it, text := s.table[a.key], NewText(s, a);
      var t := LinkItem(s, a.at, a.key, text, false);
      LinkKeeps(s, a.at, a.key, text, false);
      if it in t.items {
        ReviseKeeps(t, it, t.items[it].(cas := t.casId), t.casId);
      }
    case InPlace =>
      var it, text := s.table[a.key], NewText(s, a);
      ReviseKeeps(s, it, s.items[it].(value := text + Spaces(|s.items[it].value| - |text|), cas := s.casId + 1),
        s.casId + 1);
    case Leaked => HoldKeeps(s, s.table[a.key]);
    case _ =>
  }

  lemma StepKeeps(s: State, a: Action)
    requires Inv(s) && Enabled(s, a)
    ensures Inv(Apply(s, a))
  {
    assert TableOk(s);
    hide Inv, LinkItem, UnlinkKey, ApplyDelta, StoredValue, FreeIfUnused;
    match a
    case Store(_, key, _, chunked, _, _, at) =>
      if Outcome(s, a) == Stored {
        LinkKeeps(s, at, key, StoredValue(s, a), chunked);
      }
    case Delta(_, _, _, _, _, _) => DeltaKeeps(s, a);
    case Unlink(id) =>
      if Linked(s, id) {
        UnlinkKeeps(s, s.items[id].key);
      }
    case Expire(key) => UnlinkKeeps(s, key);
    case Fetch(key) => HoldKeeps(s, s.table[key]);
    case Release(id) => ReleaseKeeps(s, id);
  }

  // ----- what a step leaves alone -----

  /** Items that survive are as they were, and held items and items linked under other keys survive. */
  ghost predicate OthersStay(s: State, t: State, key: Key) {
    && (forall id :: id in t.items && id in s.items ==> t.items[id] == s.items[id])
    && (forall id :: id in s.items && s.held[id] > 0 ==> id in t.items)
    && (forall k :: k in s.table && k != key ==> k in t.table && t.table[k] == s.table[k] && s.table[k] in t.items)
    && (forall k :: k in t.table && k != key ==> k in s.table)
  }

  lemma UnlinkEffect(s: State, key: Key)
    requires TableOk(s) && key in s.table
    ensures var t := UnlinkKey(s, key);
      && OthersStay(s, t, key) && t.casId == s.casId && t.held == s.held && key !in t.table
      && (forall k :: k in t.table ==> t.table[k] in t.items)
      && forall id :: id in t.items ==> id in s.items
  {}

  lemma LinkEffect(s: State, at: Id, key: Key, value: string, chunked: bool)
    requires TableOk(s) && at !in s.items
    ensures var t := LinkItem(s, at, key, value, chunked);
      && OthersStay(s, t, key) && t.casId == s.casId + 1 && t.held == s.held
      && key in t.table && t.table[key] == at && at in t.items && t.items[at] == Item(key, value, chunked, s.casId + 1)
      && forall id :: id in t.items ==> id in s.items || id == at
  {
    hide UnlinkKey, LinkNew, OthersStay;
    var item := Item(key, value, chunked, s.casId + 1);
    if key in s.table {
      UnlinkEffect(s, key);
      LinkNewEffect(UnlinkKey(s, key), at, item);
      OthersStayBoth(s, UnlinkKey(s, key), LinkItem(s, at, key, value, chunked), key);
    } else {
      LinkNewEffect(s, at, item);
    }
  }

  lemma LinkNewEffect(s: State, at: Id, item: Item)
    requires at !in s.items && item.key !in s.table && (forall key :: key in s.table ==> s.table[key] in s.items)
    ensures var t := LinkNew(s, at, item);
      && OthersStay(s, t, item.key) && t.casId == item.cas && t.held == s.held
      && item.key in t.table && t.table[item.key] == at && at in t.items && t.items[at] == item
      && forall id :: id in t.items ==> id in s.items || id == at
  {}

  lemma OthersStayBoth(s: State, t: State, u: State, key: Key)
    requires OthersStay(s, t, key) && OthersStay(t, u, key) && t.held == s.held
    requires forall id :: id in u.items && id in s.items ==> id in t.items
    ensures OthersStay(s, u, key)
  {}

  /** The item linked under key is the same, unchanged, before and after. */
  ghost predicate SameItem(s: State, t: State, key: Key) {
    && key in s.table && key in t.table && s.table[key] == t.table[key]
    && s.table[key] in s.items && s.table[key] in t.items && s.items[s.table[key]] == t.items[t.table[key]]
  }

  lemma OtherKey(s: State, t: State, k: Key, key: Key)
    requires TableOk(s) && OthersStay(s, t, k) && key != k
    ensures key in t.table <==> key in s.table
    ensures key in s.table ==> SameItem(s, t, key)
  {}

  lemma DeltaPersists(s: State, a: Action, key: Key, c: nat)
    requires Inv(s) && Enabled(s, a) && c <= s.casId && a.Delta?
    requires var t := ApplyDelta(s, a); key in t.table && t.table[key] in t.items && t.items[t.table[key]].cas <= c
    ensures SameItem(s, ApplyDelta(s, a), key) && !Updates(s, a, key)
  {
    assert TableOk(s);
    hide Inv, LinkItem, ReadNumber, NewText, OthersStay;
    if DeltaOf(s, a) == Replaced {
      var text := NewText(s, a);
      LinkEffect(s, a.at, a.key, text, false);
      if key != a.key {
        OtherKey(s, LinkItem(s, a.at, a.key, text, false), a.key, key);
      }
    }
  }

  lemma ReleaseEffect(s: State, id: Id)
    requires TableOk(s) && s.held[id] > 0
    ensures var t := Apply(s, Release(id));
      t.table == s.table && t.casId == s.casId && forall key :: key in s.table ==> SameItem(s, t, key)
  {}

  /** A step never takes an item away from under key, or changes it, without leaving a newer id or none. */
  lemma Persists(s: State, a: Action, key: Key, c: nat)
    requires Inv(s) && Enabled(s, a) && c <= s.casId
    requires var t := Apply(s, a); key in t.table && t.table[key] in t.items && t.items[t.table[key]].cas <= c
    ensures SameItem(s, Apply(s, a), key) && !Updates(s, a, key) && a != Expire(key)
  {
    assert TableOk(s);
    hide Inv, LinkItem, UnlinkKey, ApplyDelta, StoredValue, OthersStay, FreeIfUnused;
    var t := Apply(s, a);
    match a
    case Store(_, k, _, chunked, _, _, at) =>
      if Outcome(s, a) == Stored {
        LinkEffect(s, at, k, StoredValue(s, a), chunked);
        if key != k {
          OtherKey(s, t, k, key);
        }
      }
    case Delta(_, _, _, _, _, _) => DeltaPersists(s, a, key, c);
    case Unlink(id) =>
      if Linked(s, id) {
        UnlinkEffect(s, s.items[id].key);
        OtherKey(s, t, s.items[id].key, key);
      }
    case Expire(k) =>
      UnlinkEffect(s, k);
      OtherKey(s, t, k, key);
    case Fetch(_) =>
    case Release(id) => ReleaseEffect(s, id);
  }

  lemma {:induction false} RunInv(states: seq<State>, actions: seq<Action>, k: nat)
    requires IsRun(states, actions) && k < |states|
    ensures Inv(states[k])
  {
    if k > 0 {
      RunInv(states, actions, k - 1);
      assert Step(states[k - 1], actions[k - 1], states[k - 1 + 1]);
      StepKeeps(states[k - 1], actions[k - 1]);
    }
  }

  lemma RunStep(states: seq<State>, actions: seq<Action>, k: nat)
    requires IsRun(states, actions) && k < |actions|
    ensures Inv(states[k]) && Enabled(states[k], actions[k]) && states[k + 1] == Apply(states[k], actions[k])
    ensures states[k].casId <= states[k + 1].casId
  {
    RunInv(states, actions, k);
    assert Step(states[k], actions[k], states[k + 1]);
    CasIdGrows(states[k], actions[k]);
  }

  lemma CasIdGrows(s: State, a: Action)
    requires Inv(s) && Enabled(s, a)
    ensures s.casId <= Apply(s, a).casId <= s.casId + 1
  {}

  lemma {:induction false} RunCasIdGrows(states: seq<State>, actions: seq<Action>, i: nat, j: nat)
    requires IsRun(states, actions) && i <= j < |states|
    ensures states[i].casId <= states[j].casId
    decreases j - i
  {
    hide Step, Inv, Apply;
    if i < j {
      RunCasIdGrows(states, actions, i, j - 1);
      RunStep(states, actions, j - 1);
    }
  }

  // ----- ids -----

  /** The id a step hands out: to the item it links, or to the item it changes in place. */
  ghost function Assigned(s: State, a: Action): (id: Option)
    requires TableOk(s) && Enabled(s, a)
  {
    var t := Apply(s, a);
    if a.Store? && Outcome(s, a) == Stored then Some(t.items[a.at].cas)
    else if a.Delta? && DeltaOf(s, a) == InPlace then Some(t.items[s.table[a.key]].cas)
    else if a.Delta? && DeltaOf(s, a) == Replaced then Some(t.items[a.at].cas)
    else None
  }

  lemma AssignedIsNext(s: State, a: Action)
    requires TableOk(s) && Enabled(s, a)
    ensures Assigned(s, a) == if Apply(s, a).casId == s.casId then None else Some(s.casId + 1)
  {}

  /** Ids are handed out in strictly increasing order, so none is handed out twice. */
  lemma IdsIncrease(states: seq<State>, actions: seq<Action>, i: nat, j: nat)
    requires IsRun(states, actions) && i < j < |actions|
    requires TableOk(states[i]) && TableOk(states[j]) && Enabled(states[i], actions[i])
    requires Enabled(states[j], actions[j])
    requires Assigned(states[i], actions[i]).Some? && Assigned(states[j], actions[j]).Some?
    ensures Assigned(states[i], actions[i]).value < Assigned(states[j], actions[j]).value
  {
    hide Step, Apply, Assigned;
    AssignedIsNext(states[i], actions[i]);
    AssignedIsNext(states[j], actions[j]);
    RunStep(states, actions, i);
    RunCasIdGrows(states, actions, i + 1, j);
  }

  // ----- no lost update -----

  ghost predicate Untouched(states: seq<State>, actions: seq<Action>, i: nat, j: nat, key: Key)
    requires j <= |actions| < |states|
  {
    forall m {:trigger states[m]} :: i <= m < j ==>
      TableOk(states[m]) && !Updates(states[m], actions[m], key) && actions[m] != Expire(key)
  }

  /**
    If the id linked under key at j was already drawn at i, then the same item was
    linked at i and nothing happened to the key since.
   */
  lemma {:induction false} OldIdMeansUntouched(states: seq<State>, actions: seq<Action>, i: nat, j: nat, key: Key)
    requires IsRun(states, actions) && i <= j < |states|
    requires key in states[j].table && states[j].table[key] in states[j].items
    requires states[j].items[states[j].table[key]].cas <= states[i].casId
    ensures SameItem(states[i], states[j], key) && Untouched(states, actions, i, j, key)
    decreases j - i
  {
    hide Step, Apply, Updates;
    if i < j {
      RunStep(states, actions, j - 1);
      RunCasIdGrows(states, actions, i, j - 1);
      Persists(states[j - 1], actions[j - 1], key, states[i].casId);
      OldIdMeansUntouched(states, actions, i, j - 1, key);
      UntouchedOneMore(states, actions, i, j - 1, key);
    }
  }

  lemma UntouchedOneMore(states: seq<State>, actions: seq<Action>, i: nat, j: nat, key: Key)
    requires i <= j < |actions| < |states| && Untouched(states, actions, i, j, key)
    requires TableOk(states[j]) && !Updates(states[j], actions[j], key) && actions[j] != Expire(key)
    ensures Untouched(states, actions, i, j + 1, key)
  {
  }

  /** A connection reads the item at o: its value and the id that gets prints. */
  function Print(s: State, o: Id): (string, nat)
    requires o in s.items
  {
    (s.items[o].value, s.items[o].cas)
  }

  /**
    No lost update. If a gets printed an id at step p and a later cas with that id
    is answered STORED at step j, no set, add, replace, append, prepend, cas,
    incr, decr, delete, expiry or eviction of the key took effect in between.
   */
  lemma CasStoredMeansUntouched(states: seq<State>, actions: seq<Action>, o: Id, p: nat, j: nat)
    requires IsRun(states, actions) && p <= j < |actions|
    requires o in states[p].items
    requires actions[j].Store? && actions[j].comm == Cas && actions[j].cas == Print(states[p], o).1
    requires TableOk(states[j]) && Outcome(states[j], actions[j]) == Stored
    ensures SameItem(states[p], states[j], actions[j].key)
    ensures Untouched(states, actions, p, j, actions[j].key)
  {
    RunInv(states, actions, p);
    OldIdMeansUntouched(states, actions, p, j, actions[j].key);
  }

  // ----- a gets fetches the item first and prints its id later -----

  /**
    A held item keeps its key and its bytes; its id changes only when an incr or
    decr replaces it, and it is never linked again.
   */
  lemma HeldItem(s: State, a: Action, o: Id)
    requires Inv(s) && Enabled(s, a) && o in s.items && s.held[o] > 0 && o in Apply(s, a).items
    ensures var t := Apply(s, a);
      && t.items[o].key == s.items[o].key && t.items[o].value == s.items[o].value
      && t.items[o].cas == (if Overwrites(s, a, o) then s.casId + 1 else s.items[o].cas)
      && (Linked(t, o) ==> Linked(s, o) && !Overwrites(s, a, o))
  {
    assert TableOk(s);
    hide Inv, LinkItem, UnlinkKey, StoredValue, FreeIfUnused, ReadNumber, NewText;
    match a
    case Store(_, k, _, chunked, _, _, at) =>
      if Outcome(s, a) == Stored {
        LinkEffect(s, at, k, StoredValue(s, a), chunked);
      }
    case Delta(_, _, _, _, _, _) => HeldDelta(s, a, o);
    case Unlink(id) =>
      if Linked(s, id) {
        UnlinkEffect(s, s.items[id].key);
      }
    case Expire(k) => UnlinkEffect(s, k);
    case Fetch(_) =>
    case Release(id) => ReleaseItems(s, id);
  }

  lemma ReleaseItems(s: State, id: Id)
    requires Enabled(s, Release(id)) && TableOk(s)
    ensures var t := Apply(s, Release(id));
      t.table == s.table && forall x :: x in t.items ==> x in s.items && t.items[x] == s.items[x]
  {}

  lemma HeldDelta(s: State, a: Action, o: Id)
    requires Inv(s) && Enabled(s, a) && a.Delta? && o in s.items && s.held[o] > 0
    ensures var t := ApplyDelta(s, a);
      && o in t.items && t.items[o].key == s.items[o].key && t.items[o].value == s.items[o].value
      && t.items[o].cas == (if Overwrites(s, a, o) then s.casId + 1 else s.items[o].cas)
      && (Linked(t, o) ==> Linked(s, o) && !Overwrites(s, a, o))
  {
    assert TableOk(s);
    hide Inv, LinkItem, ReadNumber, NewText;
    if DeltaOf(s, a) == Replaced {
      LinkEffect(s, a.at, a.key, NewText(s, a), false);
    }
  }

  /** Some incr or decr replaced the item at o between steps f and p. */
  ghost predicate Overwritten(states: seq<State>, actions: seq<Action>, f: nat, p: nat, o: Id)
    requires p <= |actions| < |states|
  {
    exists m {:trigger actions[m]} :: f <= m < p && TableOk(states[m]) && Overwrites(states[m], actions[m], o)
  }

  lemma {:induction false} HeldThrough(states: seq<State>, actions: seq<Action>, f: nat, p: nat, o: Id)
    requires IsRun(states, actions) && f <= p < |states|
    requires forall m :: f <= m <= p ==> o in states[m].items && states[m].held[o] > 0
    ensures states[p].items[o].key == states[f].items[o].key && states[p].items[o].value == states[f].items[o].value
    ensures Linked(states[p], o) ==> Linked(states[f], o) && !Overwritten(states, actions, f, p, o)
    ensures states[p].items[o].cas == states[f].items[o].cas <==> !Overwritten(states, actions, f, p, o)
    decreases p - f
  {
    hide Step, Apply, Overwrites;
    if f < p {
      RunStep(states, actions, p - 1);
      HeldThrough(states, actions, f, p - 1, o);
      HeldItem(states[p - 1], actions[p - 1], o);
      RunCasIdGrows(states, actions, f, p - 1);
      RunInv(states, actions, f);
    }
  }

  /**
    A gets fetches the item at step f and prints value and id at step p; a cas
    with that id is answered STORED at step j. The value printed is the one
    fetched. The item replaced is the one fetched, and then nothing happened to
    the key since the fetch, exactly when no incr or decr replaced the item
    between fetch and print.
   */
  lemma GetsThenCas(states: seq<State>, actions: seq<Action>, f: nat, p: nat, j: nat, key: Key)
    requires IsRun(states, actions) && f < p <= j < |actions|
    requires actions[f] == Fetch(key) && TableOk(states[f]) && key in states[f].table
    requires forall m :: f < m <= p ==>
      states[f].table[key] in states[m].items && states[m].held[states[f].table[key]] > 0
    requires actions[j].Store? && actions[j].comm == Cas && actions[j].key == key
    requires actions[j].cas == Print(states[p], states[f].table[key]).1
    requires TableOk(states[j]) && Outcome(states[j], actions[j]) == Stored
    ensures Print(states[p], states[f].table[key]).0 == states[f].items[states[f].table[key]].value
    ensures SameItem(states[f], states[j], key) <==> !Overwritten(states, actions, f + 1, p, states[f].table[key])
    ensures Untouched(states, actions, f, j, key) <==> !Overwritten(states, actions, f + 1, p, states[f].table[key])
  {
    hide Step, Apply, Updates, Overwrites, Outcome, Enabled;
    var o := states[f].table[key];
    CasStoredId(states[j], actions[j]);
    FetchStep(states, actions, f, key);
    HeldThrough(states, actions, f + 1, p, o);
    RunInv(states, actions, f);
    CasStoredMeansUntouched(states, actions, o, p, j);
    if !Overwritten(states, actions, f + 1, p, o) {
      OldIdMeansUntouched(states, actions, f, j, key);
    } else {
      var m :| f + 1 <= m < p && TableOk(states[m]) && Overwrites(states[m], actions[m], o);
      HeldThrough(states, actions, f + 1, m, o);
      OverwriteUpdates(states[m], actions[m], o);
    }
  }

  lemma CasStoredId(s: State, a: Action)
    requires TableOk(s) && a.Store? && a.comm == Cas && Outcome(s, a) == Stored
    ensures a.key in s.table && s.items[s.table[a.key]].cas == a.cas
  {}

  lemma FetchStep(states: seq<State>, actions: seq<Action>, f: nat, key: Key)
    requires IsRun(states, actions) && f < |actions| && actions[f] == Fetch(key) && TableOk(states[f])
    requires key in states[f].table
    ensures states[f + 1].items == states[f].items && states[f + 1].table == states[f].table
  {
    RunStep(states, actions, f);
  }

  lemma OverwriteUpdates(s: State, a: Action, o: Id)
    requires TableOk(s) && Overwrites(s, a, o)
    ensures o in s.items && Updates(s, a, s.items[o].key)
  {}

  /** The increment that a gets in progress can lose: the id printed with "5" is the id of "6". */
  lemma LostIncrement() returns (states: seq<State>, actions: seq<Action>)
    ensures IsRun(states, actions) && |actions| == 4
    ensures actions[1] == Fetch("k") && "k" in states[1].table && states[1].table["k"] == 1
    ensures 1 in states[3].items && Print(states[3], 1) == ("5", 2)
    ensures actions[3] == Store(Cas, "k", "7", false, 2, true, 3)
    ensures TableOk(states[3]) && Outcome(states[3], actions[3]) == Stored
    ensures states[3].items[states[3].table["k"]].value == "6"
  {
    var a0 := Store(Set, "k", "5", false, 0, true, 1);
    var a1, a2 := Fetch("k"), Delta("k", true, 1, "", true, 2);
    var a3 := Store(Cas, "k", "7", false, 2, true, 3);
    var s1 := State(map[1 := Item("k", "5", false, 1)], map["k" := 1], multiset{}, 1);
    var s2 := s1.(held := multiset{1});
    var s3 := State(map[1 := Item("k", "5", false, 2), 2 := Item("k", "6", false, 2)], map["k" := 2], multiset{1}, 2);
    assert Decimal(6) == "6";
    assert Step(INIT, a0, s1);
    assert Step(s1, a1, s2);
    LostDelta(s2, a2, s3);
    var s4 := Apply(s3, a3);
    assert Step(s3, a3, s4);
    states, actions := [INIT, s1, s2, s3, s4], [a0, a1, a2, a3];
    forall k | 0 <= k < |actions|
      ensures Step(states[k], actions[k], states[k + 1])
    {
      assert k == 0 || k == 1 || k == 2 || k == 3;
    }
  }

  lemma LostDelta(s2: State, a2: Action, s3: State)
    requires s2 == State(map[1 := Item("k", "5", false, 1)], map["k" := 1], multiset{1}, 1)
    requires a2 == Delta("k", true, 1, "", true, 2)
    requires s3 == State(map[1 := Item("k", "5", false, 2), 2 := Item("k", "6", false, 2)], map["k" := 2],
      multiset{1}, 2)
    ensures Step(s2, a2, s3)
  {
    assert Decimal(5) == "5" && Adjusted(5, true, 1) == 6 && Decimal(6) == "6";
    ShownNumber("5", 5, "");
    assert s2.table - {"k"} == map[];
    assert UnlinkKey(s2, "k") == s2.(table := map[]);
    assert DeltaOf(s2, a2) == Replaced;
    assert LinkItem(s2, 2, "k", "6", false) == s3.(items := s2.items[2 := Item("k", "6", false, 2)]);
    assert s3.items == s2.items[2 := Item("k", "6", false, 2)][1 := Item("k", "5", false, 2)];
  }

  // ----- the commands as operations on a plain map -----

  /** What clients can see: value and id of every key. */
  function Client(s: State): map<Key, (string, nat)>
    requires TableOk(s)
  {
    map k | k in s.table :: (s.items[s.table[k]].value, s.items[s.table[k]].cas)
  }

  /** Whether a storage command is carried out: the protocol's rules, on what clients see. */
  predicate Accepted(c: map<Key, (string, nat)>, comm: Command, key: Key, cas: nat, room: bool) {
    match comm
    case Set => true
    case Add => key !in c
    case Replace => key in c
    case Append => key in c && (cas == 0 || cas == c[key].1) && room
    case Prepend => key in c && (cas == 0 || cas == c[key].1) && room
    case Cas => key in c && cas == c[key].1
  }

  /** The four replies: EXISTS is for a wrong id, NOT_FOUND for a cas without a key. */
  predicate Replies(c: map<Key, (string, nat)>, comm: Command, key: Key, cas: nat, room: bool, reply: Reply) {
    && (reply == Stored <==> Accepted(c, comm, key, cas, room))
    && (reply == NotFound <==> comm == Cas && key !in c)
    && (reply == Exists <==>
          key in c && cas != c[key].1 && (comm == Cas || ((comm == Append || comm == Prepend) && cas != 0)))
  }

  /** The value under key after STORED. */
  function Joined(c: map<Key, (string, nat)>, comm: Command, key: Key, value: string): string {
    if comm == Append && key in c then c[key].0 + value
    else if comm == Prepend && key in c then value + c[key].0
    else value
  }

  /** do_store_item replies by those rules, and stores what they say. */
  lemma StoreReplies(s: State, a: Action)
    requires TableOk(s) && a.Store?
    ensures Replies(Client(s), a.comm, a.key, a.cas, a.room, Outcome(s, a))
    ensures Outcome(s, a) == Stored ==> StoredValue(s, a) == Joined(Client(s), a.comm, a.key, a.value)
  {}

  /**
    The meaning of a step: an effective update gives the key a new value and the
    next id, or removes it; nothing else is visible.
   */
  function Meant(s: State, a: Action): map<Key, (string, nat)>
    requires TableOk(s) && Enabled(s, a)
  {
    match a
    case Store(comm, key, value, _, cas, room, _) =>
      if Accepted(Client(s), comm, key, cas, room)
      then Client(s)[key := (Joined(Client(s), comm, key, value), s.casId + 1)]
      else Client(s)
    case Delta(key, _, _, _, _, _) =>
      if DeltaOf(s, a) == InPlace then
        Client(s)[key := (NewText(s, a) + Spaces(|s.items[s.table[key]].value| - |NewText(s, a)|), s.casId + 1)]
      else if DeltaOf(s, a) == Replaced then Client(s)[key := (NewText(s, a), s.casId + 1)]
      else Client(s)
    case Unlink(id) => if Linked(s, id) then Client(s) - {s.items[id].key} else Client(s)
    case Expire(key) => Client(s) - {key}
    case Fetch(_) => Client(s)
    case Release(_) => Client(s)
  }

  lemma InvTable(s: State)
    requires Inv(s)
    ensures TableOk(s)
  {}

  lemma OthersClient(s: State, t: State, key: Key)
    requires TableOk(s) && TableOk(t) && OthersStay(s, t, key)
    ensures key !in t.table ==> Client(t) == Client(s) - {key}
    ensures key in t.table ==> Client(t) == Client(s)[key := Client(t)[key]]
  {
    hide OthersStay;
    forall k | k != key
      ensures k in t.table <==> k in s.table
      ensures k in s.table ==> Client(t)[k] == Client(s)[k]
    {
      OtherKey(s, t, key, k);
    }
  }

  lemma LinkRefines(s: State, at: Id, key: Key, value: string, chunked: bool)
    requires Inv(s) && at !in s.items
    ensures var t := LinkItem(s, at, key, value, chunked);
      TableOk(s) && TableOk(t) && Client(t) == Client(s)[key := (value, s.casId + 1)]
  {
    hide Inv, LinkItem, OthersStay;
    var t := LinkItem(s, at, key, value, chunked);
    InvTable(s);
    LinkEffect(s, at, key, value, chunked);
    LinkKeeps(s, at, key, value, chunked);
    InvTable(t);
    OthersClient(s, t, key);
  }

  lemma UnlinkRefines(s: State, key: Key)
    requires Inv(s) && key in s.table
    ensures var t := UnlinkKey(s, key); TableOk(s) && TableOk(t) && Client(t) == Client(s) - {key}
  {
    hide Inv, UnlinkKey, OthersStay;
    InvTable(s);
    UnlinkEffect(s, key);
    UnlinkKeeps(s, key);
    InvTable(UnlinkKey(s, key));
    OthersClient(s, UnlinkKey(s, key), key);
  }

  /** Changing the id of an item that is not linked is invisible. */
  lemma ReviseUnlinked(s: State, id: Id, cas: nat)
    requires TableOk(s) && id in s.items && !Linked(s, id)
    ensures var t := s.(items := s.items[id := s.items[id].(cas := cas)]); TableOk(t) && Client(t) == Client(s)
  {
    var t := s.(items := s.items[id := s.items[id].(cas := cas)]);
    assert forall k :: k in s.table ==> s.table[k] != id;
  }

  lemma ReviseLinked(s: State, key: Key, value: string, cas: nat)
    requires TableOk(s) && key in s.table
    ensures var it := s.table[key];
      var t := s.(items := s.items[it := s.items[it].(value := value, cas := cas)], casId := cas);
        TableOk(t) && Client(t) == Client(s)[key := (value, cas)]
  {
    var it := s.table[key];
    assert forall k :: k in s.table && k != key ==> s.table[k] != it;
  }

  lemma DeltaRefines(s: State, a: Action)
    requires Inv(s) && Enabled(s, a) && a.Delta?
    ensures TableOk(s) && TableOk(ApplyDelta(s, a)) && Client(ApplyDelta(s, a)) == Meant(s, a)
  {
    hide Inv, LinkItem, ReadNumber, NewText, Client, TableOk;
    InvTable(s);
    TableFact(s, a.key);
    match DeltaOf(s, a)
    case Replaced =>
      var it, text := s.table[a.key], NewText(s, a);
      var t := LinkItem(s, a.at, a.key, text, false);
      LinkRefines(s, a.at, a.key, text, false);
      LinkEffect(s, a.at, a.key, text, false);
      if it in t.items {
        ReviseUnlinked(t, it, t.casId);
      }
    case InPlace =>
      var text := NewText(s, a);
      ReviseLinked(s, a.key, text + Spaces(|s.items[s.table[a.key]].value| - |text|), s.casId + 1);
    case Leaked => HeldClient(s, s.held + multiset{s.table[a.key]});
    case _ =>
  }

  lemma TableFact(s: State, key: Key)
    requires TableOk(s)
    ensures key in s.table ==> s.table[key] in s.items && s.items[s.table[key]].key == key
  {}

  lemma SameClient(s: State, t: State)
    requires TableOk(s) && t.table == s.table && forall k :: k in s.table ==> SameItem(s, t, k)
    ensures TableOk(t) && Client(t) == Client(s)
  {}

  lemma HeldClient(s: State, held: multiset<Id>)
    requires TableOk(s)
    ensures TableOk(s.(held := held)) && Client(s.(held := held)) == Client(s)
  {}

  /**
    Addresses, references and frees are invisible: every step does to the map of
    keys exactly what its command means.
   */
  lemma StepRefines(s: State, a: Action)
    requires Inv(s) && Enabled(s, a)
    ensures TableOk(s) && TableOk(Apply(s, a)) && Client(Apply(s, a)) == Meant(s, a)
  {
    hide Inv, LinkItem, UnlinkKey, ApplyDelta, StoredValue, FreeIfUnused, Client, TableOk, SameItem, Accepted, Joined;
    InvTable(s);
    match a
    case Store(_, key, _, chunked, _, _, at) =>
      StoreReplies(s, a);
      if Outcome(s, a) == Stored {
        LinkRefines(s, at, key, StoredValue(s, a), chunked);
      }
    case Delta(_, _, _, _, _, _) => DeltaRefines(s, a);
    case Unlink(id) =>
      if Linked(s, id) {
        UnlinkRefines(s, s.items[id].key);
      }
    case Expire(key) => UnlinkRefines(s, key);
    case Fetch(key) => HeldClient(s, s.held + multiset{s.table[key]});
    case Release(id) =>
      ReleaseEffect(s, id);
      SameClient(s, Apply(s, a));
  }

  // ----- counters -----

  /**
    After an effective incr or decr the value shows the sum or the difference,
    whether it was changed in place or replaced. The next incr or decr reads exactly
    that number, unless it is 2^63 or more and a minus sign follows in memory.
   */
  lemma DeltaReadsBack(s: State, a: Action, after: string) returns (m: nat)
    requires Inv(s) && Enabled(s, a) && a.Delta? && TableOk(s) && Updates(s, a, a.key)
    ensures TableOk(Apply(s, a)) && a.key in Client(Apply(s, a)) && ReadNumber(s, a).Some?
    ensures m == Adjusted(ReadNumber(s, a).value, a.incr, a.delta)
    ensures var n := ReadNumber(s, a).value;
      if a.incr then m < U64 && (m == n + a.delta || m + U64 == n + a.delta)
      else if a.delta <= n then m + a.delta == n else m == 0
    ensures var value := Client(Apply(s, a))[a.key].0;
      Shows(value, m) && (Number(value + "\r\n" + after) == Some(m) <==> m < U64 / 2 || !HasMinus(after))
  {
    hide Inv, ApplyDelta, ReadNumber, Adjusted, Number, HasMinus;
    m := Adjusted(ReadNumber(s, a).value, a.incr, a.delta);
    StepRefines(s, a);
    ShownNumber(Client(Apply(s, a))[a.key].0, m, after);
  }

  /**
    An incr or decr takes effect exactly on a value that is not empty, not chunked
    and a number, if the new text fits and nobody else holds the item, or if there
    is memory for a new item. Only a fitting text in an item nobody holds is written
    in place. An empty or chunked value costs a reference that nobody drops.
   */
  lemma DeltaTakesEffect(s: State, a: Action)
    requires TableOk(s) && a.Delta? && Enabled(s, a)
    ensures Updates(s, a, a.key) <==>
      && a.key in s.table && s.items[s.table[a.key]].value != "" && !s.items[s.table[a.key]].chunked
      && Number(s.items[s.table[a.key]].value + "\r\n" + a.after).Some?
      && (a.room || (s.held[s.table[a.key]] == 0 && |NewText(s, a)| <= |s.items[s.table[a.key]].value|))
    ensures Updates(s, a, a.key) ==>
      (ApplyDelta(s, a).table == s.table <==>
         s.held[s.table[a.key]] == 0 && |NewText(s, a)| <= |s.items[s.table[a.key]].value|)
    ensures ApplyDelta(s, a).held ==
      if a.key in s.table && (s.items[s.table[a.key]].value == "" || s.items[s.table[a.key]].chunked)
      then s.held + multiset{s.table[a.key]}
      else s.held
  {}

  /** An incr or decr of a counter is refused as non-numeric exactly in that case. */
  lemma CounterRefused(s: State, a: Action, n: nat)
    requires TableOk(s) && a.Delta? && a.key in s.table
    requires Shows(s.items[s.table[a.key]].value, n) && !s.items[s.table[a.key]].chunked
    ensures DeltaOf(s, a) == NonNumeric <==> n >= U64 / 2 && HasMinus(a.after)
    ensures DeltaOf(s, a) != NonNumeric ==> ReadNumber(s, a) == Some(n)
  {
    hide Number, HasMinus, NewText;
    ShownNumber(s.items[s.table[a.key]].value, n, a.after);
    DecimalParses(n);
  }

  /** A step that is no update of key, nor its expiry, leaves value and id of key alone. */
  lemma QuietStep(s: State, a: Action, key: Key)
    requires Inv(s) && Enabled(s, a) && TableOk(s) && key in s.table && !Updates(s, a, key) && a != Expire(key)
    ensures TableOk(Apply(s, a)) && key in Client(Apply(s, a)) && Client(Apply(s, a))[key] == Client(s)[key]
  {
    hide Inv, Apply, ReadNumber, NewText;
    StepRefines(s, a);
  }

  /** If the step is an update of key, it is an incr or decr. */
  ghost predicate DeltaAtMost(s: State, a: Action, key: Key) {
    TableOk(s) && a != Expire(key) && (Updates(s, a, key) ==> a.Delta?)
  }

  /** Between i and j only incr and decr take effect on key. */
  ghost predicate OnlyDeltas(states: seq<State>, actions: seq<Action>, i: nat, j: nat, key: Key)
    requires j <= |actions| < |states|
  {
    forall m {:trigger actions[m]} :: i <= m < j ==> DeltaAtMost(states[m], actions[m], key)
  }

  /** n after the effective incr and decr commands of key between i and j. */
  ghost function Count(states: seq<State>, actions: seq<Action>, i: nat, j: nat, key: Key, n: nat): nat
    requires i <= j <= |actions| < |states| && OnlyDeltas(states, actions, i, j, key)
    decreases j
  {
    if i == j then n
    else
      var before, a := Count(states, actions, i, j - 1, key, n), actions[j - 1];
      if Updates(states[j - 1], a, key) then Adjusted(before, a.incr, a.delta) else before
  }

  ghost predicate CounterShows(s: State, key: Key, n: nat) {
    TableOk(s) && key in s.table && Shows(Client(s)[key].0, n)
  }

  lemma CounterStep(s: State, a: Action, key: Key, n: nat)
    requires Inv(s) && Enabled(s, a) && CounterShows(s, key, n) && DeltaAtMost(s, a, key)
    ensures CounterShows(Apply(s, a), key, if Updates(s, a, key) then Adjusted(n, a.incr, a.delta) else n)
    ensures Updates(s, a, key) ==> n < U64 && a.delta < U64 && Counted(n, a.incr, a.delta, Adjusted(n, a.incr, a.delta))
  {
    ShownBelow(s, key, n);
    hide Inv, Apply, ReadNumber, Adjusted, Shows;
    if Updates(s, a, key) {
      var m := DeltaReadsBack(s, a, "");
      CounterRefused(s, a, n);
    } else {
      QuietStep(s, a, key);
    }
  }

  /**
    Counters count, over every run and whatever other connections do meanwhile: a
    key that shows n, and on which only incr and decr take effect, shows n after
    exactly those commands, in their order.
   */
  lemma {:induction false} CountersCount(states: seq<State>, actions: seq<Action>, i: nat, j: nat, key: Key, n: nat)
    requires IsRun(states, actions) && i <= j < |states| && OnlyDeltas(states, actions, i, j, key)
    requires CounterShows(states[i], key, n)
    ensures CounterShows(states[j], key, Count(states, actions, i, j, key, n))
    decreases j
  {
    hide Step, Inv, Apply, DeltaAtMost, CounterShows;
    if i < j {
      CountersCount(states, actions, i, j - 1, key, n);
      RunStep(states, actions, j - 1);
      CounterStep(states[j - 1], actions[j - 1], key, Count(states, actions, i, j - 1, key, n));
    }
  }

  /** What the effective incr and decr commands of key between i and j add up to. */
  ghost function Net(states: seq<State>, actions: seq<Action>, i: nat, j: nat, key: Key): int
    requires i <= j <= |actions| < |states| && OnlyDeltas(states, actions, i, j, key)
    decreases j
  {
    if i == j then 0
    else
      var before, a := Net(states, actions, i, j - 1, key), actions[j - 1];
      if !Updates(states[j - 1], a, key) then before
      else if a.incr then before + a.delta
      else before - a.delta
  }

  /** The counter stays between 0 and 2^64 all the way from i to j. */
  ghost predicate NeverWraps(states: seq<State>, actions: seq<Action>, i: nat, j: nat, key: Key, n: nat)
    requires i <= j <= |actions| < |states| && OnlyDeltas(states, actions, i, j, key)
  {
    forall m :: i <= m <= j ==> 0 <= n + Net(states, actions, i, m, key) < U64
  }

  /**
    As long as nothing wraps or stops at zero, increments and decrements cancel: the
    key shows n plus all that was added less all that was taken away, in any order
    and whatever other connections do.
   */
  lemma {:induction false} CountersAdd(states: seq<State>, actions: seq<Action>, i: nat, j: nat, key: Key, n: nat)
    requires IsRun(states, actions) && i <= j < |states| && OnlyDeltas(states, actions, i, j, key)
    requires CounterShows(states[i], key, n) && NeverWraps(states, actions, i, j, key, n)
    ensures CounterShows(states[j], key, n + Net(states, actions, i, j, key))
    decreases j
  {
    hide Step, Inv, Apply, DeltaAtMost, CounterShows, Updates, Adjusted;
    if i < j {
      assert 0 <= n + Net(states, actions, i, j - 1, key) && 0 <= n + Net(states, actions, i, j, key) < U64;
      CountersAdd(states, actions, i, j - 1, key, n);
      RunStep(states, actions, j - 1);
      CounterStep(states[j - 1], actions[j - 1], key, n + Net(states, actions, i, j - 1, key));
    }
  }

  /** An incr by d, later a decr by d, and nothing else in between: the old number is back. */
  lemma IncrThenDecr(states: seq<State>, actions: seq<Action>, i: nat, j: nat, key: Key, n: nat)
    requires IsRun(states, actions) && i < j < |actions| && CounterShows(states[i], key, n)
    requires OnlyDeltas(states, actions, i, j + 1, key)
    requires actions[i].Delta? && actions[i].incr && Updates(states[i], actions[i], key)
    requires actions[j].Delta? && !actions[j].incr && Updates(states[j], actions[j], key)
    requires actions[j].delta == actions[i].delta && n + actions[i].delta < U64
    requires forall m {:trigger actions[m]} :: i < m < j ==> !Updates(states[m], actions[m], key)
    ensures CounterShows(states[j + 1], key, n)
  {
    hide Step, Updates;
    forall m | i < m <= j
      ensures OnlyDeltas(states, actions, i, m, key) && Net(states, actions, i, m, key) == actions[i].delta
    {
      NetStays(states, actions, i, m, j, key);
    }
    ShownBelow(states[i], key, n);
    assert Net(states, actions, i, i, key) == 0;
    assert Net(states, actions, i, j + 1, key) == Net(states, actions, i, j, key) - actions[j].delta;
    CountersAdd(states, actions, i, j + 1, key, n);
  }

  lemma {:induction false} NetStays(states: seq<State>, actions: seq<Action>, i: nat, m: nat, j: nat, key: Key)
    requires i < m <= j < |actions| < |states| && OnlyDeltas(states, actions, i, j + 1, key)
    requires actions[i].Delta? && actions[i].incr && TableOk(states[i]) && Updates(states[i], actions[i], key)
    requires forall k {:trigger actions[k]} :: i < k < j ==> DeltaAtMost(states[k], actions[k], key)
    requires forall k {:trigger actions[k]} :: i < k < j ==> !Updates(states[k], actions[k], key)
    ensures Net(states, actions, i, m, key) == actions[i].delta
    decreases m
  {
    hide Updates;
    if i + 1 < m {
      NetStays(states, actions, i, m - 1, j, key);
      assert !Updates(states[m - 1], actions[m - 1], key);
    } else {
      assert Net(states, actions, i, i, key) == 0;
    }
  }

  lemma ShownBelow(s: State, key: Key, n: nat)
    requires CounterShows(s, key, n)
    ensures n < U64
  {}
}
