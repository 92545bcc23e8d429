/** memcached.c: do_store_item and do_add_delta as they update memory. */
module CasServer {
  import opened Cas
  import opened CasTypes
  import opened Decimals
  import opened Strtoull

  /** No id that a client can see has yet to be drawn. */
  lemma ClientIds(s: State)
    requires Inv(s)
    ensures TableOk(s) && forall k :: k in Client(s) ==> Client(s)[k].1 <= s.casId
    ensures Client(s).Keys == s.table.Keys
  {}

  class Server {
    var items: map<Id, Item>
    var table: map<Key, Id>
    var held: multiset<Id>
    var casId: nat

    ghost function View(): State
      reads this
    {
      State(items, table, held, casId)
    }

    constructor ()
      ensures View() == INIT
    {
      items, table, held, casId := map[], map[], multiset{}, 0;
    }

    /** get_cas_id */
    method GetCasId() returns (id: nat)
      modifies `casId
      ensures id == casId == old(casId) + 1
    {
      casId := casId + 1;
      return casId;
    }

    /** do_item_unlink: leaves the table, and is freed if nobody holds it. */
    method ItemUnlink(key: Key)
      requires TableOk(View()) && key in table
      modifies `items, `table
      ensures View() == UnlinkKey(old(View()), key)
    {
      var it := table[key];
      table := table - {key};
      if held[it] == 0 {
        items := items - {it};
      }
    }

    /** item_replace, or do_item_link when there is nothing to replace. */
    method ItemReplace(at: Id, key: Key, value: string, chunked: bool)
      requires TableOk(View()) && at !in items
      modifies this
      ensures View() == LinkItem(old(View()), at, key, value, chunked)
    {
      if key in table {
        ItemUnlink(key);
      }
      var id := GetCasId();
      items := items[at := Item(key, value, chunked, id)];
      table := table[key := at];
    }

    /**
      do_store_item: the reply is the one that the protocol's rules give for what
      clients see, and only a STORED changes that, for this key alone.
     */
    method StoreItem(comm: Command, key: Key, value: string, chunked: bool, cas: nat, room: bool, at: Id)
      returns (stored: Reply)
      requires Inv(View()) && at !in items
      modifies this
      ensures View() == Apply(old(View()), Store(comm, key, value, chunked, cas, room, at))
      ensures Inv(View()) && Client(View()) == Meant(old(View()), Store(comm, key, value, chunked, cas, room, at))
      ensures stored == Outcome(old(View()), Store(comm, key, value, chunked, cas, room, at))
      ensures stored != Stored ==> Client(View()) == old(Client(View()))
      ensures stored == Stored ==> key in Client(View()) && forall k :: k in old(Client(View())) ==>
        old(Client(View()))[k].1 < Client(View())[key].1
      ensures Replies(old(Client(View())), comm, key, cas, room, stored)
      ensures stored == Stored ==>
        && Client(View())[key].0 == Joined(old(Client(View())), comm, key, value)
        && Client(View()) == old(Client(View()))[key := Client(View())[key]]
    {
      ghost var s, a := View(), Store(comm, key, value, chunked, cas, room, at);
      StepKeeps(s, a);
      StepRefines(s, a);
      StoreReplies(s, a);
      ClientIds(s);
      hide Inv, LinkItem, Client, Replies, Joined;
      stored := Dispatch(comm, key, value, chunked, cas, room, at);
    }

    /** The branches of do_store_item. */
    method Dispatch(comm: Command, key: Key, value: string, chunked: bool, cas: nat, room: bool, at: Id)
      returns (stored: Reply)
      requires TableOk(View()) && at !in items
      modifies this
      ensures View() == Apply(old(View()), Store(comm, key, value, chunked, cas, room, at))
      ensures stored == Outcome(old(View()), Store(comm, key, value, chunked, cas, room, at))
    {
      var found := key in table;
      stored := NotStored;
      if found && comm == Add {
        return;
      }
      if !found && (comm == Replace || comm == Append || comm == Prepend) {
        return;
      }
      if comm == Command.Cas {
        if !found {
          stored := NotFound;
        } else if cas == items[table[key]].cas {
          ItemReplace(at, key, value, chunked);
          stored := Stored;
        } else {
          stored := Exists;
        }
      } else {
        var failedAlloc, joined := false, value;
        if comm == Append || comm == Prepend {
          if cas != 0 && cas != items[table[key]].cas {
            stored := Exists;
          }
          if stored == NotStored {
            if !room {
              failedAlloc := true;
            } else if comm == Append {
              joined := items[table[key]].value + value;
            } else {
              joined := value + items[table[key]].value;
            }
          }
        }
        if stored == NotStored && !failedAlloc {
          ItemReplace(at, key, joined, chunked);
          stored := Stored;
        }
      }
    }

    /**
      do_add_delta, for a command without an id: the number it replies with is the
      old number plus or minus delta, and the value that the key then has shows it.
     */
    method AddDelta(key: Key, incr: bool, delta: nat, after: string, room: bool, at: Id) returns (reply: Option)
      requires Inv(View()) && at !in items && delta < U64
      modifies this
      ensures View() == Apply(old(View()), Delta(key, incr, delta, after, room, at))
      ensures Inv(View()) && Client(View()) == Meant(old(View()), Delta(key, incr, delta, after, room, at))
      ensures reply.Some? <==> Updates(old(View()), Delta(key, incr, delta, after, room, at), key)
      ensures reply.None? ==> Client(View()) == old(Client(View()))
      ensures reply.Some? ==>
        key in old(Client(View())) && key in Client(View()) && Shows(Client(View())[key].0, reply.value)
      ensures reply.Some? ==> Number(old(Client(View()))[key].0 + "\r\n" + after).Some?
      ensures reply.Some? ==>
        var n := Number(old(Client(View()))[key].0 + "\r\n" + after).value;
        if incr then reply.value < U64 && (reply.value == n + delta || reply.value + U64 == n + delta)
        else if delta <= n then reply.value + delta == n else reply.value == 0
      ensures reply.Some? <==>
        && old(key in table && items[table[key]].value != "" && !items[table[key]].chunked)
        && Number(old(Client(View()))[key].0 + "\r\n" + after).Some?
        && (room || old(held[table[key]] == 0 &&
              |NewText(View(), Delta(key, incr, delta, after, room, at))| <= |items[table[key]].value|))
    {
      ghost var s, a := View(), Delta(key, incr, delta, after, room, at);
      StepKeeps(s, a);
      StepRefines(s, a);
      DeltaTakesEffect(s, a);
      if Updates(s, a, key) {
        ghost var m := DeltaReadsBack(s, a, "");
      }
      hide Inv, LinkItem, Number, Shows, Adjusted, Spaces, NewText;
      reply := Adjust(key, incr, delta, after, room, at);
    }

    /** The branches of do_add_delta. */
    method Adjust(key: Key, incr: bool, delta: nat, after: string, room: bool, at: Id) returns (reply: Option)
      requires TableOk(View()) && at !in items && delta < U64
      modifies this
      ensures View() == Apply(old(View()), Delta(key, incr, delta, after, room, at))
      ensures reply.Some? <==> Updates(old(View()), Delta(key, incr, delta, after, room, at), key)
      ensures reply.Some? ==>
        && ReadNumber(old(View()), Delta(key, incr, delta, after, room, at)).Some?
        && reply.value == Adjusted(ReadNumber(old(View()), Delta(key, incr, delta, after, room, at)).value, incr, delta)
    {
      hide Number, Decimal, Adjusted, LinkItem, TableOk;
      TableFact(View(), key);
      if key !in table {
        return None;
      }
      var it := table[key];
      if |items[it].value| == 0 || items[it].chunked {
        held := held + multiset{it};
        return None;
      }
      var number := Number(items[it].value + "\r\n" + after);
      if number.None? {
        return None;
      }
      var n := Adjusted(number.value, incr, delta);
      var text := Decimal(n);
      if |text| <= |items[it].value| && held[it] == 0 {
        var id := GetCasId();
        items := items[it := items[it].(value := text + Spaces(|items[it].value| - |text|), cas := id)];
        return Some(n);
      }
      if !room {
        return None;
      }
      ItemReplace(at, key, text, false);
      if it in items {
        items := items[it := items[it].(cas := casId)];
      }
      return Some(n);
    }
  }
}
