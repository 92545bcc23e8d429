/** The page mover gets on: passes end, a page is done when it should be, and a move that nobody disturbs ends. */
module SlabsProgress {
  import opened SlabsTypes
  import opened SlabsSteps
  import opened SlabsInvariant
  import opened SlabsBase
  import opened SlabsHeap
  import opened SlabsProofs
  import opened SlabsMoves
  import opened SlabsTheorems
  import opened LruSpec

  // ----- the visits of a pass -----

  /** The chunk at the cursor is in use, and its item is linked, not locked, and referenced by the table only. */
  predicate Movable(s: State, locked: bool) {
    && s.mover.Moving? && Addr(s.mover.page, s.mover.pos) in s.cells && InUse(s.cells[Addr(s.mover.page, s.mover.pos)])
    && var it := Target(s, Addr(s.mover.page, s.mover.pos));
       IsItem(s, it) && s.cells[it].linked && !locked && s.cells[it].refs == 1
  }

  /** The step ends the visit to a chunk: a look at it that begins no rescue, or the end of a rescue. */
  predicate EndsVisit(s: State, a: Action) {
    (a.ExamineChunk? && !Movable(s, a.locked)) || a.CompleteRescue?
  }

  /** A chunk is left behind uncleared: its item is locked, unlinked or held, or is given up. */
  predicate LeftBusy(s: State, a: Action) {
    && s.mover.Moving? && Addr(s.mover.page, s.mover.pos) in s.cells
    && match a
       case ExamineChunk(locked, _) => InUse(s.cells[Addr(s.mover.page, s.mover.pos)]) && !Movable(s, locked)
       case CompleteRescue => s.mover.rescue.Rescue? && s.mover.rescue.to.None?
       case _ => false
  }

  ghost predicate SameMove(s: State, t: State) {
    && s.mover.Moving? && t.mover.Moving?
    && t.mover.src == s.mover.src && t.mover.dst == s.mover.dst && t.mover.page == s.mover.page
  }

  /** The cursor after a visit. */
  ghost predicate Visited(cf: Config, s: State, t: State, busy: bool) {
    && SameMove(s, t) && s.mover.src < |cf.perslab| && t.mover.rescue.NoRescue?
    && var n, b := s.mover.pos + 1, s.mover.busy + if busy then 1 else 0;
       if n < cf.perslab[s.mover.src] then !t.mover.done && t.mover.pos == n && t.mover.busy == b
       else if b == 0 then t.mover.done
       else !t.mover.done && t.mover.pos == 0 && t.mover.busy == 0
  }

  lemma AdvanceVisits(cf: Config, s: State, u: State, busy: bool)
    requires u.mover.Moving? && u.mover.src < |cf.perslab| && !u.mover.done && u.mover.rescue.NoRescue?
    requires s.mover.Moving? && u.mover == s.mover.(rescue := NoRescue)
    ensures Visited(cf, s, Advance(cf, u, busy), busy)
  {}

  /** A look at a chunk ends the visit, or begins a rescue with the cursor where it is. */
  ghost predicate Looked(cf: Config, s: State, t: State, locked: bool, expired: bool) {
    var a := ExamineChunk(locked, expired);
    if EndsVisit(s, a) then Visited(cf, s, t, LeftBusy(s, a))
    else
      && s.mover.Moving? && t.mover.Moving? && t.mover.rescue.Rescue?
      && t.mover == s.mover.(rescue := t.mover.rescue)
  }

  lemma ExamineVisits(cf: Config, s: State, locked: bool, expired: bool)
    requires Inv(cf, s) && MoverReady(cf, s)
    ensures Looked(cf, s, Examine(cf, s, locked, expired), locked, expired)
  {
    hide Inv, AllocOutside, Advance, Visited, RescueSize;
    var at := Addr(s.mover.page, s.mover.pos);
    if !InUse(s.cells[at]) {
      AdvanceVisits(cf, s, if s.cells[at].Free? then Clear(s, at) else s, false);
    } else if !Movable(s, locked) {
      AdvanceVisits(cf, s, s, true);
    }
  }

  lemma CompleteVisits(cf: Config, s: State)
    requires Inv(cf, s) && RescueReady(s)
    ensures s.mover.src < |cf.perslab| && Visited(cf, s, Complete(cf, s), s.mover.rescue.to.None?)
  {
    hide Inv, FreeItem, MoveItem, MovePart, Advance, Visited;
    var r, t := s.mover.rescue, s.(mover := s.mover.(rescue := NoRescue));
    RescueFacts(cf, s);
    if r.to.None? {
      var u := Detach(t, r.it);
      assert forall p :: Known(t, p) ==> Known(u, p);
      FreeItemMover(u, r.it);
      AdvanceVisits(cf, s, DropItem(t, r.it), true);
    } else {
      var u := Uncharge(t, r.to.value);
      if r.part.None? {
        MoveItemMover(u, r.it, r.to.value);
        AdvanceVisits(cf, s, MoveItem(u, r.it, r.to.value), false);
      } else {
        MovePartMover(u, r.it, r.part.value, r.to.value);
        AdvanceVisits(cf, s, MovePart(u, r.it, r.part.value, r.to.value), false);
      }
    }
  }

  lemma MovePartMover(s: State, it: Addr, part: Addr, to: Addr)
    requires IsItem(s, it) && part in s.cells && s.cells[part].Part?
    ensures MovePart(s, it, part, to).mover == s.mover
  {}

  /** Every step during a move either ends a visit or leaves the cursor and the count of busy chunks alone. */
  lemma StepVisits(cf: Config, s: State, a: Action)
    requires Inv(cf, s) && Enabled(cf, s, a) && s.mover.Moving? && !s.mover.done
    ensures var t := Apply(cf, s, a);
      if EndsVisit(s, a) then Visited(cf, s, t, LeftBusy(s, a))
      else t.mover.Moving? && t.mover == s.mover.(rescue := t.mover.rescue) && !LeftBusy(s, a)
  {
    hide Inv, Visited, Examine, Complete, Finish, MoverReady, RescueReady;
    match a
    case ExamineChunk(locked, expired) => ExamineVisits(cf, s, locked, expired);
    case CompleteRescue =>
      CompleteVisits(cf, s);
      RescueIsThere(s);
      RescueFacts(cf, s);
    case _ => WorkerKeepsMover(cf, s, a);
  }

  lemma RescueIsThere(s: State)
    requires RescueReady(s)
    ensures s.mover.Moving? && s.mover.rescue.Rescue?
  {}

  /** do_item_get takes a reference, so the mover passes over the item and all its chunks until that is given back. */
  lemma FetchedStays(cf: Config, s: State, key: Key, locked: bool)
    requires Inv(cf, s) && Enabled(cf, s, Get(key))
    ensures var t, it := Apply(cf, s, Get(key)), s.table[key];
      && IsItem(t, it) && t.cells[it].refs == s.cells[it].refs + 1 > 1 && t.table == s.table
      && (Movable(t, locked) ==> Target(t, Addr(t.mover.page, t.mover.pos)) != it)
  {
    hide Base, ItemsOk, ChainOk, RescueOk;
  }

  // ----- passes in a run -----

  /** How many visits end between i and j. */
  ghost function Visits(states: seq<State>, actions: seq<Action>, i: nat, j: nat): nat
    requires i <= j <= |actions| < |states|
    decreases j
  {
    if i == j then 0
    else Visits(states, actions, i, j - 1) + if EndsVisit(states[j - 1], actions[j - 1]) then 1 else 0
  }

  /** How many of them leave a chunk behind uncleared. */
  ghost function BusyVisits(states: seq<State>, actions: seq<Action>, i: nat, j: nat): nat
    requires i <= j <= |actions| < |states|
    decreases j
  {
    if i == j then 0
    else BusyVisits(states, actions, i, j - 1) + if LeftBusy(states[j - 1], actions[j - 1]) then 1 else 0
  }

  /** A pass over the page begins: the cursor is at the first chunk, and nothing was busy yet. */
  predicate PassBegins(s: State) {
    s.mover.Moving? && !s.mover.done && s.mover.pos == 0 && s.mover.busy == 0
  }

  /** In every run, during a pass, the cursor has moved on by one for every visit and every busy chunk was counted. */
  lemma {:induction false} RunPass(cf: Config, states: seq<State>, actions: seq<Action>, i: nat, j: nat)
    requires IsRun(cf, states, actions) && i <= j < |states| && PassBegins(states[i])
    requires states[i].mover.src < |cf.perslab| && Visits(states, actions, i, j) < cf.perslab[states[i].mover.src]
    ensures SameMove(states[i], states[j]) && !states[j].mover.done
    ensures states[j].mover.pos == Visits(states, actions, i, j)
    ensures states[j].mover.busy == BusyVisits(states, actions, i, j)
    decreases j
  {
    hide Init, Inv, Apply, Enabled, EndsVisit, LeftBusy;
    if i < j {
      RunPass(cf, states, actions, i, j - 1);
      RunStep(cf, states, actions, j - 1);
      StepVisits(cf, states[j - 1], actions[j - 1]);
    }
  }

  /**
    A pass is over after exactly as many visits as the page has chunks. The page is
    done then if and only if no chunk of the pass was left behind; otherwise the next
    pass begins.
   */
  lemma PassEnds(cf: Config, states: seq<State>, actions: seq<Action>, i: nat, j: nat)
    requires IsRun(cf, states, actions) && i <= j < |actions| && PassBegins(states[i])
    requires states[i].mover.src < |cf.perslab| && EndsVisit(states[j], actions[j])
    requires Visits(states, actions, i, j + 1) == cf.perslab[states[i].mover.src]
    ensures SameMove(states[i], states[j + 1])
    ensures states[j + 1].mover.done <==> BusyVisits(states, actions, i, j + 1) == 0
    ensures !states[j + 1].mover.done ==> PassBegins(states[j + 1])
  {
    hide Init, Inv, Apply, Enabled, EndsVisit, LeftBusy;
    RunPass(cf, states, actions, i, j);
    RunStep(cf, states, actions, j);
    StepVisits(cf, states[j], actions[j]);
  }

  /** No item is met locked, unlinked or held, and none is given up. */
  ghost predicate NeverBusy(states: seq<State>, actions: seq<Action>, i: nat, j: nat)
    requires j <= |actions| < |states|
  {
    forall k {:trigger actions[k]} :: i <= k < j ==> !LeftBusy(states[k], actions[k])
  }

  /** A pass of that kind is the last one. */
  lemma CleanPassIsLast(cf: Config, states: seq<State>, actions: seq<Action>, i: nat, j: nat)
    requires IsRun(cf, states, actions) && i <= j < |actions| && PassBegins(states[i])
    requires states[i].mover.src < |cf.perslab| && EndsVisit(states[j], actions[j])
    requires Visits(states, actions, i, j + 1) == cf.perslab[states[i].mover.src]
    requires NeverBusy(states, actions, i, j + 1)
    ensures states[j + 1].mover.done
  {
    hide Init, Apply, Enabled, LeftBusy, EndsVisit, PassBegins;
    NoneBusy(states, actions, i, j + 1);
    PassEnds(cf, states, actions, i, j);
  }

  lemma {:induction false} NoneBusy(states: seq<State>, actions: seq<Action>, i: nat, j: nat)
    requires i <= j <= |actions| < |states| && NeverBusy(states, actions, i, j)
    ensures BusyVisits(states, actions, i, j) == 0
    decreases j
  {
    hide LeftBusy;
    if i < j {
      NoneBusy(states, actions, i, j - 1);
      assert !LeftBusy(states[j - 1], actions[j - 1]);
    }
  }

  // ----- a rescue clears its chunk -----

  /**
    An idle item with a free chunk of its class outside the page: whatever workers do
    between the two steps of its rescue, the visited chunk is cleared at the end and
    not counted as busy.
   */
  lemma RescueClears(cf: Config, states: seq<State>, actions: seq<Action>, k: nat, m: nat)
    requires IsRun(cf, states, actions) && k < m < |actions|
    requires actions[k] == ExamineChunk(false, false) && Movable(states[k], false) && !NoMemory(states[k])
    requires actions[m] == CompleteRescue && forall j {:trigger actions[j]} :: k < j < m ==> !MoverStep(actions[j])
    ensures IsCleared(states[m + 1], states[k].mover.page, states[k].mover.pos)
    ensures EndsVisit(states[m], actions[m]) && !LeftBusy(states[m], actions[m])
  {
    hide Init, Inv, Apply, Enabled, NoMemory, Movable;
    RunStep(cf, states, actions, k);
    RunStep(cf, states, actions, m);
    RescueOpens(cf, states[k]);
    MoverWaits(cf, states, actions, k + 1, m);
    CompleteEnabled(cf, states[m]);
    CompleteView(cf, states[m]);
  }

  lemma CompleteEnabled(cf: Config, s: State)
    requires Enabled(cf, s, CompleteRescue) && s.mover.Moving? && s.mover.src < |cf.perslab|
    ensures RescueReady(s) && Apply(cf, s, CompleteRescue) == Complete(cf, s)
  {}

  lemma RescueOpens(cf: Config, s: State)
    requires Inv(cf, s) && Enabled(cf, s, ExamineChunk(false, false)) && Movable(s, false) && !NoMemory(s)
    ensures var t := Apply(cf, s, ExamineChunk(false, false));
      && t.mover.Moving? && t.mover.src < |cf.perslab| && t.mover == s.mover.(rescue := t.mover.rescue)
      && t.mover.rescue.Rescue? && t.mover.rescue.to.Some?
  {
    hide Inv, Examine, NoMemory;
    ExamineVisits(cf, s, false, false);
    GivesUpIff(cf, s, false, false);
  }

  lemma {:induction false} MoverWaits(cf: Config, states: seq<State>, actions: seq<Action>, i: nat, j: nat)
    requires IsRun(cf, states, actions) && i <= j < |states|
    requires forall k {:trigger actions[k]} :: i <= k < j ==> !MoverStep(actions[k])
    ensures states[j].mover == states[i].mover
    decreases j
  {
    hide Init, Inv, Apply, Enabled;
    if i < j {
      MoverWaits(cf, states, actions, i, j - 1);
      RunStep(cf, states, actions, j - 1);
      WorkerKeepsMover(cf, states[j - 1], actions[j - 1]);
    }
  }
}
