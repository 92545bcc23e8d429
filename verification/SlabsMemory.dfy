/** slabs.c: what mem_malloced says about the pages there are, over every run. */
module SlabsMemory {
  import opened SlabsTypes
  import opened SlabsSteps
  import opened SlabsInvariant
  import opened SlabsPages
  import opened SlabsProofs
  import opened SlabsMoves
  import opened SlabsTheorems

  // ----- the history is the run's -----

  /** The step calls malloc for a new page of a class and gets nothing. */
  predicate Fails(cf: Config, s: State, a: Action) {
    a.Grow? && !a.memory && 1 <= a.c < |s.pages| && !OverLimit(cf, s, a.c) && s.pages[0] == []
  }

  /** The same, for a class without pages, which the limit does not hold back. */
  predicate FailsBare(cf: Config, s: State, a: Action) {
    Fails(cf, s, a) && s.pages[a.c] == []
  }

  /** How often malloc failed in the first k steps. */
  function Failed(cf: Config, states: seq<State>, actions: seq<Action>, k: nat): nat
    requires k <= |actions| < |states|
  {
    if k == 0 then 0 else Failed(cf, states, actions, k - 1) + if Fails(cf, states[k - 1], actions[k - 1]) then 1 else 0
  }

  function FailedBare(cf: Config, states: seq<State>, actions: seq<Action>, k: nat): nat
    requires k <= |actions| < |states|
  {
    if k == 0 then 0
    else FailedBare(cf, states, actions, k - 1) + if FailsBare(cf, states[k - 1], actions[k - 1]) then 1 else 0
  }

  lemma {:induction false} AllocOutsideHistory(s: State, c: nat, page: Page, size: nat, n: nat)
    requires c < |s.free| == |s.requested|
    ensures AllocOutside(s, c, page, size, n).0.failed == s.failed
    decreases n
  {
    if n > 0 && s.free[c] != [] && s.free[c][0].page == page {
      var a := s.free[c][0];
      AllocOutsideHistory(s.(cells := s.cells[a := Cleared], free := s.free[c := s.free[c][1..]]), c, page, size,
        n - 1);
    }
  }

  lemma ExamineHistory(cf: Config, s: State, locked: bool, expired: bool)
    requires MoverReady(cf, s)
    ensures Examine(cf, s, locked, expired).failed == s.failed
  {
    hide AllocOutside, RescueSize;
    var at := Addr(s.mover.page, s.mover.pos);
    if InUse(s.cells[at]) {
      AllocOutsideHistory(Hold(s, Target(s, at)), s.mover.src, s.mover.page, RescueSize(cf, s, at),
        cf.perslab[s.mover.src]);
    }
  }

  lemma FreeItemHistory(s: State, a: Addr)
    requires CanFree(s, a)
    ensures FreeItem(s, a).failed == s.failed
  {}

  lemma LastHistory(s: State, a: Addr)
    requires IsItem(s, a)
    ensures FreeIfLast(s, a).failed == s.failed
  {
    hide FreeItem;
    if s.cells[a].refs == 0 && CanFree(s, a) {
      FreeItemHistory(s, a);
    }
  }

  lemma CompleteHistory(cf: Config, s: State)
    requires RescueReady(s) && s.mover.src < |cf.perslab|
    ensures Complete(cf, s).failed == s.failed
  {
    hide FreeItem, Repoint, Replaced;
    var r, t := s.mover.rescue, s.(mover := s.mover.(rescue := NoRescue));
    if r.to.None? {
      var u := Detach(t, r.it);
      assert forall p :: Known(t, p) ==> Known(u, p);
      FreeItemHistory(u, r.it);
      FreeItemMover(u, r.it);
    }
  }

  lemma {:induction false} ReleaseHistory(cf: Config, s: State)
    requires 0 < |s.pages|
    ensures Release(cf, s).failed == s.failed
    decreases |s.pages[0]|
  {
    if s.malloced > cf.limit && s.pages[0] != [] && s.malloced >= cf.pageSize {
      ReleaseHistory(cf, DropPool(s).(malloced := s.malloced - cf.pageSize));
    }
  }

  lemma FinishHistory(cf: Config, s: State)
    requires Enabled(cf, s, FinishMove)
    ensures Finish(cf, s).failed == s.failed
  {
    hide Release, FreshCells, FreshList;
    var m, t := s.mover, TakePage(s);
    if m.dst == 0 {
      ReleaseHistory(cf, PoolPage(t, m.page));
    }
  }

  lemma StepHistory(cf: Config, s: State, a: Action)
    requires Enabled(cf, s, a)
    ensures Apply(cf, s, a).failed.all == s.failed.all + if Fails(cf, s, a) then 1 else 0
    ensures Apply(cf, s, a).failed.bare == s.failed.bare + if FailsBare(cf, s, a) then 1 else 0
  {
    hide FreeIfLast, Examine, Complete, Finish, FreshCells, FreshList;
    match a
    case Grow(_, _) =>
    case Alloc(_, _) =>
    case Fill(_, _, _) =>
    case Attach(_, _, _) =>
    case Write(_, _) =>
    case LinkItem(_) =>
    case UnlinkItem(x) => LastHistory(Detach(s, x), x);
    case Get(_) =>
    case Remove(x) => LastHistory(SetCell(s, x, s.cells[x].(refs := s.cells[x].refs - 1)), x);
    case StartMove(_, _) =>
    case ExamineChunk(locked, expired) => ExamineHistory(cf, s, locked, expired);
    case CompleteRescue => CompleteHistory(cf, s);
    case FinishMove => FinishHistory(cf, s);
  }

  lemma {:induction false} RunHistory(cf: Config, states: seq<State>, actions: seq<Action>, k: nat)
    requires IsRun(cf, states, actions) && k < |states|
    ensures states[k].failed == Failures(Failed(cf, states, actions, k), FailedBare(cf, states, actions, k))
  {
    hide Inv, Apply, Enabled, Fails, FailsBare;
    if k > 0 {
      RunHistory(cf, states, actions, k - 1);
      RunStep(cf, states, actions, k - 1);
      StepHistory(cf, states[k - 1], actions[k - 1]);
    }
  }

  /** Some malloc failed among the first k steps exactly if the count is not zero. */
  lemma {:induction false} FailedOnce(cf: Config, states: seq<State>, actions: seq<Action>, k: nat)
    requires k <= |actions| < |states|
    ensures Failed(cf, states, actions, k) > 0 <==>
      exists j {:trigger actions[j]} :: 0 <= j < k && Fails(cf, states[j], actions[j])
  {
    hide Fails;
    if k > 0 {
      FailedOnce(cf, states, actions, k - 1);
      if Fails(cf, states[k - 1], actions[k - 1]) {
        assert actions[k - 1] == actions[k - 1];
      }
    }
  }

  // ----- the memory total -----

  lemma {:induction false} NonEmptyBound(pages: seq<seq<Page>>)
    requires pages != []
    ensures NonEmpty(pages) <= |pages| - 1
  {
    if |pages| > 1 {
      NonEmptyBound(pages[..|pages| - 1]);
    }
  }

  lemma MulMono(a: nat, b: nat, c: nat)
    requires b <= c
    ensures a * b <= a * c
  {}

  lemma MulSame(a: nat, b: nat, c: nat)
    requires a > 0
    ensures a * b == a * c <==> b == c
  {
    if b < c {
      MulMono(a, b + 1, c);
      MulAdd(a, b);
    } else if c < b {
      MulMono(a, c + 1, b);
      MulAdd(a, c);
    }
  }

  lemma InvMemory(cf: Config, s: State)
    requires Inv(cf, s)
    ensures MemoryOk(cf, s) && cf.pageSize > 0 && |s.pages| == |cf.perslab| && s.pages != []
  {
    hide PagesOk, CellsOk, FreeOk, MoverOk, CountsOk, Heap, MemoryOk;
  }

  /**
    In every run mem_malloced is the page size times all pages and all failed
    mallocs together. It is the size of the pages exactly as long as no malloc has
    failed.
   */
  lemma RunMemoryTotal(cf: Config, states: seq<State>, actions: seq<Action>, k: nat)
    requires IsRun(cf, states, actions) && k < |states|
    ensures states[k].malloced == cf.pageSize * (Total(states[k].pages) + Failed(cf, states, actions, k))
    ensures states[k].malloced == cf.pageSize * Total(states[k].pages)
      <==> !exists j {:trigger actions[j]} :: 0 <= j < k && Fails(cf, states[j], actions[j])
  {
    hide Inv, Total, Failed, Fails, Enabled, Apply;
    RunInv(cf, states, actions, k);
    InvMemory(cf, states[k]);
    RunHistory(cf, states, actions, k);
    FailedOnce(cf, states, actions, k);
    MulSame(cf.pageSize, Total(states[k].pages) + Failed(cf, states, actions, k), Total(states[k].pages));
  }

  /**
    In every run with a limit mem_malloced exceeds it by at most one page for each
    slab class that has a page, and one for each malloc that failed for a class
    without pages.
   */
  lemma RunMemoryBound(cf: Config, states: seq<State>, actions: seq<Action>, k: nat)
    requires IsRun(cf, states, actions) && k < |states| && cf.limit > 0
    ensures states[k].malloced
         <= cf.limit + cf.pageSize * (NonEmpty(states[k].pages) + FailedBare(cf, states, actions, k))
    ensures NonEmpty(states[k].pages) <= |cf.perslab| - 1
    ensures FailedBare(cf, states, actions, k) == 0 ==>
      states[k].malloced <= cf.limit + cf.pageSize * (|cf.perslab| - 1)
  {
    hide Inv, NonEmpty, Total, FailedBare, Enabled, Apply;
    RunInv(cf, states, actions, k);
    InvMemory(cf, states[k]);
    RunHistory(cf, states, actions, k);
    NonEmptyBound(states[k].pages);
    MulMono(cf.pageSize, NonEmpty(states[k].pages), |cf.perslab| - 1);
  }

  /** The page that memory_release gives back is always part of the total, so the total never underflows. */
  lemma ReleaseFits(cf: Config, s: State)
    requires Inv(cf, s) && s.pages[0] != []
    ensures s.malloced >= cf.pageSize
  {
    hide Inv;
    InvMemory(cf, s);
    MulMono(cf.pageSize, 1, Total(s.pages) + s.failed.all);
  }

  /**
    A class that has pages is refused another one because of all pages and failed
    mallocs together: from some point on, too early.
   */
  lemma RefusedIff(cf: Config, s: State, c: nat)
    requires Inv(cf, s) && 1 <= c < |s.pages| && s.pages[c] != [] && s.pages[0] == [] && cf.limit > 0
    ensures OverLimit(cf, s, c) <==> cf.pageSize * (Total(s.pages) + s.failed.all + 1) > cf.limit
  {
    hide Inv, Total;
    InvMemory(cf, s);
    MulAdd(cf.pageSize, Total(s.pages) + s.failed.all);
  }

  // ----- the failing run -----

  function Failing(cf: Config, n: nat): State {
    Init(cf).(malloced := cf.pageSize * n, failed := Failures(n, n))
  }

  lemma FailingStep(cf: Config, c: nat, n: nat)
    requires cf.Valid() && 1 <= c < |cf.perslab|
    ensures Enabled(cf, Failing(cf, n), Grow(c, false))
    ensures Apply(cf, Failing(cf, n), Grow(c, false)) == Failing(cf, n + 1)
    ensures Fails(cf, Failing(cf, n), Grow(c, false))
  {
    MulAdd(cf.pageSize, n);
  }

  /**
    For every configuration and every n: after n failed mallocs for a class without
    pages there is no page at all, and mem_malloced stands at n pages.
   */
  lemma FailedMallocsCount(cf: Config, c: nat, n: nat) returns (states: seq<State>, actions: seq<Action>)
    requires cf.Valid() && 1 <= c < |cf.perslab|
    ensures IsRun(cf, states, actions) && |actions| == n
    ensures states[n].malloced == cf.pageSize * n && Total(states[n].pages) == 0
  {
    hide Enabled, Apply, Fails;
    states, actions := seq(n + 1, i requires 0 <= i => Failing(cf, i)), seq(n, i => Grow(c, false));
    forall i | 0 <= i < n
      ensures Enabled(cf, states[i], actions[i]) && states[i + 1] == Apply(cf, states[i], actions[i])
    {
      FailingStep(cf, c, i);
    }
    NoPages(states[n].pages);
  }
}
