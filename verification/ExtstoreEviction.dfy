/** extstore.c: which page the maintenance thread evicts, and what the counts of a page mean. */
module ExtstoreEviction {
  import opened ExtstoreTypes
  import opened ExtstoreSteps
  import opened ExtstoreInvariant
  import opened ExtstoreProofs
  import opened ExtstoreContents

  // ----- the page to evict -----

  /** The scan meets an open page with objects. */
  predicate Candidate(s: State, a: Action) {
    && a.MaintVisit? && s.maint.Scanning? && s.maint.next < |s.pages|
    && var pg := s.pages[s.maint.next]; !pg.free && pg.objCount > 0 && !pg.closed
  }

  /** The scan meets a page that can be freed: nobody reads it, and it is closed or has no objects. */
  predicate Reclaims(s: State, a: Action) {
    && a.MaintVisit? && s.maint.Scanning? && s.maint.next < |s.pages|
    && var pg := s.pages[s.maint.next]; !pg.free && pg.refcount == 0 && (pg.closed || pg.objCount == 0)
  }

  /** The version of the page that the scan meets. */
  function Met(s: State): nat
    requires s.maint.Scanning? && s.maint.next < |s.pages|
  {
    s.pages[s.maint.next].version
  }

  // ----- what a scan that began with step w knows at state j -----

  ghost predicate Scanned(states: seq<State>, actions: seq<Action>, w: nat, j: nat) {
    w < j <= |actions| < |states| && states[j].maint.Scanning?
  }

  /** The thread wants to evict if no page was free when it woke up, and none was freed since. */
  ghost predicate WantsToEvict(states: seq<State>, actions: seq<Action>, w: nat, j: nat)
    requires Scanned(states, actions, w, j)
  {
    states[j].maint.doEvict <==>
      && states[w].pageFree == 0
      && forall k {:trigger actions[k]} :: w < k < j ==> !Reclaims(states[k], actions[k])
  }

  /** It remembers the version of a candidate if it met one, and none it met had a lower version. */
  ghost predicate RemembersOldest(states: seq<State>, actions: seq<Action>, w: nat, j: nat)
    requires Scanned(states, actions, w, j)
  {
    var m := states[j].maint;
    && (m.low.Some? ==> exists k {:trigger actions[k]} :: w < k < j && Remembered(states[k], actions[k], m))
    && (forall k {:trigger actions[k]} :: w < k < j && Candidate(states[k], actions[k]) ==>
          m.low.Some? && m.lowVersion <= Met(states[k]))
  }

  predicate Remembered(s: State, a: Action, m: Maint) {
    Candidate(s, a) && m.Scanning? && m.low == Some(s.maint.next) && m.lowVersion == Met(s)
  }

  /** Page p has had its turn. */
  ghost predicate Seen(states: seq<State>, actions: seq<Action>, w: nat, j: nat, p: nat)
    requires j <= |actions| < |states|
  {
    exists k {:trigger actions[k]} ::
      w < k < j && actions[k].MaintLook? && states[k].maint.Scanning? && states[k].maint.next == p
  }

  ghost predicate SeenAll(states: seq<State>, actions: seq<Action>, w: nat, j: nat)
    requires Scanned(states, actions, w, j)
  {
    && (forall p :: 0 <= p < states[j].maint.next ==> Seen(states, actions, w, j, p))
    && (states[j].maint.looking ==> Seen(states, actions, w, j, states[j].maint.next))
  }

  // ----- the steps of the scan -----

  lemma MaintStays(s: State, a: Action)
    requires Enabled(s, a) && Asserts(s, a) && !a.MaintWake? && !a.MaintLook? && !a.MaintVisit? && !a.MaintEvict?
    ensures Apply(s, a).maint == s.maint
  {
    hide Saturating, Splice;
  }

  lemma VisitKnows(s: State)
    requires Enabled(s, MaintVisit) && Asserts(s, MaintVisit)
    ensures var t, m, a := Apply(s, MaintVisit), s.maint, MaintVisit;
      && t.maint.Scanning? && t.maint.next == m.next + 1 && !t.maint.looking
      && (t.maint.doEvict <==> m.doEvict && !Reclaims(s, a))
      && |t.pages| == |s.pages| && (t.pages[m.next].free <==> s.pages[m.next].free || Reclaims(s, a))
      && (if Candidate(s, a) && (m.low.None? || Met(s) < m.lowVersion) then Remembered(s, a, t.maint)
          else t.maint.low == m.low && t.maint.lowVersion == m.lowVersion)
  {
    hide RemoveFrom;
  }

  lemma SeenOn(states: seq<State>, actions: seq<Action>, w: nat, j: nat, p: nat)
    requires j < |actions| < |states|
    ensures Seen(states, actions, w, j, p) ==> Seen(states, actions, w, j + 1, p)
    ensures w < j && actions[j].MaintLook? && states[j].maint.Scanning? && states[j].maint.next == p ==>
      Seen(states, actions, w, j + 1, p)
  {}

  lemma ScanSees(states: seq<State>, actions: seq<Action>, w: nat, j: nat)
    requires Scanned(states, actions, w, j) && SeenAll(states, actions, w, j) && Scanned(states, actions, w, j + 1)
    requires var m, n := states[j].maint, states[j + 1].maint;
      || (n.next == m.next && n.looking == m.looking)
      || (actions[j].MaintLook? && n.next <= m.next + 1 && !(n.next == m.next + 1 && n.looking))
      || (m.looking && n.next == m.next + 1 && !n.looking)
    ensures SeenAll(states, actions, w, j + 1)
  {
    hide Seen;
    SeenOn(states, actions, w, j, states[j].maint.next);
    var next := j + 1;
    forall p: nat | p < states[j].maint.next
      ensures Seen(states, actions, w, next, p)
    {
      SeenOn(states, actions, w, j, p);
    }
  }

  lemma ScanRemembers(states: seq<State>, actions: seq<Action>, w: nat, j: nat)
    requires Scanned(states, actions, w, j) && Scanned(states, actions, w, j + 1)
    requires RemembersOldest(states, actions, w, j)
    requires var s, a, m, n := states[j], actions[j], states[j].maint, states[j + 1].maint;
      if Candidate(s, a) && (m.low.None? || Met(s) < m.lowVersion) then Remembered(s, a, n)
      else n.low == m.low && n.lowVersion == m.lowVersion
    ensures RemembersOldest(states, actions, w, j + 1)
  {
    var s, a, m, n := states[j], actions[j], states[j].maint, states[j + 1].maint;
    if Candidate(s, a) && (m.low.None? || Met(s) < m.lowVersion) {
      assert w < j < j + 1 && Remembered(states[j], actions[j], n);
    } else if n.low.Some? {
      var k :| w < k < j && Remembered(states[k], actions[k], m);
      assert w < k < j + 1 && Remembered(states[k], actions[k], n) && actions[k] == actions[k];
    }
  }

  /** One more step of a scan. */
  lemma ScanStep(cfg: Config, states: seq<State>, actions: seq<Action>, w: nat, j: nat)
    requires IsRun(cfg, states, actions) && Scanned(states, actions, w, j) && j < |actions| && !actions[j].MaintEvict?
    requires WantsToEvict(states, actions, w, j) && RemembersOldest(states, actions, w, j)
    requires SeenAll(states, actions, w, j)
    ensures Scanned(states, actions, w, j + 1) && WantsToEvict(states, actions, w, j + 1)
    ensures RemembersOldest(states, actions, w, j + 1) && SeenAll(states, actions, w, j + 1)
  {
    hide Init, Apply, Asserts, Candidate, Reclaims, Met, Locked, RemembersOldest, SeenAll, Remembered;
    var s, a := states[j], actions[j];
    assert Step(s, a, states[j + 1]);
    if a.MaintVisit? {
      VisitKnows(s);
    } else {
      QuietStep(s, a);
    }
    ScanSees(states, actions, w, j);
    ScanRemembers(states, actions, w, j);
  }

  lemma QuietStep(s: State, a: Action)
    requires Enabled(s, a) && Asserts(s, a) && s.maint.Scanning? && !a.MaintVisit? && !a.MaintEvict?
    ensures var t := Apply(s, a);
      && t.maint.Scanning? && t.maint.doEvict == s.maint.doEvict && t.maint.low == s.maint.low
      && t.maint.lowVersion == s.maint.lowVersion
      && (if a.MaintLook? then
            && !s.maint.looking
            && (t.maint == s.maint.(next := s.maint.next + 1) || t.maint == s.maint.(looking := true))
          else t.maint == s.maint)
      && !Candidate(s, a) && !Reclaims(s, a)
  {
    hide Locked;
    if !a.MaintLook? {
      MaintStays(s, a);
    }
  }

  /** From the step that wakes the thread to state j it is in one scan. */
  ghost predicate OneScan(states: seq<State>, actions: seq<Action>, w: nat, j: nat) {
    && w < j <= |actions| < |states| && actions[w].MaintWake?
    && forall k {:trigger actions[k]} :: w < k < j ==> !actions[k].MaintEvict?
  }

  lemma {:induction false} ScanKnows(cfg: Config, states: seq<State>, actions: seq<Action>, w: nat, j: nat)
    requires IsRun(cfg, states, actions) && OneScan(states, actions, w, j)
    ensures Scanned(states, actions, w, j) && WantsToEvict(states, actions, w, j)
    ensures RemembersOldest(states, actions, w, j) && SeenAll(states, actions, w, j)
    decreases j
  {
    hide Init, Asserts, Candidate, Reclaims, Met, Locked;
    if j == w + 1 {
      assert Step(states[w], actions[w], states[j]);
    } else {
      ScanKnows(cfg, states, actions, w, j - 1);
      ScanStep(cfg, states, actions, w, j - 1);
    }
  }

  /**
    What is evicted at the end of a scan. Every page has had its turn. The thread
    evicts exactly if no page was free when it woke up, none could be freed, and it
    met an open page with objects. The page it evicts is one it met like that, and of
    all those it is the one with the lowest version, which is the oldest.
   */
  lemma EvictsOldest(cfg: Config, states: seq<State>, actions: seq<Action>, w: nat, e: nat)
    requires IsRun(cfg, states, actions) && OneScan(states, actions, w, e) && e < |actions| && actions[e].MaintEvict?
    ensures Scanned(states, actions, w, e)
    ensures WantsToEvict(states, actions, w, e) && RemembersOldest(states, actions, w, e)
    ensures forall p :: 0 <= p < |states[e].pages| ==> Seen(states, actions, w, e, p)
    ensures var m, t := states[e].maint, states[e + 1];
      && t.maint.Sleeping?
      && (m.doEvict && m.low.Some? ==>
            && m.low.value < |t.pages| == |states[e].pages|
            && (t.pages[m.low.value].closed || t.pages[m.low.value].free)
            && (t.pages[m.low.value].free <==>
                  !states[e].pages[m.low.value].closed && states[e].pages[m.low.value].refcount == 0)
            && forall p :: 0 <= p < |t.pages| && p != m.low.value ==> t.pages[p] == states[e].pages[p])
      && (!(m.doEvict && m.low.Some?) ==> t.pages == states[e].pages)
  {
    hide Init, Apply, Asserts, WantsToEvict, RemembersOldest, Seen, Locked, Inv;
    ScanKnows(cfg, states, actions, w, e);
    RunInv(cfg, states, actions, e);
    assert Step(states[e], actions[e], states[e + 1]);
    EvictEffect(states[e]);
  }

  lemma EvictEffect(s: State)
    requires Inv(s) && Enabled(s, MaintEvict) && Asserts(s, MaintEvict)
    ensures var m, t := s.maint, Apply(s, MaintEvict);
      && t.maint.Sleeping?
      && (m.doEvict && m.low.Some? ==>
            && m.low.value < |t.pages| == |s.pages| && (t.pages[m.low.value].closed || t.pages[m.low.value].free)
            && (t.pages[m.low.value].free <==> !s.pages[m.low.value].closed && s.pages[m.low.value].refcount == 0)
            && forall p :: 0 <= p < |t.pages| && p != m.low.value ==> t.pages[p] == s.pages[p])
      && (!(m.doEvict && m.low.Some?) ==> t.pages == s.pages)
  {
    hide Inv, Locked, RemoveFrom;
    if s.maint.low.Some? {
      LowFacts(s);
    }
  }

  // ----- the objects of a page -----

  /** The step writes a record to page p. */
  predicate Writes(s: State, a: Action, p: nat) {
    a.Commit? && a.b < |s.writers| && s.writers[a.b].Holding? && s.writers[a.b].page == p
  }

  /** The step deletes from page p, as it is now. */
  predicate Deletes(s: State, a: Action, p: nat) {
    a.Delete? && a.p == p < |s.pages| && !s.pages[p].closed && s.pages[p].version == a.version
  }

  /** In state s, page p is in use under version v. */
  predicate Serves(s: State, p: nat, v: nat) {
    p < |s.pages| && !s.pages[p].free && s.pages[p].version == v
  }

  /** The counts of the page change as the step says. */
  ghost predicate Counted(s: State, a: Action, p: nat, qg: Page)
    requires p < |s.pages|
  {
    var pg := s.pages[p];
    && (Writes(s, a, p) ==> qg.objCount == pg.objCount + 1 && qg.bytesUsed == pg.bytesUsed + |a.bytes|)
    && (Deletes(s, a, p) ==>
          && (if a.count <= pg.objCount then qg.objCount + a.count == pg.objCount else qg.objCount == 0)
          && (if a.nbytes <= pg.bytesUsed then qg.bytesUsed + a.nbytes == pg.bytesUsed else qg.bytesUsed == 0))
    && (!Writes(s, a, p) && !Deletes(s, a, p) ==> qg.objCount == pg.objCount && qg.bytesUsed == pg.bytesUsed)
  }

  lemma AllocateCounts(s: State, a: Action, p: nat)
    requires Inv(s) && Enabled(s, a) && Asserts(s, a) && (a.Pick? || a.Retry?) && p < |s.pages|
    ensures |Apply(s, a).pages| == |s.pages| && Counted(s, a, p, Apply(s, a).pages[p])
  {
    hide Inv;
  }

  lemma CheckCounts(s: State, a: Action, p: nat)
    requires Enabled(s, a) && Asserts(s, a) && a.Check? && p < |s.pages|
    ensures |Apply(s, a).pages| == |s.pages| && Counted(s, a, p, Apply(s, a).pages[p])
  {
    hide Locked;
  }

  lemma ScanCounts(s: State, a: Action, p: nat)
    requires Enabled(s, a) && Asserts(s, a) && (a.MaintVisit? || a.MaintEvict?) && p < |s.pages|
    ensures |Apply(s, a).pages| == |s.pages|
    ensures Apply(s, a).pages[p].free || Counted(s, a, p, Apply(s, a).pages[p])
  {
    hide Locked, RemoveFrom;
  }

  lemma OtherCounts(s: State, a: Action, p: nat)
    requires Enabled(s, a) && Asserts(s, a) && p < |s.pages|
    requires !a.Pick? && !a.Retry? && !a.Check? && !a.MaintVisit? && !a.MaintEvict? && !a.Commit? && !a.Delete?
    ensures |Apply(s, a).pages| == |s.pages| && Counted(s, a, p, Apply(s, a).pages[p])
  {
    hide Locked, Splice;
  }

  lemma RecordCounts(s: State, a: Action, p: nat)
    requires Enabled(s, a) && Asserts(s, a) && p < |s.pages| && (a.Commit? || a.Delete?)
    ensures |Apply(s, a).pages| == |s.pages| && Counted(s, a, p, Apply(s, a).pages[p])
  {
    hide Locked;
  }

  lemma ObjectsStep(s: State, a: Action, p: nat, v: nat)
    requires Inv(s) && Enabled(s, a) && Asserts(s, a) && Serves(s, p, v) && Serves(Apply(s, a), p, v)
    ensures Counted(s, a, p, Apply(s, a).pages[p])
  {
    hide Inv, Enabled, Asserts, Apply, Counted;
    if a.Pick? || a.Retry? {
      AllocateCounts(s, a, p);
    } else if a.Check? {
      CheckCounts(s, a, p);
    } else if a.MaintVisit? || a.MaintEvict? {
      ScanCounts(s, a, p);
    } else if a.Commit? || a.Delete? {
      RecordCounts(s, a, p);
    } else {
      OtherCounts(s, a, p);
    }
  }

  /** How many records were written to page p between i and j. */
  ghost function Written(states: seq<State>, actions: seq<Action>, i: nat, j: nat, p: nat): nat
    requires i <= j <= |actions| < |states|
    decreases j
  {
    if i == j then 0
    else Written(states, actions, i, j - 1, p) + if Writes(states[j - 1], actions[j - 1], p) then 1 else 0
  }

  /** How many were deleted from it. */
  ghost function Deleted(states: seq<State>, actions: seq<Action>, i: nat, j: nat, p: nat): nat
    requires i <= j <= |actions| < |states|
    decreases j
  {
    if i == j then 0
    else
      Deleted(states, actions, i, j - 1, p)
      + if Deletes(states[j - 1], actions[j - 1], p) then actions[j - 1].count else 0
  }

  /** From i to j, page p is in use under version v, and nobody deletes more objects than it has. */
  ghost predicate FairUse(states: seq<State>, actions: seq<Action>, i: nat, j: nat, p: nat, v: nat)
    requires i <= j <= |actions| < |states|
  {
    && (forall k :: i <= k <= j ==> Serves(states[k], p, v))
    && forall k {:trigger actions[k]} :: i <= k < j && Deletes(states[k], actions[k], p) ==>
         actions[k].count <= states[k].pages[p].objCount
  }

  /** In every run the object count of a page is what was written to it less what was deleted. */
  lemma {:induction false} ObjectsCounted(cfg: Config, states: seq<State>, actions: seq<Action>, i: nat, j: nat,
                                          p: nat, v: nat)
    requires IsRun(cfg, states, actions) && i <= j < |states| && FairUse(states, actions, i, j, p, v)
    ensures Serves(states[i], p, v) && Serves(states[j], p, v)
    ensures states[j].pages[p].objCount + Deleted(states, actions, i, j, p)
         == states[i].pages[p].objCount + Written(states, actions, i, j, p)
    decreases j
  {
    hide Init, Inv, Apply, Enabled, Asserts;
    assert Serves(states[i], p, v);
    if i < j {
      ObjectsCounted(cfg, states, actions, i, j - 1, p, v);
      RunInv(cfg, states, actions, j - 1);
      assert Step(states[j - 1], actions[j - 1], states[j]);
      assert Serves(states[j - 1], p, v) && Serves(states[j], p, v);
      ObjectsStep(states[j - 1], actions[j - 1], p, v);
    }
  }

  /** A page that comes into use has no objects. */
  lemma StartsEmpty(s: State, a: Action, p: nat)
    requires Inv(s) && Enabled(s, a) && Asserts(s, a) && (a.Pick? || a.Retry?) && p < |s.pages| && s.pages[p].free
    ensures |Apply(s, a).pages| == |s.pages| && Apply(s, a).pages[p].objCount == 0
  {
    hide Inv, Enabled, Asserts, Apply;
    AllocateCounts(s, a, p);
    FreeIsEmpty(s, p);
  }

  lemma FreeIsEmpty(s: State, p: nat)
    requires Inv(s) && p < |s.pages| && s.pages[p].free
    ensures s.pages[p].objCount == 0
  {
    hide ListsOk, TailsFull, WritersOk, PendingOk, StacksOk, LogOk, ReadersOk, MaintOk, DeliveredOk;
    assert PageOk(s.cfg, s.version, s.pages[p]);
  }
}
