/**
  bipbuffer.c: a two-region byte queue. Region A is read from its start; when
  the space before it is larger than the space after it, writes switch to region
  B at the bottom of the array.
 */
module BipbufferSpec {

  type byte = bv8

  const UINT: nat := 0x1_0000_0000

  /** The conversion of an unsigned value to int on return from bipbuf_unused. */
  function ToInt(x: nat): int {
    var y := x % UINT;
    if y < UINT / 2 then y else y - UINT
  }

  datatype Bip = Bip(data: seq<byte>, aStart: nat, aEnd: nat, bEnd: nat, bInuse: bool) {

    predicate Valid() {
      && |data| < UINT
      && bEnd <= aStart <= aEnd <= |data|
      && (!bInuse ==> bEnd == 0)
      && (aStart == aEnd ==> aStart == 0 && !bInuse)
    }

    function Contents(): seq<byte>
      requires Valid()
    {
      data[aStart..aEnd] + data[..bEnd]
    }

    predicate Empty() {
      aStart == aEnd
    }

    /** Free space ahead of the write position, before the conversion to int. */
    function Room(): int {
      if bInuse then aStart - bEnd else |data| - aEnd
    }

    function Unused(): int
      requires Valid()
    {
      ToInt(Room())
    }

    function WritePos(): nat {
      if bInuse then bEnd else aEnd
    }

    /** The space before region A, in unsigned arithmetic. */
    function Before(): int {
      if bEnd <= aStart then aStart - bEnd else aStart - bEnd + UINT
    }

    /** __check_for_switch_to_b. */
    function Switched(): Bip {
      if |data| - aEnd < Before() then this.(bInuse := true) else this
    }

    /** The test for a switch would find nothing to do. */
    predicate Settled() {
      bInuse || Before() <= |data| - aEnd
    }

    /** bipbuf_push of n bytes that the caller already wrote at the write position. */
    function Pushed(n: nat): Bip {
      (if bInuse then this.(bEnd := bEnd + n) else this.(aEnd := aEnd + n)).Switched()
    }

    /** The caller's write through the pointer that bipbuf_request returned, or the memcpy of bipbuf_offer. */
    function Filled(bytes: seq<byte>): Bip
      requires WritePos() + |bytes| <= |data|
    {
      this.(data := data[..WritePos()] + bytes + data[WritePos() + |bytes|..])
    }

    predicate PollRefused(n: nat) {
      Empty() || |data| < (aStart + n) % UINT
    }

    /** bipbuf_poll when it does not refuse. */
    function Polled(n: nat): Bip {
      var start := (aStart + n) % UINT;
      (if start != aEnd then this.(aStart := start)
       else if bInuse then this.(aStart := 0, aEnd := bEnd, bEnd := 0, bInuse := false)
       else this.(aStart := 0, aEnd := 0)).Switched()
    }
  }

  lemma ToIntBounds(x: nat)
    requires x < UINT
    ensures ToInt(x) <= x
    ensures ToInt(x) >= 0 ==> ToInt(x) == x
  {}

  /** An accepted request leaves that much room in front of the write position. */
  lemma AcceptedFits(b: Bip, n: nat)
    requires b.Valid() && b.Unused() >= n
    ensures b.Room() == b.Unused() && b.WritePos() + n <= |b.data|
    ensures b.bInuse ==> b.bEnd + n <= b.aStart
  {
    ToIntBounds(b.Room());
  }

  /** Writing in front of the write position touches nothing that is queued. */
  lemma FillKeepsContents(b: Bip, bytes: seq<byte>)
    requires b.Valid() && b.Unused() >= |bytes|
    ensures b.WritePos() + |bytes| <= |b.data|
    ensures b.Filled(bytes).Valid() && b.Filled(bytes).Contents() == b.Contents()
    ensures b.Filled(bytes).WritePos() == b.WritePos() && b.Filled(bytes).Unused() == b.Unused()
    ensures b.Filled(bytes).data[b.WritePos()..b.WritePos() + |bytes|] == bytes
    ensures b.Filled(bytes).data[b.aStart..b.aEnd] == b.data[b.aStart..b.aEnd]
  {
    AcceptedFits(b, |bytes|);
    var f := b.Filled(bytes);
    assert f.data[b.aStart..b.aEnd] == b.data[b.aStart..b.aEnd];
    assert f.data[..b.bEnd] == b.data[..b.bEnd];
  }

  /** A switch of regions leaves the queue and its place alone. */
  lemma SwitchKeeps(b: Bip)
    requires b.Valid()
    ensures var t := b.Switched();
      t.Valid() && t.Contents() == b.Contents() && t.data == b.data && t.aStart == b.aStart && t.aEnd == b.aEnd
  {}

  /** A push appends what was written at the write position, whether or not the switch to region B fires. */
  lemma PushAppends(b: Bip, n: nat)
    requires b.Valid() && b.Unused() >= n
    ensures b.WritePos() + n <= |b.data|
    ensures b.Pushed(n).Valid()
    ensures b.Pushed(n).Contents() == b.Contents() + b.data[b.WritePos()..b.WritePos() + n]
    ensures b.Pushed(n).data == b.data && b.Pushed(n).aStart == b.aStart && b.Pushed(n).aEnd >= b.aEnd
  {
    hide Bip.Switched, Bip.Unused;
    AcceptedFits(b, n);
    if b.bInuse {
      assert b.data[..b.bEnd + n] == b.data[..b.bEnd] + b.data[b.bEnd..b.bEnd + n];
      SwitchKeeps(b.(bEnd := b.bEnd + n));
    } else {
      assert b.data[b.aStart..b.aEnd + n] == b.data[b.aStart..b.aEnd] + b.data[b.aEnd..b.aEnd + n];
      SwitchKeeps(b.(aEnd := b.aEnd + n));
    }
  }

  /** Reserving room, writing into it and committing the first n bytes appends those n bytes. */
  lemma FillPushAppends(b: Bip, bytes: seq<byte>, n: nat)
    requires b.Valid() && b.Unused() >= |bytes| && n <= |bytes|
    ensures b.WritePos() + |bytes| <= |b.data|
    ensures b.Filled(bytes).Pushed(n).Valid()
    ensures b.Filled(bytes).Pushed(n).Contents() == b.Contents() + bytes[..n]
    ensures b.Filled(bytes).Pushed(n).aStart == b.aStart && b.Filled(bytes).Pushed(n).aEnd >= b.aEnd
    ensures b.Filled(bytes).Pushed(n).data[b.aStart..b.aEnd] == b.data[b.aStart..b.aEnd]
  {
    FillKeepsContents(b, bytes);
    PushAppends(b.Filled(bytes), n);
    FilledPrefix(b.Filled(bytes).data, b.WritePos(), bytes, n);
  }

  lemma FilledPrefix(data: seq<byte>, pos: nat, bytes: seq<byte>, n: nat)
    requires n <= |bytes| && pos + |bytes| <= |data| && data[pos..pos + |bytes|] == bytes
    ensures data[pos..pos + n] == bytes[..n]
  {
    assert data[pos..pos + n] == data[pos..pos + |bytes|][..n];
  }

  /** Polling at most what region A holds removes exactly those bytes from the front. */
  lemma PollRemoves(b: Bip, n: nat)
    requires b.Valid() && !b.Empty() && n <= b.aEnd - b.aStart
    ensures !b.PollRefused(n)
    ensures b.Polled(n).Valid()
    ensures b.Contents() == b.data[b.aStart..b.aStart + n] + b.Polled(n).Contents()
    ensures b.Polled(n).data == b.data
  {
    assert (b.aStart + n) % UINT == b.aStart + n;
    if b.aStart + n == b.aEnd {
      PollAll(b);
    } else {
      PollSome(b, n);
    }
  }

  /** Region A is used up; region B, if there is one, takes its place. */
  lemma PollAll(b: Bip)
    requires b.Valid() && !b.Empty()
    ensures var t := (if b.bInuse then b.(aStart := 0, aEnd := b.bEnd, bEnd := 0, bInuse := false)
      else b.(aStart := 0, aEnd := 0)).Switched();
      t.Valid() && b.Contents() == b.data[b.aStart..b.aEnd] + t.Contents() && t.data == b.data
  {
    assert b.data[0..b.bEnd] == b.data[..b.bEnd];
    assert !b.bInuse ==> b.data[..b.bEnd] == [];
  }

  lemma PollSome(b: Bip, n: nat)
    requires b.Valid() && !b.Empty() && b.aStart + n < b.aEnd
    ensures var t := b.(aStart := b.aStart + n).Switched();
      t.Valid() && b.Contents() == b.data[b.aStart..b.aStart + n] + t.Contents() && t.data == b.data
  {
    assert b.data[b.aStart..b.aEnd] == b.data[b.aStart..b.aStart + n] + b.data[b.aStart + n..b.aEnd];
  }

  /**
    The guard of bipbuf_poll looks at the end of the array, not of region A: an
    accepted poll is sound exactly up to region A.
   */
  lemma PollSoundIff(b: Bip, n: nat)
    requires b.Valid() && !b.Empty() && n < UINT && !b.PollRefused(n)
    ensures (b.Polled(n).Valid() && |b.Polled(n).Contents()| + n == |b.Contents()|) <==> n <= b.aEnd - b.aStart
  {
    if n <= b.aEnd - b.aStart {
      PollRemoves(b, n);
    } else if b.aStart + n >= UINT {
      assert (b.aStart + n) % UINT == b.aStart + n - UINT;
    } else {
      assert (b.aStart + n) % UINT == b.aStart + n;
    }
  }

  /** Two queued bytes, a poll of three: accepted, and the read cursor passes the end of region A. */
  lemma OverlongPollBreaks()
    ensures var b := Bip([1, 2, 0, 0], 0, 2, 0, false);
      b.Valid() && !b.PollRefused(3) && !b.Polled(3).Valid()
  {}

  /** The room in front of the write position once m more bytes are pushed: a push into region A may switch to B. */
  function RoomAfter(b: Bip, m: nat): int {
    if b.bInuse then b.aStart - b.bEnd - m
    else if |b.data| - b.aEnd - m < b.aStart then b.aStart
    else |b.data| - b.aEnd - m
  }

  /**
    A request of n and some slack was accepted and at most the slack was pushed.
    The n bytes are still there, whether or not the push switched regions, and an
    offer of them is accepted exactly when the room does not read as negative.
   */
  lemma RequestThenOffer(b: Bip, n: nat, slack: nat, m: nat)
    requires b.Valid() && b.Unused() >= n + slack && m <= slack
    ensures b.Pushed(m).Valid() && b.Pushed(m).Room() == RoomAfter(b, m) >= n
    ensures b.Pushed(m).Unused() >= n <==> RoomAfter(b, m) < UINT / 2
    ensures RoomAfter(b, m) < UINT / 2 <==> b.bInuse || b.aStart <= |b.data| - b.aEnd - m || b.aStart < UINT / 2
  {
    hide Bip.Pushed, Bip.Contents, Bip.Switched, Bip.Before;
    AcceptedFits(b, n + slack);
    PushAppends(b, m);
    RoomAfterPush(b, n + slack, m);
  }

  lemma RoomAfterPush(b: Bip, n: nat, m: nat)
    requires b.Valid() && b.Unused() >= n && m <= n
    ensures b.Pushed(m).Room() == RoomAfter(b, m)
  {
    AcceptedFits(b, n);
  }

  /**
    A buffer of 2^31 + 2 bytes: the request of one byte is accepted, the push of
    nothing switches regions, the offer of one byte is refused.
   */
  lemma OfferRefusedAfterRequest()
    ensures var b := Bip(seq(UINT / 2 + 2, _ => 0), UINT / 2, UINT / 2 + 1, 0, false);
      b.Valid() && b.Unused() >= 1 && b.Pushed(0).Valid() && b.Pushed(0).Unused() < 1
  {}

  /**
    Every call that moves a cursor ends with the test for a switch, and a settled
    buffer of any size keeps the promise of a request.
   */
  lemma SettledRequestThenOffer(b: Bip, n: nat, slack: nat, m: nat)
    requires b.Valid() && b.Settled() && b.Unused() >= n + slack && m <= slack
    ensures b.Pushed(m).Valid() && b.Pushed(m).Settled() && b.Pushed(m).Unused() >= n
  {
    AcceptedFits(b, n + slack);
    RequestThenOffer(b, n, slack, m);
  }

  // ----- runs -----

  /** One producer or consumer call; a Poll follows a PeekAll and takes at most what it saw. */
  datatype Op = Offer(bytes: seq<byte>) | RequestPush(bytes: seq<byte>, n: nat) | Poll(n: nat)

  /** A pushed record that is still queued: where it lies and what it holds. */
  datatype Rec = Rec(pos: nat, bytes: seq<byte>)

  datatype Run = Run(b: Bip, put: seq<byte>, taken: seq<byte>, recs: set<Rec>)

  predicate Accepts(r: Run, op: Op)
    requires r.b.Valid()
  {
    match op
    case Offer(bytes) => true
    case RequestPush(bytes, n) => n <= |bytes|
    case Poll(n) => !r.b.Empty() && n <= r.b.aEnd - r.b.aStart
  }

  /** Write bytes at the write position, then push the first n of them. */
  function PushedState(r: Run, bytes: seq<byte>, n: nat): Run
    requires r.b.WritePos() + |bytes| <= |r.b.data| && n <= |bytes|
  {
    Run(r.b.Filled(bytes).Pushed(n), r.put + bytes[..n], r.taken, r.recs + Record(r.b.WritePos(), bytes[..n]))
  }

  function Next(r: Run, op: Op): Run
    requires r.b.Valid() && Accepts(r, op)
  {
    match op
    case Offer(bytes) =>
      if r.b.Unused() < |bytes| then r
      else
        AcceptedFits(r.b, |bytes|);
        PushedState(r, bytes, |bytes|)
    case RequestPush(bytes, n) =>
      if r.b.Unused() < |bytes| then r
      else
        AcceptedFits(r.b, |bytes|);
        PushedState(r, bytes, n)
    case Poll(n) =>
      Run(r.b.Polled(n), r.put, r.taken + r.b.data[r.b.aStart..r.b.aStart + n],
          set rec | rec in r.recs && !(r.b.aStart <= rec.pos < r.b.aStart + n))
  }

  function Record(pos: nat, bytes: seq<byte>): set<Rec> {
    if bytes == [] then {} else {Rec(pos, bytes)}
  }

  /** A record lies whole inside one region, with its bytes intact. */
  predicate RecordWhole(b: Bip, rec: Rec) {
    && rec.bytes != []
    && rec.pos + |rec.bytes| <= |b.data|
    && b.data[rec.pos..rec.pos + |rec.bytes|] == rec.bytes
    && ((b.aStart <= rec.pos && rec.pos + |rec.bytes| <= b.aEnd) || rec.pos + |rec.bytes| <= b.bEnd)
  }

  predicate RunOk(r: Run) {
    && r.b.Valid()
    && r.put == r.taken + r.b.Contents()
    && forall rec :: rec in r.recs ==> RecordWhole(r.b, rec)
  }

  lemma RecordAfterPush(b: Bip, bytes: seq<byte>, n: nat, rec: Rec)
    requires b.Valid() && b.Unused() >= |bytes| && n <= |bytes| && b.WritePos() + |bytes| <= |b.data|
    requires RecordWhole(b, rec) || (rec == Rec(b.WritePos(), bytes[..n]) && n > 0)
    ensures RecordWhole(b.Filled(bytes).Pushed(n), rec)
  {
    AcceptedFits(b, |bytes|);
    var f := b.Filled(bytes);
    if RecordWhole(b, rec) {
      assert f.data[rec.pos..rec.pos + |rec.bytes|] == b.data[rec.pos..rec.pos + |rec.bytes|];
    } else {
      assert f.data[rec.pos..rec.pos + n] == bytes[..n];
    }
  }

  lemma RecordAfterPoll(b: Bip, n: nat, rec: Rec)
    requires b.Valid() && !b.Empty() && n <= b.aEnd - b.aStart
    requires RecordWhole(b, rec) && !(b.aStart <= rec.pos < b.aStart + n)
    ensures RecordWhole(b.Polled(n), rec)
  {
    assert (b.aStart + n) % UINT == b.aStart + n;
  }

  lemma PushStep(r: Run, bytes: seq<byte>, n: nat)
    requires RunOk(r) && n <= |bytes| && r.b.Unused() >= |bytes|
    ensures r.b.WritePos() + |bytes| <= |r.b.data|
    ensures RunOk(PushedState(r, bytes, n))
  {
    hide RecordWhole;
    FillPushAppends(r.b, bytes, n);
    var t := PushedState(r, bytes, n);
    assert t.put == t.taken + t.b.Contents() by {
      assert r.taken + r.b.Contents() + bytes[..n] == r.taken + (r.b.Contents() + bytes[..n]);
    }
    forall rec | rec in t.recs
      ensures RecordWhole(t.b, rec)
    {
      RecordAfterPush(r.b, bytes, n, rec);
    }
  }

  lemma PollStep(r: Run, n: nat)
    requires RunOk(r) && Accepts(r, Poll(n))
    ensures RunOk(Next(r, Poll(n)))
  {
    hide RecordWhole, Bip.Contents, Bip.Polled;
    PollRemoves(r.b, n);
    var t := Next(r, Poll(n));
    var front := r.b.data[r.b.aStart..r.b.aStart + n];
    assert r.taken + (front + t.b.Contents()) == r.taken + front + t.b.Contents();
    forall rec | rec in t.recs
      ensures RecordWhole(t.b, rec)
    {
      RecordAfterPoll(r.b, n, rec);
    }
  }

  /** Every call keeps the queue first-in first-out and every queued record whole. */
  lemma StepOk(r: Run, op: Op)
    requires RunOk(r) && Accepts(r, op)
    ensures RunOk(Next(r, op))
  {
    match op
    case Offer(bytes) =>
      if r.b.Unused() >= |bytes| {
        PushStep(r, bytes, |bytes|);
      }
    case RequestPush(bytes, n) =>
      if r.b.Unused() >= |bytes| {
        PushStep(r, bytes, n);
      }
    case Poll(n) =>
      PollStep(r, n);
  }

  ghost predicate IsRun(runs: seq<Run>, ops: seq<Op>) {
    && |runs| == |ops| + 1
    && RunOk(runs[0])
    && forall i :: 0 <= i < |ops| ==>
         runs[i].b.Valid() && Accepts(runs[i], ops[i]) && runs[i + 1] == Next(runs[i], ops[i])
  }

  /** Over every run: what was put in is what was taken out followed by what is queued, and no record is torn. */
  lemma {:induction false} RunIsFifo(runs: seq<Run>, ops: seq<Op>, i: nat)
    requires IsRun(runs, ops) && i < |runs|
    ensures RunOk(runs[i])
    decreases i
  {
    if i > 0 {
      RunIsFifo(runs, ops, i - 1);
      StepOk(runs[i - 1], ops[i - 1]);
    }
  }

  lemma {:induction false} RunSettled(runs: seq<Run>, ops: seq<Op>, i: nat)
    requires IsRun(runs, ops) && runs[0].b.Settled() && i < |runs|
    ensures runs[i].b.Settled()
    decreases i
  {
    if i > 0 {
      RunSettled(runs, ops, i - 1);
    }
  }

  /**
    In every run of a buffer that starts empty, whatever its size, the offer after
    an accepted request and a shorter push is accepted.
   */
  lemma RunRequestThenOffer(runs: seq<Run>, ops: seq<Op>, i: nat, n: nat, slack: nat, m: nat)
    requires IsRun(runs, ops) && runs[0].b.Settled() && i < |runs|
    requires runs[i].b.Valid() && runs[i].b.Unused() >= n + slack && m <= slack
    ensures runs[i].b.Pushed(m).Valid() && runs[i].b.Pushed(m).Unused() >= n
  {
    RunSettled(runs, ops, i);
    SettledRequestThenOffer(runs[i].b, n, slack, m);
  }

  lemma ProducerKeepsPeeked(r: Run, op: Op)
    requires RunOk(r) && Accepts(r, op) && !op.Poll?
    ensures var a, z := r.b, Next(r, op).b;
      z.Valid() && z.aStart == a.aStart && a.aEnd <= z.aEnd && z.data[a.aStart..a.aEnd] == a.data[a.aStart..a.aEnd]
  {
    if r.b.Unused() >= |op.bytes| {
      FillPushAppends(r.b, op.bytes, if op.Offer? then |op.bytes| else op.n);
    }
  }

  /**
    While only the producer acts, the bytes seen by peek_all stay where and what
    they are, so a later poll takes them.
   */
  lemma {:induction false} PeekedBytesStay(runs: seq<Run>, ops: seq<Op>, i: nat, j: nat)
    requires IsRun(runs, ops) && i <= j < |runs|
    requires forall k :: i <= k < j ==> !ops[k].Poll?
    ensures var a, z := runs[i].b, runs[j].b;
      a.Valid() && z.Valid() && z.aStart == a.aStart && a.aEnd <= z.aEnd
      && z.data[z.aStart..a.aEnd] == a.data[a.aStart..a.aEnd]
    decreases j
  {
    hide RunOk, Next, Accepts;
    RunIsFifo(runs, ops, i);
    RunOkValid(runs[i]);
    if i < j {
      PeekedBytesStay(runs, ops, i, j - 1);
      RunIsFifo(runs, ops, j - 1);
      ProducerKeepsPeeked(runs[j - 1], ops[j - 1]);
      PrefixOfEqual(runs[j].b.data, runs[j - 1].b.data, runs[i].b.aStart, runs[i].b.aEnd, runs[j - 1].b.aEnd);
    }
  }

  lemma RunOkValid(r: Run)
    requires RunOk(r)
    ensures r.b.Valid()
  {}

  lemma PrefixOfEqual(x: seq<byte>, y: seq<byte>, lo: nat, mid: nat, hi: nat)
    requires lo <= mid <= hi <= |x| && hi <= |y| && x[lo..hi] == y[lo..hi]
    ensures x[lo..mid] == y[lo..mid]
  {
    assert x[lo..mid] == x[lo..hi][..mid - lo];
    assert y[lo..mid] == y[lo..hi][..mid - lo];
  }
}

module Bipbuffer {
  import opened BipbufferSpec

  datatype Option<T> = None | Some(value: T)

  lemma FrontFits(v: Bip, n: nat)
    requires v.Valid() && n <= v.aEnd - v.aStart
    ensures v.aStart + n <= |v.data|
  {}

  class BipBuf {
    const data: array<byte>
    var aStart: nat
    var aEnd: nat
    var bEnd: nat
    var bInuse: bool

    ghost function View(): Bip
      reads this, data
    {
      Bip(data[..], aStart, aEnd, bEnd, bInuse)
    }

    /** bipbuf_new. */
    constructor (size: nat)
      requires size < UINT
      ensures View().Valid() && View().Settled() && View().Contents() == [] && data.Length == size && fresh(data)
    {
      data := new byte[size];
      aStart, aEnd, bEnd, bInuse := 0, 0, 0, false;
    }

    /** bipbuf_unused. */
    method Unused() returns (n: int)
      requires View().Valid()
      ensures n == View().Unused()
    {
      if bInuse {
        n := ToInt(aStart - bEnd);
      } else {
        n := ToInt(data.Length - aEnd);
      }
    }

    method CheckForSwitchToB()
      modifies this`bInuse
      ensures View() == old(View()).Switched()
    {
      var before := aStart - bEnd;
      if before < 0 {
        before := before + UINT;
      }
      if data.Length - aEnd < before {
        bInuse := true;
      }
    }

    /** bipbuf_request: the position handed to the caller, if n bytes fit there. */
    method Request(n: nat) returns (at: Option<nat>)
      requires View().Valid()
      ensures at == if View().Unused() >= n then Some(View().WritePos()) else None
      ensures at.Some? ==> at.value + n <= data.Length
      ensures var gap := if bInuse then aStart - bEnd else data.Length - aEnd; at.Some? <==> n <= gap < UINT / 2
      ensures at.Some? ==> at.value == if bInuse then bEnd else aEnd
    {
      var room := Unused();
      if room < n {
        return None;
      }
      AcceptedFits(View(), n);
      return Some(if bInuse then bEnd else aEnd);
    }

    /** bipbuf_push. */
    method Push(n: nat) returns (done: nat)
      requires View().Valid()
      modifies this
      ensures View().Valid()
      ensures if old(View()).Unused() >= n
              then done == n && View() == old(View()).Pushed(n)
                && View().Contents() == old(View()).Contents() + old(data[View().WritePos()..View().WritePos() + n])
              else done == 0 && View() == old(View())
      ensures old(View()).Unused() >= n ==> (bInuse <==> old(bInuse) || data.Length - aEnd < aStart - bEnd)
    {
      var room := Unused();
      if room < n {
        return 0;
      }
      ghost var v := View();
      AcceptedFits(v, n);
      PushAppends(v, n);
      hide Bip.Contents, Bip.Unused, Bip.Pushed;
      Advance(n);
      return n;
    }

    /** bipbuf_offer: appends the bytes or leaves the queue as it was. */
    method Offer(bytes: seq<byte>) returns (done: nat)
      requires View().Valid()
      modifies this, data
      ensures View().Valid()
      ensures if old(View()).Unused() >= |bytes|
              then done == |bytes| && View().Contents() == old(View()).Contents() + bytes
              else done == 0 && View() == old(View())
    {
      hide Bip.Contents, Bip.Unused, Bip.Pushed, Bip.Valid, Bip.Switched, Bip.Before;
      var room := Unused();
      if room < |bytes| {
        return 0;
      }
      ghost var v := View();
      AcceptedFits(v, |bytes|);
      FillPushAppends(v, bytes, |bytes|);
      assert bytes[..|bytes|] == bytes;
      Copy(if bInuse then bEnd else aEnd, bytes);
      ghost var f := v.Filled(bytes);
      assert View() == f;
      Advance(|bytes|);
      return |bytes|;
    }

    method Copy(pos: nat, bytes: seq<byte>)
      requires pos + |bytes| <= data.Length
      modifies data
      ensures data[..] == old(data[..pos]) + bytes + old(data[pos + |bytes|..])
    {
      ghost var was := data[..];
      for i := 0 to |bytes|
        invariant forall k :: 0 <= k < data.Length ==> data[k] == if pos <= k < pos + i then bytes[k - pos] else was[k]
      {
        data[pos + i] := bytes[i];
      }
    }

    /** Moves the write cursor of the region in use, then looks for a switch of regions. */
    method Advance(n: nat)
      modifies this
      ensures View() == old(View()).Pushed(n)
    {
      if bInuse {
        bEnd := bEnd + n;
      } else {
        aEnd := aEnd + n;
      }
      CheckForSwitchToB();
    }

    /** bipbuf_peek_all: all of region A. */
    method PeekAll() returns (bytes: Option<seq<byte>>)
      requires View().Valid()
      ensures bytes.None? <==> View().Contents() == []
      ensures bytes.Some? ==> bytes.value != [] && bytes.value <= View().Contents()
      ensures bytes.Some? ==> bytes.value == View().data[aStart..aEnd]
    {
      if aStart == aEnd {
        return None;
      }
      return Some(data[aStart..aEnd]);
    }

    /** bipbuf_poll: where the caller finds the bytes. Up to the size of region A they are the front of the queue. */
    method Poll(n: nat) returns (at: Option<nat>)
      requires View().Valid() && n < UINT
      modifies this
      ensures at.None? <==> old(View()).PollRefused(n)
      ensures at.None? ==> View() == old(View())
      ensures at.Some? ==> View() == old(View()).Polled(n)
      ensures at.Some? && n <= old(aEnd - aStart) ==>
        && View().Valid() && at.value + n <= data.Length
        && old(View()).Contents() == data[at.value..at.value + n] + View().Contents()
    {
      hide Bip.Contents, Bip.Valid, Bip.Switched, Bip.Before;
      ghost var v := View();
      if aStart == aEnd {
        return None;
      }
      if data.Length < (aStart + n) % UINT {
        return None;
      }
      at := Some(aStart);
      if n <= aEnd - aStart {
        PollRemoves(v, n);
        FrontFits(v, n);
      }
      aStart := (aStart + n) % UINT;
      if aStart == aEnd {
        if bInuse {
          aStart := 0;
          aEnd := bEnd;
          bEnd, bInuse := 0, false;
        } else {
          aStart, aEnd := 0, 0;
        }
      }
      CheckForSwitchToB();
      assert View() == v.Polled(n);
    }
  }
}
