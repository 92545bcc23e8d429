/**
  memcached.c: a response on a UDP connection is cut into datagrams. Buffers are
  collected as iovecs, message headers point into the iovec array, and each
  datagram starts with a slot that is filled with a header at the end.
 */
module UdpSpec {

  newtype byte = x: int | 0 <= x < 256

  const UDP_MAX_PAYLOAD_SIZE: nat := 1400
  const UDP_HEADER_SIZE: nat := 8
  const IOV_MAX: nat := 1024

  /** An iovec: the header slot, or bytes of a buffer. */
  datatype Iov = Slot | Bytes(data: seq<byte>)

  function Len(v: Iov): nat {
    if v.Slot? then UDP_HEADER_SIZE else |v.data|
  }

  function DataOf(v: Iov): seq<byte> {
    if v.Slot? then [] else v.data
  }

  function Total(d: seq<Iov>): nat {
    if d == [] then 0 else Total(d[..|d| - 1]) + Len(d[|d| - 1])
  }

  /** The bytes of a datagram after its header. */
  function Body(d: seq<Iov>): seq<byte> {
    if d == [] then [] else Body(d[..|d| - 1]) + DataOf(d[|d| - 1])
  }

  /** All bytes carried by a list of datagrams. */
  function Payload(ds: seq<seq<Iov>>): seq<byte> {
    if ds == [] then [] else Payload(ds[..|ds| - 1]) + Body(ds[|ds| - 1])
  }

  predicate IsDatagram(d: seq<Iov>) {
    && 1 <= |d| <= IOV_MAX
    && d[0].Slot?
    && (forall i :: 0 < i < |d| ==> d[i].Bytes?)
    && Total(d) <= UDP_MAX_PAYLOAD_SIZE
  }

  lemma Snoc(d: seq<Iov>, v: Iov)
    ensures Total(d + [v]) == Total(d) + Len(v)
    ensures Body(d + [v]) == Body(d) + DataOf(v)
  {
    assert (d + [v])[..|d + [v]| - 1] == d;
  }

  lemma PayloadSnoc(ds: seq<seq<Iov>>, d: seq<Iov>)
    ensures Payload(ds + [d]) == Payload(ds) + Body(d)
  {
    assert (ds + [d])[..|ds + [d]| - 1] == ds;
  }

  /** ds with v appended to its last datagram. */
  function Extend(ds: seq<seq<Iov>>, v: Iov): seq<seq<Iov>>
    requires ds != []
  {
    ds[..|ds| - 1] + [ds[|ds| - 1] + [v]]
  }

  lemma ExtendPayload(ds: seq<seq<Iov>>, v: Iov)
    requires ds != []
    ensures Payload(Extend(ds, v)) == Payload(ds) + DataOf(v)
  {
    var front, last := ds[..|ds| - 1], ds[|ds| - 1];
    assert ds == front + [last];
    PayloadSnoc(front, last);
    PayloadSnoc(front, last + [v]);
    Snoc(last, v);
  }

  /** Every datagram but the last is full: no byte more, or no iovec more, would have fit. */
  ghost predicate Packed(ds: seq<seq<Iov>>) {
    forall k :: 0 <= k < |ds| - 1 ==> Total(ds[k]) == UDP_MAX_PAYLOAD_SIZE || |ds[k]| == IOV_MAX
  }

  lemma PackedExtend(ds: seq<seq<Iov>>, v: Iov)
    requires ds != [] && Packed(ds)
    ensures Packed(Extend(ds, v))
  {}

  lemma PackedNew(ds: seq<seq<Iov>>, d: seq<Iov>)
    requires Packed(ds)
    requires ds != [] ==> Total(ds[|ds| - 1]) == UDP_MAX_PAYLOAD_SIZE || |ds[|ds| - 1]| == IOV_MAX
    ensures Packed(ds + [d])
  {}

  lemma NewDatagram(ds: seq<seq<Iov>>)
    ensures Payload(ds + [[Slot]]) == Payload(ds)
    ensures IsDatagram([Slot]) && Total([Slot]) == UDP_HEADER_SIZE
  {
    PayloadSnoc(ds, [Slot]);
    Snoc([], Slot);
    assert [] + [Slot] == [Slot];
  }

  // ----- headers and reassembly -----

  function HeaderOf(requestId: nat, i: nat, n: nat): seq<byte>
    requires requestId < 65536 && i < 65536 && n < 65536
  {
    [(requestId / 256) as byte, (requestId % 256) as byte, (i / 256) as byte, (i % 256) as byte,
     (n / 256) as byte, (n % 256) as byte, 0, 0]
  }

  function U16(hi: byte, lo: byte): nat {
    256 * (hi as nat) + lo as nat
  }

  /** Sequence number and count as a receiver reads them. */
  function SeqOf(w: seq<byte>): nat
    requires |w| >= UDP_HEADER_SIZE
  {
    U16(w[2], w[3])
  }

  /** The id of the request that is answered. */
  function RequestOf(w: seq<byte>): nat
    requires |w| >= UDP_HEADER_SIZE
  {
    U16(w[0], w[1])
  }

  function CountOf(w: seq<byte>): nat
    requires |w| >= UDP_HEADER_SIZE
  {
    U16(w[4], w[5])
  }

  /** The bytes sent for datagram i. */
  function Wire(requestId: nat, ds: seq<seq<Iov>>, i: nat): seq<byte>
    requires requestId < 65536 && i < |ds| < 65536
  {
    HeaderOf(requestId, i, |ds|) + Body(ds[i])
  }

  predicate IsWire(requestId: nat, ds: seq<seq<Iov>>, w: seq<byte>)
    requires requestId < 65536 && |ds| < 65536
  {
    exists i :: 0 <= i < |ds| && w == Wire(requestId, ds, i)
  }

  predicate Arrived(requestId: nat, ds: seq<seq<Iov>>, ws: seq<seq<byte>>)
    requires requestId < 65536 && 0 < |ds| < 65536
  {
    && (forall w :: w in ws ==> IsWire(requestId, ds, w))
    && (forall i :: 0 <= i < |ds| ==> Wire(requestId, ds, i) in ws)
  }

  /** The payload of the arrived datagram with sequence number i. */
  function PickBody(ws: seq<seq<byte>>, i: nat): seq<byte> {
    if ws == [] then []
    else if |ws[0]| >= UDP_HEADER_SIZE && SeqOf(ws[0]) == i then ws[0][UDP_HEADER_SIZE..]
    else PickBody(ws[1..], i)
  }

  /** What a client does: bodies in order of sequence number, as many as the header says. */
  function Reassemble(ws: seq<seq<byte>>, n: nat): seq<byte> {
    if n == 0 then [] else Reassemble(ws, n - 1) + PickBody(ws, n - 1)
  }

  lemma WireReads(requestId: nat, ds: seq<seq<Iov>>, i: nat)
    requires requestId < 65536 && i < |ds| < 65536
    ensures var w := Wire(requestId, ds, i);
      && |w| >= UDP_HEADER_SIZE && RequestOf(w) == requestId && SeqOf(w) == i && CountOf(w) == |ds|
      && w[6] == 0 && w[7] == 0 && w[UDP_HEADER_SIZE..] == Body(ds[i])
  {
    hide Body;
  }

  lemma {:induction false} PickIsBody(requestId: nat, ds: seq<seq<Iov>>, ws: seq<seq<byte>>, i: nat)
    requires requestId < 65536 && i < |ds| < 65536
    requires (forall w :: w in ws ==> IsWire(requestId, ds, w)) && Wire(requestId, ds, i) in ws
    ensures PickBody(ws, i) == Body(ds[i])
  {
    hide Wire, SeqOf, CountOf, Body;
    assert IsWire(requestId, ds, ws[0]);
    var j :| 0 <= j < |ds| && ws[0] == Wire(requestId, ds, j);
    WireReads(requestId, ds, j);
    WireReads(requestId, ds, i);
    if j != i {
      assert ws == [ws[0]] + ws[1..];
      PickIsBody(requestId, ds, ws[1..], i);
    }
  }

  lemma {:induction false} ReassemblePrefix(requestId: nat, ds: seq<seq<Iov>>, ws: seq<seq<byte>>, n: nat)
    requires requestId < 65536 && n <= |ds| && 0 < |ds| < 65536 && Arrived(requestId, ds, ws)
    ensures Reassemble(ws, n) == Payload(ds[..n])
    decreases n
  {
    hide Wire, Body, IsWire, PickBody;
    if n > 0 {
      ReassemblePrefix(requestId, ds, ws, n - 1);
      PickIsBody(requestId, ds, ws, n - 1);
      PayloadSnoc(ds[..n - 1], ds[n - 1]);
      assert ds[..n] == ds[..n - 1] + [ds[n - 1]];
    }
  }

  /** Datagrams that arrive in any order, even repeated, put together by their headers give the whole payload back. */
  lemma ReassemblyIsExact(requestId: nat, ds: seq<seq<Iov>>, ws: seq<seq<byte>>)
    requires requestId < 65536 && 0 < |ds| < 65536 && Arrived(requestId, ds, ws)
    ensures ws != [] && (forall k :: 0 <= k < |ws| ==> |ws[k]| >= UDP_HEADER_SIZE && CountOf(ws[k]) == |ds|)
    ensures Reassemble(ws, |ds|) == Payload(ds)
  {
    ReassemblePrefix(requestId, ds, ws, |ds|);
    assert ds[..|ds|] == ds;
    assert Wire(requestId, ds, 0) in ws;
    forall k | 0 <= k < |ws|
      ensures |ws[k]| >= UDP_HEADER_SIZE && CountOf(ws[k]) == |ds|
    {
      assert IsWire(requestId, ds, ws[k]);
      var i :| 0 <= i < |ds| && ws[k] == Wire(requestId, ds, i);
      WireReads(requestId, ds, i);
    }
  }

  lemma {:induction false} BodyLength(d: seq<Iov>)
    requires d != [] && d[0].Slot? && forall i :: 0 < i < |d| ==> d[i].Bytes?
    ensures UDP_HEADER_SIZE + |Body(d)| == Total(d)
  {
    if |d| > 1 {
      BodyLength(d[..|d| - 1]);
    } else {
      assert d[..0] == [];
    }
  }

  /** No datagram on the wire is longer than the limit. */
  lemma WireLength(requestId: nat, ds: seq<seq<Iov>>, i: nat)
    requires requestId < 65536 && i < |ds| < 65536 && IsDatagram(ds[i])
    ensures |Wire(requestId, ds, i)| == Total(ds[i]) <= UDP_MAX_PAYLOAD_SIZE
  {
    BodyLength(ds[i]);
  }
}

module Udp {
  import opened UdpSpec

  /** A message header: msg_iov as a pointer into an iovec array, and msg_iovlen. */
  datatype Msg = Msg(base: array<Iov>, start: nat, len: nat)

  /** Sum of msg_iovlen. */
  ghost function EndOf(ms: seq<Msg>): nat {
    if ms == [] then 0 else EndOf(ms[..|ms| - 1]) + ms[|ms| - 1].len
  }

  /** Every message starts where the ones before it end. */
  ghost predicate PrefixSums(ms: seq<Msg>) {
    ms == [] || (PrefixSums(ms[..|ms| - 1]) && ms[|ms| - 1].start == EndOf(ms[..|ms| - 1]))
  }

  /** The iovecs of each message. */
  ghost function Cut(v: seq<Iov>, ms: seq<Msg>): seq<seq<Iov>>
    requires PrefixSums(ms) && EndOf(ms) <= |v|
    decreases |ms|
  {
    if ms == [] then []
    else
      var m := ms[|ms| - 1];
      Cut(v, ms[..|ms| - 1]) + [v[m.start..m.start + m.len]]
  }

  lemma {:induction false} CutLength(v: seq<Iov>, ms: seq<Msg>)
    requires PrefixSums(ms) && EndOf(ms) <= |v|
    ensures |Cut(v, ms)| == |ms|
  {
    if ms != [] {
      CutLength(v, ms[..|ms| - 1]);
    }
  }

  /** Only the iovecs in front of the end matter. */
  lemma {:induction false} CutFrame(v: seq<Iov>, w: seq<Iov>, ms: seq<Msg>)
    requires PrefixSums(ms) && EndOf(ms) <= |v| && EndOf(ms) <= |w| && v[..EndOf(ms)] == w[..EndOf(ms)]
    ensures Cut(v, ms) == Cut(w, ms)
  {
    if ms != [] {
      var front, m := ms[..|ms| - 1], ms[|ms| - 1];
      assert v[..EndOf(front)] == v[..EndOf(ms)][..EndOf(front)];
      assert w[..EndOf(front)] == w[..EndOf(ms)][..EndOf(front)];
      CutFrame(v, w, front);
      assert v[m.start..m.start + m.len] == v[..EndOf(ms)][m.start..];
      assert w[m.start..m.start + m.len] == w[..EndOf(ms)][m.start..];
    }
  }

  /** Starts and lengths are all that counts; the base pointer does not. */
  predicate SameSpans(ms: seq<Msg>, ns: seq<Msg>) {
    |ms| == |ns| && forall i :: 0 <= i < |ms| ==> ms[i].len == ns[i].len
  }

  lemma {:induction false} EndOfSame(ms: seq<Msg>, ns: seq<Msg>)
    requires SameSpans(ms, ns)
    ensures EndOf(ms) == EndOf(ns)
  {
    if ms != [] {
      EndOfSame(ms[..|ms| - 1], ns[..|ns| - 1]);
    }
  }

  lemma {:induction false} CutSame(v: seq<Iov>, ms: seq<Msg>, ns: seq<Msg>)
    requires PrefixSums(ms) && PrefixSums(ns) && SameSpans(ms, ns) && EndOf(ms) <= |v|
    ensures EndOf(ns) == EndOf(ms) && Cut(v, ms) == Cut(v, ns)
  {
    EndOfSame(ms, ns);
    if ms != [] {
      EndOfSame(ms[..|ms| - 1], ns[..|ns| - 1]);
      CutSame(v, ms[..|ms| - 1], ns[..|ns| - 1]);
    }
  }

  /** One more iovec in the last message. */
  lemma CutExtend(v: seq<Iov>, ms: seq<Msg>, x: Iov)
    requires PrefixSums(ms) && ms != [] && EndOf(ms) == |v|
    ensures var m := ms[|ms| - 1];
      var ns := ms[|ms| - 1 := m.(len := m.len + 1)];
      PrefixSums(ns) && EndOf(ns) == |v| + 1 && m.start + m.len == |v|
      && Cut(v, ms) != [] && Cut(v + [x], ns) == Extend(Cut(v, ms), x)
  {
    var front, m := ms[..|ms| - 1], ms[|ms| - 1];
    var ns := ms[|ms| - 1 := m.(len := m.len + 1)];
    assert ns[..|ns| - 1] == front;
    CutFrame(v, v + [x], front);
    var seg := v[m.start..m.start + m.len];
    assert (v + [x])[m.start..m.start + m.len + 1] == seg + [x];
    assert (Cut(v, front) + [seg])[..|Cut(v, front)|] == Cut(v, front);
  }

  /** A new message that starts at the end, still empty. */
  lemma CutNew(v: seq<Iov>, ms: seq<Msg>, base: array<Iov>)
    requires PrefixSums(ms) && EndOf(ms) == |v|
    ensures var ns := ms + [Msg(base, |v|, 0)];
      PrefixSums(ns) && EndOf(ns) == |v| && Cut(v, ns) == Cut(v, ms) + [[]]
  {
    var ns := ms + [Msg(base, |v|, 0)];
    assert ns[..|ns| - 1] == ms;
    assert v[|v|..|v| + 0] == [];
  }

  class Conn {
    var iov: array<Iov>
    var iovused: nat
    var msgs: array<Msg>
    var msgused: nat
    var msgbytes: nat

    /** Message headers point at consecutive ranges of the current iovec array. */
    ghost predicate Laid()
      reads this, iov, msgs
    {
      && iov.Length > 0 && msgs.Length > 0
      && msgused <= msgs.Length
      && (forall i :: 0 <= i < msgused ==> msgs[i].base == iov)
      && PrefixSums(msgs[..msgused])
      && iovused == EndOf(msgs[..msgused]) <= iov.Length
    }

    /** The datagrams collected so far. */
    ghost function Datagrams(): seq<seq<Iov>>
      requires Laid()
      reads this, iov, msgs
    {
      Cut(iov[..iovused], msgs[..msgused])
    }

    ghost predicate Valid()
      reads this, iov, msgs
    {
      && Laid()
      && AllDatagrams(Datagrams())
      && msgbytes == Total(Datagrams()[|Datagrams()| - 1])
    }

    /** ensure_iov_space: on growth every message header is pointed at the new array. */
    method EnsureIovSpace()
      requires Laid()
      modifies this`iov, msgs
      ensures Laid() && Datagrams() == old(Datagrams()) && iovused < iov.Length
      ensures iov == old(iov) || fresh(iov)
    {
      if iovused >= iov.Length {
        ghost var ms, v := msgs[..msgused], iov[..iovused];
        var bigger := Grown(iov);
        assert bigger[..iovused] == v;
        iov := bigger;
        Repoint(ms);
        CutSame(v, ms, msgs[..msgused]);
      }
    }

    /** realloc to twice the size. */
    method Grown(a: array<Iov>) returns (bigger: array<Iov>)
      ensures fresh(bigger) && bigger.Length == 2 * a.Length && bigger[..a.Length] == a[..]
    {
      bigger := new Iov[a.Length * 2](_ => Slot);
      for k := 0 to a.Length
        invariant bigger[..k] == a[..k]
      {
        bigger[k] := a[k];
      }
    }

    /** Points all message headers at the current iovec array. */
    method Repoint(ghost ms: seq<Msg>)
      requires msgused <= msgs.Length && ms == msgs[..msgused]
      modifies msgs
      ensures SameSpans(ms, msgs[..msgused]) && PrefixSums(msgs[..msgused])
      ensures forall i :: 0 <= i < msgused ==> msgs[i].base == iov
    {
      var iovnum := 0;
      for i := 0 to msgused
        invariant SameSpans(ms[..i], msgs[..i]) && PrefixSums(msgs[..i]) && iovnum == EndOf(msgs[..i])
        invariant forall k :: 0 <= k < i ==> msgs[k].base == iov
        invariant msgs[i..msgused] == ms[i..]
      {
        ghost var done := msgs[..i];
        assert msgs[i] == ms[i..][0];
        var m := msgs[i];
        msgs[i] := Msg(iov, iovnum, m.len);
        iovnum := iovnum + m.len;
        assert msgs[..i + 1][..i] == done;
        assert msgs[i + 1..msgused] == ms[i..][1..];
      }
      assert ms[..msgused] == ms;
    }

    /** The end of add_iov: one more iovec in the current message. */
    method Put(x: Iov)
      requires Laid() && msgused > 0 && iovused < iov.Length
      modifies this, iov, msgs
      ensures Laid() && old(Datagrams()) != [] && Datagrams() == Extend(old(Datagrams()), x)
      ensures msgbytes == old(msgbytes) + Len(x) && iov == old(iov) && msgs == old(msgs)
    {
      ghost var v, ms := iov[..iovused], msgs[..msgused];
      CutExtend(v, ms, x);
      var m := msgs[msgused - 1];
      m.base[m.start + m.len] := x;
      msgbytes := msgbytes + Len(x);
      iovused := iovused + 1;
      msgs[msgused - 1] := m.(len := m.len + 1);
      assert iov[..iovused] == v + [x];
      assert msgs[..msgused] == ms[|ms| - 1 := m.(len := m.len + 1)];
    }

    /** add_msghdr: a new datagram with room for its header. */
    method AddMsgHdr()
      requires Laid()
      modifies this, iov, msgs
      ensures Laid() && Datagrams() == old(Datagrams()) + [[Slot]] && msgbytes == UDP_HEADER_SIZE
      ensures (iov == old(iov) || fresh(iov)) && (msgs == old(msgs) || fresh(msgs))
    {
      ghost var v, ms := iov[..iovused], msgs[..msgused];
      StartMsg();
      hide Cut, EndOf, PrefixSums;
      EnsureIovSpace();
      Put(Slot);
      ExtendEmpty(Cut(v, ms));
    }

    /** The part of add_msghdr before the header slot: a message header at the end of the iovecs. */
    method StartMsg()
      requires Laid()
      modifies this, msgs
      ensures Laid() && Datagrams() == old(Datagrams()) + [[]] && msgbytes == 0 && msgused > 0
      ensures iov == old(iov) && (msgs == old(msgs) || fresh(msgs))
    {
      ghost var v, ms := iov[..iovused], msgs[..msgused];
      CutNew(v, ms, iov);
      hide Cut, EndOf, PrefixSums;
      if msgused == msgs.Length {
        msgs := GrownMsgs(msgs);
        assert msgs[..msgused] == ms;
      }
      msgs[msgused] := Msg(iov, iovused, 0);
      msgbytes := 0;
      msgused := msgused + 1;
      assert msgs[..msgused] == ms + [Msg(iov, iovused, 0)];
    }

    method GrownMsgs(a: array<Msg>) returns (bigger: array<Msg>)
      requires a.Length > 0
      ensures fresh(bigger) && bigger.Length == 2 * a.Length && bigger[..a.Length] == a[..]
    {
      var fill := a[0];
      bigger := new Msg[a.Length * 2](_ => fill);
      for k := 0 to a.Length
        invariant bigger[..k] == a[..k]
      {
        bigger[k] := a[k];
      }
    }

    /** add_iov on a UDP connection: the buffer is split over as many datagrams as it needs. */
    method AddIov(buf: seq<byte>)
      requires Valid()
      modifies this, iov, msgs
      ensures Valid()
      ensures Payload(Datagrams()) == old(Payload(Datagrams())) + buf
      ensures old(Packed(Datagrams())) ==> Packed(Datagrams())
      ensures (iov == old(iov) || fresh(iov)) && (msgs == old(msgs) || fresh(msgs))
    {
      var rest := buf;
      ghost var sent := Payload(Datagrams());
      var more := true;
      while more
        invariant Valid()
        invariant Payload(Datagrams()) + rest == sent + buf
        invariant old(Packed(Datagrams())) ==> Packed(Datagrams())
        invariant !more ==> rest == []
        invariant (iov == old(iov) || fresh(iov)) && (msgs == old(msgs) || fresh(msgs))
        decreases more, |rest|
      {
        ghost var n := |rest|;
        rest := AddPart(rest);
        more := rest != [];
      }
    }

    /** One round of the splitting loop: fills the current datagram, or a new one, with as much as fits. */
    method AddPart(buf: seq<byte>) returns (rest: seq<byte>)
      requires Valid()
      modifies this, iov, msgs
      ensures Valid()
      ensures Payload(Datagrams()) + rest == old(Payload(Datagrams())) + buf
      ensures rest != [] ==> |rest| < |buf|
      ensures old(Packed(Datagrams())) ==> Packed(Datagrams())
      ensures (iov == old(iov) || fresh(iov)) && (msgs == old(msgs) || fresh(msgs))
    {
      hide Cut, EndOf, PrefixSums, AllDatagrams, Payload, Total, IsDatagram, Extend, Packed;
      ghost var sent := Payload(Datagrams());
      MakeRoom();
      ghost var ds := Datagrams();
      var len, leftover := |buf|, 0;
      if len + msgbytes > UDP_MAX_PAYLOAD_SIZE {
        leftover := len + msgbytes - UDP_MAX_PAYLOAD_SIZE;
        len := len - leftover;
      }
      var part := Bytes(buf[..len]);
      ExtendDatagrams(ds, part);
      if Packed(ds) {
        PackedExtend(ds, part);
      }
      SplitBytes(sent, buf, len);
      Put(part);
      rest := buf[len..];
    }

    /** build_udp_headers: every message now carries exactly the bytes of its datagram on the wire. */
    method BuildHeaders(requestId: nat)
      requires Valid() && requestId < 65536 && msgused < 65536
      modifies iov
      ensures Laid() && |old(Datagrams())| == msgused
      ensures |Datagrams()| == msgused
      ensures forall k :: 0 <= k < msgused ==> Body(Datagrams()[k]) == Wire(requestId, old(Datagrams()), k)
      ensures forall k :: 0 <= k < msgused ==> |Datagrams()[k]| == |old(Datagrams())[k]|
    {
      hide Cut, EndOf, PrefixSums, AllDatagrams, Total, Body, Wire, WithHeaders, HeaderOf, IsDatagram;
      ghost var v, ms := iov[..iovused], msgs[..msgused];
      HeaderedCut(requestId, v, ms, Datagrams());
      FillHeaders(requestId, ms);
      assert msgs[..msgused] == ms;
    }

    method FillHeaders(requestId: nat, ghost ms: seq<Msg>)
      requires requestId < 65536 && msgused < 65536 && msgused <= msgs.Length && ms == msgs[..msgused]
      requires iovused <= iov.Length
      requires forall k :: 0 <= k < msgused ==> msgs[k].base == iov && msgs[k].start < iovused
      modifies iov
      ensures iov[..iovused] == WithHeaders(requestId, old(iov[..iovused]), ms, msgused)
    {
      hide HeaderOf;
      for i := 0 to msgused
        invariant iov[..iovused] == WithHeaders(requestId, old(iov[..iovused]), ms, i)
      {
        var m := msgs[i];
        m.base[m.start] := Bytes(HeaderOf(requestId, i, msgused));
      }
    }

    /** A whole response: what is sent fits the limit, and in whatever order it arrives it gives the buffers back. */
    method Respond(bufs: seq<seq<byte>>, requestId: nat) returns (ok: bool, ghost wires: seq<seq<byte>>)
      requires Laid() && msgused == 0 && requestId < 65536
      modifies this, iov, msgs
      ensures Laid() && ok == (msgused < 65536)
      ensures ok ==> |wires| == msgused == |Datagrams()| && forall k :: 0 <= k < |wires| ==>
        wires[k] == Body(Datagrams()[k])
      ensures ok ==> forall w :: w in wires ==> |w| <= UDP_MAX_PAYLOAD_SIZE
      ensures ok ==> forall k :: 0 <= k < |wires| ==>
        && |wires[k]| >= UDP_HEADER_SIZE && RequestOf(wires[k]) == requestId
        && SeqOf(wires[k]) == k && CountOf(wires[k]) == |wires|
      ensures ok ==> forall k :: 0 <= k < |wires| - 1 ==>
        |wires[k]| == UDP_MAX_PAYLOAD_SIZE || |Datagrams()[k]| == IOV_MAX
      ensures ok ==> forall ws: seq<seq<byte>> :: (forall w :: w in ws <==> w in wires) ==>
                       Reassemble(ws, |wires|) == Concat(bufs)
    {
      hide Payload, Concat, Cut, EndOf, PrefixSums, AllDatagrams, Total, Body, Wire, RequestOf, SeqOf, CountOf, Packed,
           Reassemble;
      AddAll(bufs);
      ok, wires := msgused < 65536, [];
      if ok {
        ghost var ds := Datagrams();
        BuildHeaders(requestId);
        wires := seq(|ds|, k requires 0 <= k < |ds| => Wire(requestId, ds, k));
        Delivery(requestId, ds, wires);
        Headers(requestId, ds, wires);
        PackedWires(requestId, ds, wires);
      }
    }

    /** The first message, and then one buffer after the other. */
    method AddAll(bufs: seq<seq<byte>>)
      requires Laid() && msgused == 0
      modifies this, iov, msgs
      ensures Valid() && Payload(Datagrams()) == Concat(bufs) && Packed(Datagrams())
      ensures (iov == old(iov) || fresh(iov)) && (msgs == old(msgs) || fresh(msgs))
    {
      assert msgs[..0] == [] && iov[..0] == [];
      AddMsgHdr();
      FirstDatagram();
      for i := 0 to |bufs|
        invariant Valid() && Payload(Datagrams()) == Concat(bufs[..i]) && Packed(Datagrams())
        invariant (iov == old(iov) || fresh(iov)) && (msgs == old(msgs) || fresh(msgs))
      {
        ConcatSnoc(bufs, i);
        hide Payload, Concat, Packed;
        AddIov(bufs[i]);
      }
      assert bufs[..|bufs|] == bufs;
    }

    /** A datagram with space for at least one more byte, and an iovec to put it in. */
    method MakeRoom()
      requires Valid()
      modifies this, iov, msgs
      ensures Valid() && Payload(Datagrams()) == old(Payload(Datagrams()))
      ensures msgused > 0 && iovused < iov.Length && msgbytes < UDP_MAX_PAYLOAD_SIZE
      ensures Datagrams() != [] && |Datagrams()[|Datagrams()| - 1]| < IOV_MAX
      ensures old(Packed(Datagrams())) ==> Packed(Datagrams())
      ensures (iov == old(iov) || fresh(iov)) && (msgs == old(msgs) || fresh(msgs))
    {
      hide Cut, EndOf, PrefixSums, Payload, Total, IsDatagram, Extend, Packed;
      ghost var ds := Datagrams();
      SomeMessage(iov[..iovused], msgs[..msgused]);
      LastLength(iov[..iovused], msgs[..msgused]);
      LastIsDatagram(ds);
      StartDatagram(ds);
      if msgs[msgused - 1].len == IOV_MAX || msgbytes >= UDP_MAX_PAYLOAD_SIZE {
        if Packed(ds) {
          PackedNew(ds, [Slot]);
        }
        AddMsgHdr();
      }
      EnsureIovSpace();
      SomeMessage(iov[..iovused], msgs[..msgused]);
    }
  }

  lemma Headers(requestId: nat, ds: seq<seq<Iov>>, wires: seq<seq<byte>>)
    requires requestId < 65536 && |ds| < 65536 && |wires| == |ds|
    requires forall k :: 0 <= k < |ds| ==> wires[k] == Wire(requestId, ds, k)
    ensures forall k :: 0 <= k < |wires| ==>
      && |wires[k]| >= UDP_HEADER_SIZE && RequestOf(wires[k]) == requestId
      && SeqOf(wires[k]) == k && CountOf(wires[k]) == |wires|
  {
    hide Wire, RequestOf, SeqOf, CountOf;
    forall k | 0 <= k < |wires|
      ensures |wires[k]| >= UDP_HEADER_SIZE && RequestOf(wires[k]) == requestId
      ensures SeqOf(wires[k]) == k && CountOf(wires[k]) == |wires|
    {
      WireReads(requestId, ds, k);
    }
  }

  lemma PackedWires(requestId: nat, ds: seq<seq<Iov>>, wires: seq<seq<byte>>)
    requires requestId < 65536 && |ds| < 65536 && |wires| == |ds| && AllDatagrams(ds) && Packed(ds)
    requires forall k :: 0 <= k < |ds| ==> wires[k] == Wire(requestId, ds, k)
    ensures forall k :: 0 <= k < |wires| - 1 ==> |wires[k]| == UDP_MAX_PAYLOAD_SIZE || |ds[k]| == IOV_MAX
  {
    hide Wire, Total, IsDatagram;
    forall k | 0 <= k < |wires| - 1
      ensures |wires[k]| == Total(ds[k])
    {
      WireLength(requestId, ds, k);
    }
  }

  lemma SplitBytes(sent: seq<byte>, buf: seq<byte>, len: nat)
    requires len <= |buf|
    ensures (sent + buf[..len]) + buf[len..] == sent + buf
  {}

  /** The iovecs after the first i headers are in their slots. */
  ghost function WithHeaders(requestId: nat, v: seq<Iov>, ms: seq<Msg>, i: nat): (r: seq<Iov>)
    requires requestId < 65536 && i <= |ms| < 65536 && forall k :: 0 <= k < |ms| ==> ms[k].start < |v|
    ensures |r| == |v|
  {
    if i == 0 then v
    else WithHeaders(requestId, v, ms, i - 1)[ms[i - 1].start := Bytes(HeaderOf(requestId, i - 1, |ms|))]
  }

  lemma {:induction false} WithHeadersAt(requestId: nat, v: seq<Iov>, ms: seq<Msg>, i: nat, k: nat, j: nat)
    requires requestId < 65536 && i <= |ms| < 65536 && forall l :: 0 <= l < |ms| ==> ms[l].start < |v|
    requires k < |ms| && j < ms[k].len && ms[k].start + ms[k].len <= |v|
    requires forall l, m :: 0 <= l < m < |ms| ==> ms[l].start + ms[l].len <= ms[m].start
    requires forall l :: 0 <= l < |ms| ==> ms[l].len > 0
    ensures WithHeaders(requestId, v, ms, i)[ms[k].start + j]
         == if j == 0 && k < i then Bytes(HeaderOf(requestId, k, |ms|)) else v[ms[k].start + j]
    decreases i
  {
    hide HeaderOf;
    if i > 0 {
      WithHeadersAt(requestId, v, ms, i - 1, k, j);
      assert i - 1 < k ==> ms[i - 1].start + ms[i - 1].len <= ms[k].start;
      assert i - 1 > k ==> ms[k].start + ms[k].len <= ms[i - 1].start;
    }
  }

  lemma HeaderedMessage(requestId: nat, v: seq<Iov>, ms: seq<Msg>, ds: seq<seq<Iov>>, k: nat)
    requires requestId < 65536 && |ds| == |ms| < 65536 && k < |ms|
    requires SpansOk(v, ms, ds)
    ensures var w := WithHeaders(requestId, v, ms, |ms|);
      Body(w[ms[k].start..ms[k].start + ms[k].len]) == Wire(requestId, ds, k)
  {
    var w := WithHeaders(requestId, v, ms, |ms|);
    var d := w[ms[k].start..ms[k].start + ms[k].len];
    var h := HeaderOf(requestId, k, |ms|);
    hide Body, HeaderOf, WithHeaders;
    forall j | 0 <= j < |d|
      ensures d[j] == ds[k][0 := Bytes(h)][j]
    {
      WithHeadersAt(requestId, v, ms, |ms|, k, j);
    }
    assert d == ds[k][0 := Bytes(h)];
    HeaderBody(ds[k], h);
  }

  lemma HeaderedCut(requestId: nat, v: seq<Iov>, ms: seq<Msg>, ds: seq<seq<Iov>>)
    requires requestId < 65536 && |ms| < 65536 && PrefixSums(ms) && EndOf(ms) == |v|
    requires ds == Cut(v, ms) && AllDatagrams(ds)
    ensures |ms| == |ds| && forall k :: 0 <= k < |ms| ==> ms[k].start < |v|
    ensures var w := WithHeaders(requestId, v, ms, |ms|);
      |Cut(w, ms)| == |ms| && forall k :: 0 <= k < |ms| ==>
        Body(Cut(w, ms)[k]) == Wire(requestId, ds, k) && |Cut(w, ms)[k]| == |ds[k]|
  {
    Spans(v, ms, ds);
    SpansInRange(v, ms, ds);
    var w := WithHeaders(requestId, v, ms, |ms|);
    CutLength(w, ms);
    hide Body, Wire, WithHeaders, Cut, PrefixSums, EndOf, SpansOk;
    forall k | 0 <= k < |ms|
      ensures Body(Cut(w, ms)[k]) == Wire(requestId, ds, k) && |Cut(w, ms)[k]| == |ds[k]|
    {
      SpanAt(w, ms, k);
      SpanAt(v, ms, k);
      HeaderedMessage(requestId, v, ms, ds, k);
    }
  }

  lemma {:induction false} HeaderBody(d: seq<Iov>, h: seq<byte>)
    requires d != [] && d[0].Slot?
    ensures Body(d[0 := Bytes(h)]) == h + Body(d)
  {
    var e := d[0 := Bytes(h)];
    if |d| == 1 {
      assert e[..0] == [] && d[..0] == [];
    } else {
      var front, last := d[..|d| - 1], d[|d| - 1];
      HeaderBody(front, h);
      assert e[..|e| - 1] == front[0 := Bytes(h)];
      assert (h + Body(front)) + DataOf(last) == h + (Body(front) + DataOf(last));
    }
  }

  lemma {:induction false} SpanAt(v: seq<Iov>, ms: seq<Msg>, k: nat)
    requires PrefixSums(ms) && EndOf(ms) <= |v| && k < |ms|
    ensures ms[k].start + ms[k].len <= EndOf(ms) && |Cut(v, ms)| == |ms|
    ensures Cut(v, ms)[k] == v[ms[k].start..ms[k].start + ms[k].len]
    decreases |ms|
  {
    var front := ms[..|ms| - 1];
    CutLength(v, ms);
    CutLength(v, front);
    if k < |ms| - 1 {
      SpanAt(v, front, k);
      assert front[k] == ms[k];
    }
  }

  lemma {:induction false} SpanOrder(ms: seq<Msg>, k: nat, l: nat)
    requires PrefixSums(ms) && k < l < |ms|
    ensures ms[k].start + ms[k].len <= ms[l].start
    decreases |ms|
  {
    var front := ms[..|ms| - 1];
    if l < |ms| - 1 {
      SpanOrder(front, k, l);
    } else {
      SpanEnd(front, k);
    }
  }

  lemma {:induction false} SpanEnd(ms: seq<Msg>, k: nat)
    requires PrefixSums(ms) && k < |ms|
    ensures ms[k].start + ms[k].len <= EndOf(ms)
    decreases |ms|
  {
    if k < |ms| - 1 {
      SpanEnd(ms[..|ms| - 1], k);
    }
  }

  /** Messages are non-empty, disjoint and in order, and each starts with a header slot. */
  ghost predicate SpansOk(v: seq<Iov>, ms: seq<Msg>, ds: seq<seq<Iov>>) {
    && |ds| == |ms|
    && (forall k :: 0 <= k < |ms| ==>
          ms[k].start + ms[k].len <= |v| && ms[k].len > 0 && ds[k] == v[ms[k].start..ms[k].start + ms[k].len]
          && ds[k][0].Slot?)
    && (forall k, l :: 0 <= k < l < |ms| ==> ms[k].start + ms[k].len <= ms[l].start)
  }

  lemma SpansInRange(v: seq<Iov>, ms: seq<Msg>, ds: seq<seq<Iov>>)
    requires SpansOk(v, ms, ds)
    ensures |ds| == |ms| && forall k :: 0 <= k < |ms| ==> ms[k].start < |v| && ms[k].start + ms[k].len <= |v|
  {}

  lemma Spans(v: seq<Iov>, ms: seq<Msg>, ds: seq<seq<Iov>>)
    requires PrefixSums(ms) && EndOf(ms) == |v| && ds == Cut(v, ms) && AllDatagrams(ds)
    ensures SpansOk(v, ms, ds)
  {
    CutLength(v, ms);
    forall k | 0 <= k < |ms|
      ensures ms[k].start + ms[k].len <= |v| && ms[k].len > 0 && ds[k] == v[ms[k].start..ms[k].start + ms[k].len]
      ensures ds[k][0].Slot?
    {
      SpanAt(v, ms, k);
      assert IsDatagram(ds[k]);
    }
    forall k, l | 0 <= k < l < |ms|
      ensures ms[k].start + ms[k].len <= ms[l].start
    {
      SpanOrder(ms, k, l);
    }
  }

  function Concat(bufs: seq<seq<byte>>): seq<byte> {
    if bufs == [] then [] else Concat(bufs[..|bufs| - 1]) + bufs[|bufs| - 1]
  }

  lemma ConcatSnoc(bufs: seq<seq<byte>>, i: nat)
    requires i < |bufs|
    ensures Concat(bufs[..i + 1]) == Concat(bufs[..i]) + bufs[i]
  {
    assert bufs[..i + 1][..i] == bufs[..i];
  }

  lemma FirstDatagram()
    ensures AllDatagrams([[Slot]]) && Total([Slot]) == UDP_HEADER_SIZE && Payload([[Slot]]) == []
  {
    NewDatagram([]);
    assert [] + [[Slot]] == [[Slot]];
  }

  lemma Delivery(requestId: nat, ds: seq<seq<Iov>>, wires: seq<seq<byte>>)
    requires requestId < 65536 && |ds| < 65536 && AllDatagrams(ds) && |wires| == |ds|
    requires forall k :: 0 <= k < |ds| ==> wires[k] == Wire(requestId, ds, k)
    ensures forall w :: w in wires ==> |w| <= UDP_MAX_PAYLOAD_SIZE
    ensures forall ws: seq<seq<byte>> :: (forall w :: w in ws <==> w in wires) ==>
      Reassemble(ws, |wires|) == Payload(ds)
  {
    hide Wire, Reassemble, Payload, IsDatagram;
    forall k | 0 <= k < |wires|
      ensures |wires[k]| <= UDP_MAX_PAYLOAD_SIZE
    {
      WireLength(requestId, ds, k);
    }
    forall ws: seq<seq<byte>> | forall w :: w in ws <==> w in wires
      ensures Reassemble(ws, |wires|) == Payload(ds)
    {
      assert forall i :: 0 <= i < |ds| ==> wires[i] in wires;
      ReassemblyIsExact(requestId, ds, ws);
    }
  }

  lemma SomeMessage(v: seq<Iov>, ms: seq<Msg>)
    requires PrefixSums(ms) && EndOf(ms) <= |v|
    ensures Cut(v, ms) != [] ==> ms != []
  {}

  lemma LastIsDatagram(ds: seq<seq<Iov>>)
    requires AllDatagrams(ds)
    ensures ds != [] && |ds[|ds| - 1]| <= IOV_MAX && Total(ds[|ds| - 1]) <= UDP_MAX_PAYLOAD_SIZE
  {}

  lemma ExtendEmpty(ds: seq<seq<Iov>>)
    ensures Extend(ds + [[]], Slot) == ds + [[Slot]]
  {
    assert (ds + [[]])[..|ds + [[]]| - 1] == ds;
    assert [] + [Slot] == [Slot];
  }

  ghost predicate AllDatagrams(ds: seq<seq<Iov>>) {
    ds != [] && forall i :: 0 <= i < |ds| ==> IsDatagram(ds[i])
  }

  lemma ExtendDatagrams(ds: seq<seq<Iov>>, x: Iov)
    requires AllDatagrams(ds) && x.Bytes? && |ds[|ds| - 1]| < IOV_MAX
    requires Total(ds[|ds| - 1]) + Len(x) <= UDP_MAX_PAYLOAD_SIZE
    ensures AllDatagrams(Extend(ds, x))
    ensures Total(Extend(ds, x)[|Extend(ds, x)| - 1]) == Total(ds[|ds| - 1]) + Len(x)
    ensures Payload(Extend(ds, x)) == Payload(ds) + x.data
  {
    Snoc(ds[|ds| - 1], x);
    ExtendPayload(ds, x);
  }

  lemma StartDatagram(ds: seq<seq<Iov>>)
    requires AllDatagrams(ds)
    ensures AllDatagrams(ds + [[Slot]]) && Payload(ds + [[Slot]]) == Payload(ds) && Total([Slot]) == UDP_HEADER_SIZE
  {
    NewDatagram(ds);
  }

  lemma LastLength(v: seq<Iov>, ms: seq<Msg>)
    requires PrefixSums(ms) && EndOf(ms) <= |v| && ms != []
    ensures Cut(v, ms) != [] && |Cut(v, ms)[|Cut(v, ms)| - 1]| == ms[|ms| - 1].len
  {}
}
