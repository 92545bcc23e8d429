/**
  memcached.c and items.c: copying values into an item whose data is a chain of
  chunks, allocating chunks on the way. Append and prepend are built from two
  such copies.
 */
module Chunks {

  type byte = bv8

  /** One chunk: its capacity and the bytes it holds. The chunk inside an item header has size 0. */
  datatype Chunk = Chunk(size: nat, data: seq<byte>)

  /** Where bytes are copied from: a chain of chunks or one flat block. */
  datatype Source = Chunked(chunks: seq<seq<byte>>) | Flat(data: seq<byte>)

  function Join(parts: seq<seq<byte>>): seq<byte> {
    if parts == [] then [] else parts[0] + Join(parts[1..])
  }

  function BytesOf(src: Source): seq<byte> {
    if src.Flat? then src.data else Join(src.chunks)
  }

  function Contents(cs: seq<Chunk>): seq<byte> {
    if cs == [] then [] else Contents(cs[..|cs| - 1]) + cs[|cs| - 1].data
  }

  /** A chain that can still grow: no chunk is over-full and only the last may have room. */
  predicate Growable(cs: seq<Chunk>) {
    && cs != []
    && (forall i :: 0 <= i < |cs| ==> |cs[i].data| <= cs[i].size)
    && (forall i :: 0 <= i < |cs| - 1 ==> |cs[i].data| == cs[i].size)
  }

  lemma ContentsSnoc(cs: seq<Chunk>, c: Chunk)
    ensures Contents(cs + [c]) == Contents(cs) + c.data
  {
    assert (cs + [c])[..|cs + [c]| - 1] == cs;
  }

  lemma FillLast(cs: seq<Chunk>, more: seq<byte>)
    requires Growable(cs) && |cs[|cs| - 1].data| + |more| <= cs[|cs| - 1].size
    ensures var last := cs[|cs| - 1]; var ds := cs[|cs| - 1 := last.(data := last.data + more)];
      Growable(ds) && Contents(ds) == Contents(cs) + more
  {
    var front, last := cs[..|cs| - 1], cs[|cs| - 1];
    var ds := cs[|cs| - 1 := last.(data := last.data + more)];
    assert ds[..|ds| - 1] == front;
  }

  lemma {:induction false} JoinDrop(parts: seq<seq<byte>>, k: nat)
    requires k < |parts|
    ensures Join(parts[k..]) == parts[k] + Join(parts[k + 1..])
  {
    assert parts[k..][1..] == parts[k + 1..];
  }

  lemma JoinNone(parts: seq<seq<byte>>)
    ensures parts == [] ==> Join(parts) == []
  {}

  function Min(a: nat, b: nat): nat {
    if a < b then a else b
  }

  /** An item whose value is stored in a chain of chunks. */
  class ChunkedItem {
    const header: nat    // sizeof(item_chunk)
    const chunkMax: nat  // settings.slab_chunk_size_max
    var chunks: seq<Chunk>
    var avail: nat       // how many more chunk allocations will succeed

    predicate Valid()
      reads this
    {
      header < chunkMax && Growable(chunks)
    }

    /** do_item_alloc leaves a large item with just the empty chunk of its header. */
    constructor (header: nat, chunkMax: nat, avail: nat)
      requires header < chunkMax
      ensures Valid() && Contents(chunks) == []
    {
      this.header, this.chunkMax, this.avail := header, chunkMax, avail;
      chunks := [Chunk(0, [])];
      new;
      ContentsSnoc([], Chunk(0, []));
      assert [] + [Chunk(0, [])] == [Chunk(0, [])];
    }

    predicate LastFull()
      reads this
      requires chunks != []
    {
      |chunks[|chunks| - 1].data| == chunks[|chunks| - 1].size
    }

    /** do_item_alloc_chunk: chains a chunk behind chunk d, cutting off whatever followed it. */
    method AllocChunk(d: nat, bytesRemain: nat) returns (ok: bool)
      requires Valid() && d == |chunks| - 1 && LastFull()
      modifies this
      ensures Valid() && Contents(chunks) == old(Contents(chunks))
      ensures ok <==> old(avail) > 0
      ensures ok ==> |chunks| == d + 2 && avail == old(avail) - 1 && (LastFull() <==> bytesRemain == 0)
      ensures ok ==> chunks[d + 1] == Chunk(Min(bytesRemain, chunkMax - header), [])
      ensures !ok ==> chunks == old(chunks) && avail == old(avail)
    {
      if avail == 0 {
        return false;
      }
      avail := avail - 1;
      var size := Min(bytesRemain + header, chunkMax);
      var next := Chunk(size - header, []);
      ContentsSnoc(chunks, next);
      chunks := chunks[..d + 1] + [next];
      assert old(chunks)[..d + 1] == old(chunks);
      return true;
    }

    /** The walk to the first chunk with room: with a growable chain that is the last chunk. */
    method FindRoom() returns (d: nat)
      requires Valid()
      ensures d == |chunks| - 1
    {
      d := 0;
      while |chunks[d].data| == chunks[d].size && d + 1 < |chunks|
        invariant 0 <= d < |chunks|
      {
        d := d + 1;
      }
    }

    /** Adds bytes to the last chunk, and when that fills it, chains a new one sized for what remains. */
    method Fill(d: nat, more: seq<byte>, remain: nat) returns (ok: bool, next: nat)
      requires Valid() && d == |chunks| - 1 && |chunks[d].data| + |more| <= chunks[d].size
      modifies this
      ensures Valid() && Contents(chunks) == old(Contents(chunks)) + more
      ensures ok ==> (old(|chunks[d].data|) + |more| == old(chunks[d].size) ==> (LastFull() <==> remain == 0))
      ensures ok ==> (old(|chunks[d].data|) + |more| < old(chunks[d].size) ==> !LastFull())
      ensures if ok then next == |chunks| - 1 else avail == old(avail) == 0
      ensures old(|chunks[d].data|) + |more| == old(chunks[d].size) ==> avail == old(avail) - (if ok then 1 else 0)
      ensures old(|chunks[d].data|) + |more| < old(chunks[d].size) ==> ok && avail == old(avail)
    {
      FillLast(chunks, more);
      chunks := chunks[d := chunks[d].(data := chunks[d].data + more)];
      ok, next := true, d;
      if |chunks[d].data| == chunks[d].size {
        ok := AllocChunk(d, remain);
        next := d + 1;
      }
    }

    /** _store_item_copy_chunks from a flat item. */
    method CopyFlat(data: seq<byte>, len: nat) returns (ok: bool)
      requires Valid() && len <= |data|
      modifies this
      ensures Valid() && (if ok then old(avail) - avail <= len + 1 else old(avail) <= len)
      ensures ok ==> Contents(chunks) == old(Contents(chunks)) + data[..len]
    {
      ghost var was := Contents(chunks);
      var d := FindRoom();
      var done := 0;
      while len > done
        invariant Valid() && d == |chunks| - 1 && 0 <= done <= len
        invariant Contents(chunks) == was + data[..done]
        invariant old(avail) - avail <= done + 1 && (LastFull() && done < len ==> old(avail) - avail <= done)
        decreases len - done, LastFull()
      {
        var todo := Min(chunks[d].size - |chunks[d].data|, len - done);
        ok, d := Fill(d, data[done..done + todo], len - done - todo);
        assert data[..done + todo] == data[..done] + data[done..done + todo];
        done := done + todo;
        if !ok {
          return;
        }
      }
      ok := true;
    }

    /**
      _store_item_copy_chunks from a chunked item, fitting source chunks of any
      size, empty ones included, into the chain.
     */
    method CopyChunked(parts: seq<seq<byte>>, len: nat) returns (ok: bool)
      requires Valid() && len <= |Join(parts)|
      modifies this
      ensures Valid() && (if ok then old(avail) - avail <= len + 1 else old(avail) <= len)
      ensures ok ==> Contents(chunks) == old(Contents(chunks)) + Join(parts)[..len]
    {
      hide Join, Contents;
      ghost var was, all := Contents(chunks), Join(parts);
      var d := FindRoom();
      var remain: nat, s: nat, copied: nat := len, 0, 0;
      assert parts[0..] == parts;
      while s < |parts| && remain > 0
        invariant Valid() && d == |chunks| - 1 && 0 <= s <= |parts| && 0 <= remain <= len
        invariant s < |parts| ==> copied <= |parts[s]|
        invariant s == |parts| ==> copied == 0
        invariant copied <= |Join(parts[s..])| && Join(parts[s..])[copied..] == all[len - remain..]
        invariant Contents(chunks) == was + all[..len - remain]
        invariant old(avail) - avail <= len - remain + 1
        invariant (LastFull() && remain > 0 ==> old(avail) - avail <= len - remain)
        decreases remain, |parts| - s, LastFull()
      {
        var todo := Min(Min(chunks[d].size - |chunks[d].data|, |parts[s]| - copied), remain);
        ghost var at := len - remain;
        JoinDrop(parts, s);
        TakeFromJoin(parts[s], Join(parts[s + 1..]), copied, todo, all, at);
        ok, d := Fill(d, parts[s][copied..copied + todo], remain - todo);
        assert all[..at + todo] == all[..at] + all[at..at + todo];
        copied := copied + todo;
        remain := remain - todo;
        if !ok {
          return;
        }
        if copied == |parts[s]| {
          copied := 0;
          s := s + 1;
        }
      }
      JoinNone(parts[s..]);
      ok := true;
    }

    /** _store_item_copy_chunks. */
    method CopyChunks(src: Source, len: nat) returns (ok: bool)
      requires Valid() && len <= |BytesOf(src)|
      modifies this
      ensures Valid() && (if ok then old(avail) - avail <= len + 1 else old(avail) <= len)
      ensures ok ==> Contents(chunks) == old(Contents(chunks)) + BytesOf(src)[..len]
    {
      match src
      case Chunked(parts) => ok := CopyChunked(parts, len);
      case Flat(data) => ok := CopyFlat(data, len);
    }
  }

  lemma TakeFromJoin(part: seq<byte>, rest: seq<byte>, copied: nat, todo: nat, all: seq<byte>, at: nat)
    requires copied + todo <= |part| && at <= |all| && (part + rest)[copied..] == all[at..]
    ensures at + todo <= |all| && part[copied..copied + todo] == all[at..at + todo]
    ensures (part + rest)[copied + todo..] == all[at + todo..]
    ensures copied + todo == |part| ==> rest == all[at + todo..]
  {
    var tail := (part + rest)[copied..];
    assert tail[..todo] == part[copied..copied + todo];
    assert all[at..][..todo] == all[at..at + todo];
    assert tail[todo..] == (part + rest)[copied + todo..];
    assert all[at..][todo..] == all[at + todo..];
    assert copied + todo == |part| ==> (part + rest)[copied + todo..] == rest;
  }

  const CRLF: seq<byte> := [13, 10]

  /** A stored value ends with one CRLF. */
  predicate HasCrlf(v: seq<byte>) {
    |v| >= 2 && v[|v| - 2..] == CRLF
  }

  function Text(v: seq<byte>): seq<byte>
    requires |v| >= 2
  {
    v[..|v| - 2]
  }

  /** _store_item_copy_data into a fresh chunked item: the two texts joined, with a single CRLF at the end. */
  method CopyData(item: ChunkedItem, append: bool, earlier: Source, added: Source) returns (ok: bool)
    requires item.Valid() && Contents(item.chunks) == []
    requires HasCrlf(BytesOf(earlier)) && HasCrlf(BytesOf(added))
    modifies item
    ensures item.Valid() && (!ok ==> old(item.avail) < |BytesOf(earlier)| + |BytesOf(added)|)
    ensures ok ==> HasCrlf(Contents(item.chunks))
    ensures ok && append ==> Text(Contents(item.chunks)) == Text(BytesOf(earlier)) + Text(BytesOf(added))
    ensures ok && !append ==> Text(Contents(item.chunks)) == Text(BytesOf(added)) + Text(BytesOf(earlier))
  {
    hide Contents, BytesOf, Growable;
    var first, second := if append then earlier else added, if append then added else earlier;
    ghost var a, b := BytesOf(first), BytesOf(second);
    var m := LengthOf(first);
    var n := LengthOf(second);
    ok := item.CopyChunks(first, m - 2);
    if ok {
      ok := item.CopyChunks(second, n);
      assert b[..n] == b;
      assert [] + Text(a) == Text(a);
      assert b == Text(b) + CRLF;
      assert Text(a) + b == (Text(a) + Text(b)) + CRLF;
    }
  }

  /** nbytes of an item. */
  method LengthOf(src: Source) returns (n: nat)
    ensures n == |BytesOf(src)|
  {
    match src
    case Flat(data) => n := |data|;
    case Chunked(parts) =>
      n := 0;
      var i := |parts|;
      while i > 0
        invariant 0 <= i <= |parts| && n == |Join(parts[i..])|
      {
        i := i - 1;
        JoinDrop(parts, i);
        n := n + |parts[i]|;
      }
      assert parts[0..] == parts;
  }
}
