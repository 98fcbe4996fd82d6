/**
 * The chunked byte queue of buffer.h and buffer.cc. Chunks are values in a list, as in the source;
 * the storage a chunk points to is an array on the heap, owned by exactly one chunk.
 */
module Buffer {
  import opened Common

  /** `p[offset..end]` is data, `p[end..cap]` is free. */
  datatype Chunk = Chunk(p: array<byte>, offset: nat, end: nat, cap: nat)

  ghost predicate Ok(c: Chunk) {
    c.offset <= c.end <= c.cap == c.p.Length
  }

  ghost predicate AllOk(chunks: seq<Chunk>) {
    forall i :: 0 <= i < |chunks| ==> Ok(chunks[i])
  }

  /** No two chunks share storage. */
  ghost predicate Separate(chunks: seq<Chunk>) {
    forall i, j :: 0 <= i < j < |chunks| ==> chunks[i].p != chunks[j].p
  }

  ghost function StorageOf(chunks: seq<Chunk>): set<array<byte>> {
    set i | 0 <= i < |chunks| :: chunks[i].p
  }

  /** The queue that a list of chunks stands for: the last chunk holds the oldest bytes. */
  ghost function Flatten(chunks: seq<Chunk>): seq<byte>
    reads StorageOf(chunks)
    requires AllOk(chunks)
  {
    if chunks == [] then []
    else
      assert Ok(chunks[0]) && AllOk(chunks[1..]);
      assert forall i :: 0 <= i < |chunks[1..]| ==> chunks[1..][i] == chunks[i + 1];
      Flatten(chunks[1..]) + chunks[0].p[chunks[0].offset..chunks[0].end]
  }

  /** Only the front chunk may be empty, and then it is unused and has room. */
  ghost predicate OnlyFrontEmpty(chunks: seq<Chunk>) {
    forall i :: 0 <= i < |chunks| ==>
      chunks[i].offset < chunks[i].end || (i == 0 && chunks[i].end == 0 < chunks[i].cap)
  }

  lemma {:induction false} FlattenFront(chunks: seq<Chunk>)
    requires AllOk(chunks) && chunks != []
    ensures var c, behind := chunks[0], chunks[1..];
            AllOk(behind) && Ok(c) && Flatten(chunks) == Flatten(behind) + c.p[c.offset..c.end]
  {}

  lemma {:induction false} FlattenBack(chunks: seq<Chunk>)
    requires AllOk(chunks) && chunks != []
    ensures var c, front := chunks[|chunks| - 1], chunks[..|chunks| - 1];
            AllOk(front) && Ok(c) && Flatten(chunks) == c.p[c.offset..c.end] + Flatten(front)
    decreases |chunks|
  {
    var c, front := chunks[|chunks| - 1], chunks[..|chunks| - 1];
    if |chunks| > 1 {
      FlattenBack(chunks[1..]);
      assert chunks[1..][..|chunks| - 2] == front[1..];
    }
  }

  lemma {:induction false} FlattenConcat(a: seq<Chunk>, b: seq<Chunk>)
    requires AllOk(a) && AllOk(b)
    ensures AllOk(a + b) && Flatten(a + b) == Flatten(b) + Flatten(a)
    decreases |a|
  {
    if a == [] {
      assert a + b == b;
    } else {
      assert (a + b)[1..] == a[1..] + b;
      FlattenConcat(a[1..], b);
    }
  }

  lemma {:induction false} StorageSame(a: seq<Chunk>, b: seq<Chunk>)
    requires |a| == |b| && forall i :: 0 <= i < |a| ==> a[i].p == b[i].p
    ensures StorageOf(a) == StorageOf(b)
  {
    forall x: array<byte> | x in StorageOf(a) ensures x in StorageOf(b) {
      var i :| 0 <= i < |a| && a[i].p == x;
      assert b[i].p == x;
    }
    forall x: array<byte> | x in StorageOf(b) ensures x in StorageOf(a) {
      var i :| 0 <= i < |b| && b[i].p == x;
      assert a[i].p == x;
    }
  }

  /** The queue depends only on the storage of its chunks. */
  twostate lemma {:induction false} FlattenSame(chunks: seq<Chunk>)
    requires AllOk(chunks)
    requires forall i :: 0 <= i < |chunks| ==> chunks[i].p[..] == old(chunks[i].p[..])
    ensures Flatten(chunks) == old(Flatten(chunks))
    decreases |chunks|
  {
    if chunks != [] {
      assert forall i :: 0 <= i < |chunks[1..]| ==> chunks[1..][i] == chunks[i + 1];
      FlattenSame(chunks[1..]);
      var c := chunks[0];
      assert c.p[c.offset..c.end] == c.p[..][c.offset..c.end];
      assert old(c.p[c.offset..c.end]) == old(c.p[..])[c.offset..c.end];
    }
  }

  lemma {:induction false} FirstPart(a: seq<byte>, b: seq<byte>, k: nat)
    requires k <= |a|
    ensures (a + b)[..k] == a[..k]
  {}

  lemma {:induction false} LastPart(a: seq<byte>, b: seq<byte>)
    ensures (a + b)[|a|..] == b
  {}

  lemma {:induction false} Shift(a: seq<byte>, b: seq<byte>, c: seq<byte>)
    ensures a + (b + c) == (a + b) + c
  {}

  lemma {:induction false} Rejoin(a: seq<byte>, data: seq<byte>, k: nat)
    requires k <= |data|
    ensures a + data[..k] + data[k..] == a + data == a + data[..|data|]
  {}

  /** Without empty chunks behind the front, no data means no chunk but an unused front. */
  lemma {:induction false} OldestHasData(chunks: seq<Chunk>)
    requires AllOk(chunks) && OnlyFrontEmpty(chunks) && Flatten(chunks) != []
    ensures chunks != [] && chunks[|chunks| - 1].offset < chunks[|chunks| - 1].end
  {
    if |chunks| == 1 {
      assert Flatten(chunks[1..]) == [];
    }
  }

  // ---------------------------------------------------------------- when `data` ends

  /** The loop of `data`: the list, and how many bytes are still to be copied. */
  datatype Gathering = Gathering(chunks: seq<Chunk>, left: nat)

  /** One round of the loop. An empty oldest chunk leaves everything as it is. */
  function Round(g: Gathering): Gathering {
    if g.left == 0 || g.chunks == [] then g
    else
      var last := |g.chunks| - 1;
      var c := g.chunks[last];
      if c.end <= c.offset then g
      else if g.left >= c.end - c.offset then Gathering(g.chunks[..last], g.left - (c.end - c.offset))
      else Gathering(g.chunks[last := c.(offset := c.offset + g.left)], 0)
  }

  function Rounds(g: Gathering, k: nat): Gathering
    decreases k
  {
    if k == 0 then g else Rounds(Round(g), k - 1)
  }

  /** The bytes in the chunks behind the oldest empty one, or in all chunks if none is empty. */
  function Reach(chunks: seq<Chunk>): nat {
    if chunks == [] then 0
    else
      var c := chunks[|chunks| - 1];
      if c.end <= c.offset then 0 else c.end - c.offset + Reach(chunks[..|chunks| - 1])
  }

  /** A round keeps the difference between what can be reached and what is left. */
  lemma {:induction false} RoundReach(g: Gathering)
    ensures Reach(Round(g).chunks) - Round(g).left == Reach(g.chunks) - g.left
    ensures 0 < g.left <= Reach(g.chunks) ==> Round(g).left < g.left
  {
    if g.chunks != [] {
      var last := |g.chunks| - 1;
      assert Round(g).chunks == g.chunks || Round(g).chunks[..last] == g.chunks[..last];
    }
  }

  /** The loop never ends if more is wanted than it can reach. */
  lemma {:induction false} NeverDone(g: Gathering, k: nat)
    requires Reach(g.chunks) < g.left
    ensures Rounds(g, k).left > 0
    decreases k
  {
    if k > 0 {
      RoundReach(g);
      NeverDone(Round(g), k - 1);
    }
  }

  /** Otherwise it ends. */
  lemma {:induction false} Done(g: Gathering) returns (k: nat)
    requires g.left <= Reach(g.chunks)
    ensures Rounds(g, k).left == 0
    decreases g.left
  {
    if g.left == 0 {
      k := 0;
    } else {
      RoundReach(g);
      k := Done(Round(g));
      k := k + 1;
    }
  }

  /** The loop of `data` ends if and only if no empty chunk lies before the end of the bytes asked for. */
  lemma {:induction false} DataEnds(chunks: seq<Chunk>, len: nat)
    ensures (exists k: nat :: Rounds(Gathering(chunks, len), k).left == 0) <==> len <= Reach(chunks)
  {
    if len <= Reach(chunks) {
      var k := Done(Gathering(chunks, len));
    } else {
      forall k: nat ensures Rounds(Gathering(chunks, len), k).left != 0 {
        NeverDone(Gathering(chunks, len), k);
      }
    }
  }

  lemma {:induction false} OldestReached(chunks: seq<Chunk>)
    requires Reach(chunks) > 0
    ensures chunks != [] && chunks[|chunks| - 1].offset < chunks[|chunks| - 1].end
  {}

  lemma {:induction false} ReachWithin(chunks: seq<Chunk>)
    requires AllOk(chunks)
    ensures Reach(chunks) <= |Flatten(chunks)|
  {
    if chunks != [] {
      FlattenBack(chunks);
      ReachWithin(chunks[..|chunks| - 1]);
    }
  }

  /** With no empty chunk behind the front, `data` ends for every length that there is. */
  lemma {:induction false} TidyReach(chunks: seq<Chunk>)
    requires AllOk(chunks) && OnlyFrontEmpty(chunks)
    ensures Reach(chunks) == |Flatten(chunks)|
  {
    if chunks != [] {
      FlattenBack(chunks);
      TidyReach(chunks[..|chunks| - 1]);
      if |chunks| == 1 {
        assert chunks[..0] == [] && Flatten(chunks[..0]) == [];
      }
    }
  }

  // ---------------------------------------------------------------- the queue

  /** Some of the oldest chunks are gone, and the oldest that is left may have lost some of its data, but not all. */
  predicate Drained(before: seq<Chunk>, after: seq<Chunk>) {
    && |after| <= |before|
    && (after != [] ==>
          var last := |after| - 1;
          var c, o := after[last], before[last];
          && after[..last] == before[..last] && c == o.(offset := c.offset)
          && (c.offset == o.offset || o.offset < c.offset < c.end))
  }

  /** The list from its first chunk that holds data on. */
  function WithoutEmptyFront(chunks: seq<Chunk>): (r: seq<Chunk>)
    ensures |r| <= |chunks| && r == chunks[|chunks| - |r|..] && (r != [] ==> r[0].offset != r[0].end)
    ensures forall i | 0 <= i < |chunks| - |r| :: chunks[i].offset == chunks[i].end
  {
    if chunks == [] || chunks[0].offset != chunks[0].end then chunks else WithoutEmptyFront(chunks[1..])
  }

  class ByteQueue {
    var chunks: seq<Chunk>
    var size: nat
    var defaultChunkSize: nat

    ghost function Storage(): set<array<byte>>
      reads this
    {
      StorageOf(chunks)
    }

    ghost predicate Valid()
      reads this, Storage()
    {
      AllOk(chunks) && Separate(chunks) && size == |Flatten(chunks)|
    }

    /** The bytes in the queue, the oldest first. */
    ghost function Contents(): seq<byte>
      reads this, Storage()
      requires Valid()
    {
      Flatten(chunks)
    }

    ghost predicate Tidy()
      reads this
    {
      OnlyFrontEmpty(chunks)
    }

    /** Free bytes of the front chunk. */
    function Room(): nat
      reads this`chunks
    {
      if chunks == [] || chunks[0].cap < chunks[0].end then 0 else chunks[0].cap - chunks[0].end
    }

    /** Writes elsewhere leave the queue as it is. */
    twostate lemma Untouched()
      requires old(Valid()) && chunks == old(chunks) && size == old(size)
      requires forall i :: 0 <= i < |chunks| ==> chunks[i].p[..] == old(chunks[i].p[..])
      ensures Valid() && Contents() == old(Contents())
    {
      hide Flatten;
      FlattenSame(chunks);
    }

    constructor ()
      ensures Valid() && Tidy() && Contents() == [] && Storage() == {} && defaultChunkSize == 4096 && chunks == []
    {
      chunks, size, defaultChunkSize := [], 0, 4096;
    }

    /** The first `n` bytes of `data` into the free room of the front chunk. */
    method FillFront(data: seq<byte>)
      requires Valid() && chunks != [] && |data| <= chunks[0].cap - chunks[0].end
      modifies this`chunks, this`size, chunks[0].p
      ensures Valid() && Contents() == old(Contents()) + data
      ensures Storage() == old(Storage())
      ensures |chunks| == |old(chunks)| && chunks[1..] == old(chunks)[1..]
      ensures chunks[0] == old(chunks[0]).(end := old(chunks[0].end) + |data|)
      ensures old(Tidy()) ==> Tidy()
    {
      hide Flatten, OnlyFrontEmpty, StorageOf;
      var c := chunks[0];
      ghost var before, behind := chunks, chunks[1..];
      ghost var older, newest := Flatten(behind), c.p[c.offset..c.end];
      FlattenFront(chunks);
      CopyIn(c, data);
      chunks := chunks[0 := c.(end := c.end + |data|)];
      size := size + |data|;
      FlattenSame(behind);
      assert chunks[1..] == behind;
      FlattenFront(chunks);
      assert older + (newest + data) == older + newest + data;
      StorageSame(chunks, before);
      if OnlyFrontEmpty(before) {
        if data == [] {
          assert chunks == before;
        } else {
          StillTidy(before, chunks);
        }
      }
    }

    /** `std::copy` of `data` to the free room of a chunk. */
    method CopyIn(c: Chunk, data: seq<byte>)
      requires Ok(c) && |data| <= c.cap - c.end
      modifies c.p
      ensures c.p[c.offset..c.end + |data|] == old(c.p[c.offset..c.end]) + data
    {
      forall k | 0 <= k < |data| {
        c.p[c.end + k] := data[k];
      }
    }

    /** `push`; `allocOk` is false where the new chunk gets no storage. */
    method Push(data: seq<byte>, allocOk: bool) returns (n: nat)
      requires Valid()
      modifies this`chunks, this`size, Storage()
      ensures Valid() && fresh(Storage() - old(Storage()))
      ensures n <= |data| && Contents() == old(Contents()) + data[..n]
      ensures n == if allocOk || |data| <= old(Room()) then |data| else old(Room())
      ensures Room() >= old(Room()) - n
      ensures allocOk && |data| > old(Room()) ==>
                var left := |data| - old(Room());
                && Room() == (if left > defaultChunkSize then left else defaultChunkSize) - left
                && |chunks| == |old(chunks)| + 1
      ensures !allocOk || |data| <= old(Room()) ==> Room() == old(Room()) - n
      ensures old(Room()) == 0 && n > 0 ==> chunks != [] && chunks[1..] == old(chunks)
      ensures old(Tidy()) ==> Tidy()
    {
      hide Flatten, Separate;
      var left := data;
      if chunks != [] && chunks[0].cap > chunks[0].end {
        var room := chunks[0].cap - chunks[0].end;
        var toCopy := if room < |data| then room else |data|;
        FillFront(data[..toCopy]);
        left := data[toCopy..];
        assert left == [] ==> data[..toCopy] == data;
        Rejoin(old(Contents()), data, toCopy);
      }
      if left == [] {
        return |data|;
      }
      var chunkSize := if |left| > defaultChunkSize then |left| else defaultChunkSize;
      if !allocOk {
        return |data| - |left|;
      }
      PushChunk(left, chunkSize);
      return |data|;
    }

    /** A new front chunk of `cap` bytes that starts with `data`. */
    method PushChunk(data: seq<byte>, cap: nat)
      requires Valid() && 0 < |data| <= cap
      modifies this`chunks, this`size
      ensures Valid() && Contents() == old(Contents()) + data
      ensures chunks != [] && chunks[1..] == old(chunks) && fresh(chunks[0].p)
      ensures chunks[0].offset == 0 && chunks[0].end == |data| && chunks[0].cap == cap
      ensures Storage() == old(Storage()) + {chunks[0].p}
      ensures old(Tidy()) && (old(chunks) == [] || old(chunks[0].end) > 0) ==> Tidy()
    {
      hide Flatten;
      var p := new byte[cap];
      forall k | 0 <= k < |data| {
        p[k] := data[k];
      }
      FlattenSame(chunks);
      assert p[0..|data|] == data;
      AddFront(Chunk(p, 0, |data|, cap));
    }

    /** `chunk_list_.push_front` of a chunk with storage of its own, counting its data. */
    method AddFront(c: Chunk)
      requires Valid() && Ok(c) && c.p !in Storage()
      modifies this`chunks, this`size
      ensures Valid() && chunks == [c] + old(chunks) && Storage() == old(Storage()) + {c.p}
      ensures Contents() == old(Contents()) + c.p[c.offset..c.end]
      ensures old(Tidy()) && (c.offset < c.end || c.end == 0 < c.cap) ==>
                (old(chunks) == [] || old(chunks[0].end) > 0 ==> Tidy())
    {
      ghost var before := chunks;
      chunks := [c] + chunks;
      size := size + (c.end - c.offset);
      assert chunks[1..] == before;
    }

    /** Drops the last chunk; `taken` is its data, the oldest bytes. */
    method PopBack() returns (ghost taken: seq<byte>)
      requires AllOk(chunks) && Separate(chunks) && chunks != []
      modifies this`chunks
      ensures chunks == old(chunks)[..|old(chunks)| - 1]
      ensures AllOk(chunks) && Separate(chunks) && Storage() <= old(Storage())
      ensures old(Tidy()) ==> Tidy()
      ensures var c := old(chunks)[|old(chunks)| - 1]; taken == c.p[c.offset..c.end]
      ensures old(Flatten(chunks)) == taken + Flatten(chunks)
    {
      FlattenBack(chunks);
      var c := chunks[|chunks| - 1];
      taken := c.p[c.offset..c.end];
      chunks := chunks[..|chunks| - 1];
    }

    /** Advances the offset of the last chunk over `n` bytes, not all of its data. */
    method SkipBack(n: nat) returns (ghost taken: seq<byte>)
      requires AllOk(chunks) && Separate(chunks) && chunks != []
      requires n < chunks[|chunks| - 1].end - chunks[|chunks| - 1].offset
      modifies this`chunks
      ensures AllOk(chunks) && Separate(chunks) && Storage() == old(Storage())
      ensures old(Tidy()) ==> Tidy()
      ensures var last := |old(chunks)| - 1;
        var c := old(chunks)[last];
        taken == c.p[c.offset..c.offset + n] && chunks == old(chunks)[last := c.(offset := c.offset + n)]
      ensures old(Flatten(chunks)) == taken + Flatten(chunks)
    {
      hide OnlyFrontEmpty, Flatten;
      var last := |chunks| - 1;
      var c := chunks[last];
      ghost var before, front := chunks, chunks[..last];
      ghost var rest := c.p[c.offset + n..c.end];
      taken := c.p[c.offset..c.offset + n];
      FlattenBack(chunks);
      assert c.p[c.offset..c.end] == taken + rest;
      assert taken + rest + Flatten(front) == taken + (rest + Flatten(front));
      chunks := chunks[last := c.(offset := c.offset + n)];
      if OnlyFrontEmpty(before) {
        StillTidy(before, chunks);
      }
      StorageSame(chunks, before);
      assert chunks[..last] == front;
      FlattenSame(front);
      FlattenBack(chunks);
    }

    method Drain(len: nat) returns (n: nat)
      requires Valid()
      modifies this`chunks, this`size
      ensures Valid() && Storage() <= old(Storage())
      ensures n == if len < |old(Contents())| then len else |old(Contents())|
      ensures Contents() == old(Contents())[n..]
      ensures Drained(old(chunks), chunks)
      ensures old(Tidy()) ==> Tidy()
    {
      hide StorageOf, Flatten, OnlyFrontEmpty, Separate;
      ghost var all, drained := Contents(), [];
      var drainLen := 0;
      while drainLen < len && chunks != []
        invariant AllOk(chunks) && Separate(chunks) && Storage() <= old(Storage()) && size == old(size)
        invariant drainLen == |drained| <= len
        invariant all == drained + Flatten(chunks)
        invariant |chunks| <= |old(chunks)| && chunks == old(chunks)[..|chunks|]
        invariant old(Tidy()) ==> Tidy()
        decreases |chunks|
      {
        var ch := chunks[|chunks| - 1];
        ghost var taken;
        if len - drainLen >= ch.end - ch.offset {
          drainLen := drainLen + (ch.end - ch.offset);
          taken := PopBack();
          Shift(drained, taken, Flatten(chunks));
          drained := drained + taken;
        } else {
          taken := SkipBack(len - drainLen);
          Shift(drained, taken, Flatten(chunks));
          drained := drained + taken;
          LastPart(drained, Flatten(chunks));
          size := size - len;
          return len;
        }
      }
      FlattenNil();
      LastPart(drained, Flatten(chunks));
      size := size - drainLen;
      return drainLen;
    }

    /** `data`: makes the oldest `len` bytes contiguous and points to them, or null, wherever the source ends. */
    method Data(len: nat, allocOk: bool) returns (p: array?<byte>, at: nat)
      requires Valid() && (len > 0 || chunks != [])
      requires allocOk && len <= size ==> len <= Reach(chunks)
      modifies this`chunks
      ensures Valid() && Contents() == old(Contents()) && fresh(Storage() - old(Storage()))
      ensures old(Tidy()) ==> Tidy()
      ensures p == null <==>
        || len > |Contents()|
        || (!allocOk && old(chunks) != [] && var c := old(chunks)[|old(chunks)| - 1]; len > c.end - c.offset)
      ensures p != null ==> p in Storage() && at + len <= p.Length && p[at..at + len] == Contents()[..len]
    {
      hide StorageOf, Flatten, Separate, OnlyFrontEmpty;
      if size < len {
        return null, 0;
      }
      if chunks == [] {
        FlattenNil();
        assert false;
      }
      var ch := chunks[|chunks| - 1];
      FlattenBack(chunks);
      if len <= ch.end - ch.offset {
        InStorage(chunks, |chunks| - 1);
        ghost var oldest := ch.p[ch.offset..ch.end];
        FirstPart(oldest, Flatten(chunks[..|chunks| - 1]), len);
        assert oldest[..len] == ch.p[ch.offset..ch.offset + len];
        return ch.p, ch.offset;
      }
      if !allocOk {
        return null, 0;
      }
      p := Gather(len);
      return p, 0;
    }

    /** Moves the oldest `len` bytes into a chunk of their own. */
    method Gather(len: nat) returns (p: array<byte>)
      requires Valid() && 0 < len <= size && len <= Reach(chunks)
      modifies this`chunks
      ensures Valid() && Contents() == old(Contents()) && (old(Tidy()) ==> Tidy())
      ensures fresh(p) && p.Length == len && p in Storage() && Storage() <= old(Storage()) + {p}
      ensures p[..] == Contents()[..len]
    {
      hide Flatten, Separate, OnlyFrontEmpty, Reach, Round;
      p := new byte[len];
      FlattenSame(chunks);
      ghost var moved := [];
      var copied := 0;
      while copied < len
        invariant AllOk(chunks) && Separate(chunks) && Storage() <= old(Storage()) && size == old(size)
        invariant old(Tidy()) ==> Tidy()
        invariant copied == |moved| <= len && p[..copied] == moved && len - copied <= Reach(chunks)
        invariant old(Contents()) == moved + Flatten(chunks)
        decreases len - copied
      {
        OldestReached(chunks);
        RoundReach(Gathering(chunks, len - copied));
        var ch := chunks[|chunks| - 1];
        if ch.end > ch.offset {
          var toCopy := MoveOldest(p, copied, len);
          copied := copied + toCopy;
          moved := p[..copied];
        }
      }
      AddBack(Chunk(p, 0, len, len));
      assert p[..] == p[0..len] == moved;
    }

    /** The oldest bytes, no more than the last chunk has or `p[..len]` still needs, move to `p + at`. */
    method MoveOldest(p: array<byte>, at: nat, len: nat) returns (n: nat)
      requires AllOk(chunks) && Separate(chunks) && chunks != [] && p !in Storage() && at < len <= p.Length
      requires chunks[|chunks| - 1].offset < chunks[|chunks| - 1].end
      modifies this`chunks, p
      ensures AllOk(chunks) && Separate(chunks) && Storage() <= old(Storage()) && (old(Tidy()) ==> Tidy())
      ensures 0 < n && at + n <= len
      ensures Gathering(chunks, len - at - n) == Round(Gathering(old(chunks), len - at))
      ensures p[..at] == old(p[..at]) && old(Flatten(chunks)) == p[at..at + n] + Flatten(chunks)
    {
      hide Flatten, Separate, OnlyFrontEmpty, StorageOf;
      var ch := chunks[|chunks| - 1];
      n := if ch.end - ch.offset < len - at then ch.end - ch.offset else len - at;
      ghost var oldest := ch.p[ch.offset..ch.offset + n];
      CopyOldest(p, at, n);
      ghost var taken;
      if n >= ch.end - ch.offset {
        taken := PopBack();
      } else {
        taken := SkipBack(n);
      }
      assert p[at..at + n] == p[..at + n][at..] == oldest == taken;
    }

    /** `std::copy` of the oldest `n` bytes, all from the last chunk, to `p + at`. */
    method CopyOldest(p: array<byte>, at: nat, n: nat)
      requires AllOk(chunks) && chunks != [] && p !in Storage()
      requires at + n <= p.Length && n <= chunks[|chunks| - 1].end - chunks[|chunks| - 1].offset
      modifies p
      ensures var c := chunks[|chunks| - 1];
              p[..at + n] == old(p[..at]) + old(c.p[c.offset..c.offset + n])
      ensures Flatten(chunks) == old(Flatten(chunks))
      ensures forall i :: 0 <= i < |chunks| ==> chunks[i].p[..] == old(chunks[i].p[..])
    {
      hide Flatten;
      var c := chunks[|chunks| - 1];
      assert forall i :: 0 <= i < |chunks| ==> chunks[i].p in Storage();
      forall k | 0 <= k < n {
        p[at + k] := c.p[c.offset + k];
      }
      FlattenSame(chunks);
    }

    /** `chunk_list_.push_back` of a chunk with data. */
    method AddBack(c: Chunk)
      requires AllOk(chunks) && Separate(chunks) && Ok(c) && c.offset < c.end && c.p !in Storage()
      modifies this`chunks
      ensures AllOk(chunks) && Separate(chunks) && (old(Tidy()) ==> Tidy())
      ensures c.p in Storage() && Storage() <= old(Storage()) + {c.p}
      ensures Flatten(chunks) == c.p[c.offset..c.end] + old(Flatten(chunks))
    {
      ghost var before := chunks;
      chunks := chunks + [c];
      InStorage(chunks, |chunks| - 1);
      FlattenSame(before);
      FlattenBack(chunks);
      assert chunks[..|chunks| - 1] == before;
    }

    /** `dataChunk`: the data of the last chunk. */
    method DataChunk() returns (p: array<byte>, at: nat, len: nat)
      requires Valid() && chunks != []
      ensures var c := chunks[|chunks| - 1]; p == c.p && at == c.offset && len == c.end - c.offset
      ensures p in Storage() && at + len <= p.Length
      ensures len <= size && p[at..at + len] == Contents()[..len]
      ensures Tidy() && size > 0 ==> len > 0
    {
      hide Flatten;
      var ch := chunks[|chunks| - 1];
      FlattenBack(chunks);
      if OnlyFrontEmpty(chunks) && size > 0 {
        OldestHasData(chunks);
      }
      return ch.p, ch.offset, ch.end - ch.offset;
    }

    /** The caller may write `p[at..at + len]` before reporting it with SpaceHaveSeted. */
    method Space(len: nat) returns (p: array<byte>, at: nat)
      requires Valid()
      modifies this`chunks, this`size
      ensures Valid() && Contents() == old(Contents()) && fresh(Storage() - old(Storage()))
      ensures chunks != [] && p == chunks[0].p && at == chunks[0].end && at + len <= chunks[0].cap
      ensures if old(chunks) != [] && len <= old(chunks[0].cap - chunks[0].end)
              then chunks == old(chunks)
              else chunks == [Chunk(p, 0, 0, if len > defaultChunkSize then len else defaultChunkSize)]
                             + WithoutEmptyFront(old(chunks))
      ensures old(Tidy()) ==> (Tidy() <==> old(chunks) != [] || len > 0 || defaultChunkSize > 0)
    {
      hide Flatten, Separate, OnlyFrontEmpty, StorageOf, WithoutEmptyFront;
      if chunks != [] {
        var ch := chunks[0];
        if ch.cap - ch.end >= len {
          return ch.p, ch.end;
        }
      }
      DropEmptyFront();
      var newLen := if len > defaultChunkSize then len else defaultChunkSize;
      p := PushEmpty(newLen);
      at := 0;
    }

    /** The loop that drops empty front chunks. */
    method DropEmptyFront()
      requires Valid()
      modifies this`chunks
      ensures Valid() && Contents() == old(Contents()) && Storage() <= old(Storage())
      ensures chunks == WithoutEmptyFront(old(chunks)) && (chunks == [] || chunks[0].offset < chunks[0].end)
      ensures old(Tidy()) ==> Tidy()
    {
      hide Flatten, Separate, OnlyFrontEmpty, StorageOf;
      while chunks != [] && chunks[0].offset == chunks[0].end
        invariant Valid() && Contents() == old(Contents()) && Storage() <= old(Storage())
        invariant WithoutEmptyFront(chunks) == WithoutEmptyFront(old(chunks))
        invariant old(Tidy()) ==> Tidy()
        decreases |chunks|
      {
        PopFront();
      }
    }

    /** Drops an empty front chunk. */
    method PopFront()
      requires Valid() && chunks != [] && chunks[0].offset == chunks[0].end
      modifies this`chunks
      ensures Valid() && chunks == old(chunks)[1..] && Contents() == old(Contents()) && Storage() <= old(Storage())
      ensures old(Tidy()) ==> Tidy()
    {
      hide Flatten;
      FlattenFront(chunks);
      chunks := chunks[1..];
      FlattenSame(chunks);
    }

    /** A new, empty front chunk of `cap` bytes. */
    method PushEmpty(cap: nat) returns (p: array<byte>)
      requires Valid()
      modifies this`chunks, this`size
      ensures Valid() && Contents() == old(Contents())
      ensures chunks == [Chunk(p, 0, 0, cap)] + old(chunks) && fresh(p) && Storage() == old(Storage()) + {p}
      ensures old(Tidy()) && cap > 0 && (old(chunks) == [] || old(chunks[0].end) > 0) ==> Tidy()
      ensures cap == 0 ==> !Tidy()
    {
      hide Flatten;
      p := new byte[cap];
      FlattenSame(chunks);
      AddFront(Chunk(p, 0, 0, cap));
    }

    /** Like Space, for the room the front chunk has, or for a new chunk of the default size. */
    method SpaceChunk() returns (p: array<byte>, at: nat, len: nat)
      requires Valid()
      modifies this`chunks, this`size
      ensures Valid() && Contents() == old(Contents()) && fresh(Storage() - old(Storage()))
      ensures chunks != [] && p == chunks[0].p && at == chunks[0].end && at + len == chunks[0].cap
      ensures if old(chunks) != [] && old(chunks[0].end < chunks[0].cap)
              then chunks == old(chunks)
              else at == 0 && len == defaultChunkSize && chunks == [Chunk(p, 0, 0, len)] + old(chunks)
      ensures old(Tidy()) ==>
                (Tidy() <==> defaultChunkSize > 0 || (old(chunks) != [] && old(chunks[0].end < chunks[0].cap)))
    {
      hide Flatten, Separate;
      if chunks != [] {
        var ch := chunks[0];
        if ch.cap - ch.end > 0 {
          return ch.p, ch.end, ch.cap - ch.end;
        }
      }
      var q := PushEmpty(defaultChunkSize);
      return q, 0, defaultChunkSize;
    }

    /** What a caller of Space or SpaceChunk does: it writes to the free room it was given. */
    method WriteSpace(data: seq<byte>)
      requires Valid() && chunks != [] && |data| <= chunks[0].cap - chunks[0].end
      modifies chunks[0].p
      ensures Valid() && Contents() == old(Contents())
      ensures chunks[0].p[chunks[0].end..chunks[0].end + |data|] == data
    {
      hide Flatten, StorageOf;
      var c := chunks[0];
      FlattenFront(chunks);
      label writing:
      CopyIn(c, data);
      assert c.p[c.offset..c.end + |data|][..c.end - c.offset] == c.p[c.offset..c.end];
      assert c.p[c.offset..c.end + |data|][c.end - c.offset..] == c.p[c.end..c.end + |data|];
      FlattenSame(chunks[1..]);
      FlattenFront(chunks);
    }

    /** Counts the `n` bytes that the caller wrote to the free room of the front chunk. */
    method SpaceHaveSeted(n: nat)
      requires Valid() && chunks != [] && n <= chunks[0].cap - chunks[0].end
      modifies this`chunks, this`size
      ensures Valid() && Storage() == old(Storage())
      ensures Contents() == old(Contents()) + old(chunks[0].p[chunks[0].end..chunks[0].end + n])
      ensures Room() == old(Room()) - n && chunks == old(chunks)[0 := old(chunks[0]).(end := old(chunks[0].end) + n)]
      ensures old(Tidy()) ==> Tidy()
    {
      hide Flatten, OnlyFrontEmpty, StorageOf;
      var c := chunks[0];
      ghost var before, behind := chunks, chunks[1..];
      ghost var written := c.p[c.end..c.end + n];
      ghost var older, newest := Flatten(behind), c.p[c.offset..c.end];
      FlattenFront(chunks);
      assert c.p[c.offset..c.end + n] == newest + written;
      chunks := chunks[0 := c.(end := c.end + n)];
      size := size + n;
      FlattenSame(behind);
      assert chunks[1..] == behind;
      FlattenFront(chunks);
      assert older + (newest + written) == older + newest + written;
      StorageSame(chunks, before);
      if OnlyFrontEmpty(before) {
        if n == 0 {
          assert chunks == before;
        } else {
          StillTidy(before, chunks);
        }
      }
    }

    /** `operator[]`: where byte `i` is stored, or null for the static byte returned past the end. */
    method At(i: nat) returns (p: array?<byte>, at: nat, ghost k: nat)
      requires Valid()
      ensures Valid()
      ensures p == null <==> i >= size
      ensures p != null ==>
                && k < |chunks| && p == chunks[k].p && chunks[k].offset <= at < chunks[k].end
                && |Flatten(chunks[k + 1..])| + (at - chunks[k].offset) == i
                && p[at] == Contents()[i]
    {
      hide Flatten, Separate;
      var cur := 0;
      var j := |chunks|;
      assert chunks[|chunks|..] == [];
      FlattenNil();
      while j > 0
        invariant Valid() && 0 <= j <= |chunks| && cur == |Flatten(chunks[j..])| <= i
        decreases j
      {
        var it := chunks[j - 1];
        FlattenSplit(chunks, j - 1);
        if cur + it.end - it.offset > i {
          assert Contents()[i] == it.p[it.offset..it.end][i - cur];
          return it.p, i - cur + it.offset, j - 1;
        }
        cur := cur + (it.end - it.offset);
        j := j - 1;
      }
      assert chunks[0..] == chunks;
      return null, 0, 0;
    }

    /** `b[i] = v` through the reference that `operator[]` returns. */
    method Assign(i: nat, v: byte)
      requires Valid() && i < size
      modifies Storage()
      ensures Valid() && Contents() == old(Contents())[i := v]
    {
      hide Flatten;
      var p, at, k := At(i);
      InStorage(chunks, k);
      FlattenSame(chunks);
      FlattenSplit(chunks, k);
      ghost var c := chunks[k];
      ghost var older, middle, newer := Flatten(chunks[k + 1..]), c.p[c.offset..c.end], Flatten(chunks[..k]);
      label located:
      p[at] := v;
      FlattenSame@located(chunks[k + 1..]);
      FlattenSame@located(chunks[..k]);
      FlattenSplit(chunks, k);
      assert c.p[c.offset..c.end] == middle[at - c.offset := v];
      ghost var all: seq<byte> := older + middle + newer;
      assert older + middle[at - c.offset := v] + newer == all[i := v];
    }

    method Swap(x: ByteQueue)
      requires Valid() && x.Valid()
      modifies this, x
      ensures Valid() && x.Valid() && Storage() == old(x.Storage()) && x.Storage() == old(Storage())
      ensures Contents() == old(x.Contents()) && x.Contents() == old(Contents())
      ensures chunks == old(x.chunks) && x.chunks == old(chunks) && size == old(x.size) && x.size == old(size)
      ensures defaultChunkSize == old(x.defaultChunkSize) && x.defaultChunkSize == old(defaultChunkSize)
      ensures (Tidy() <==> old(x.Tidy())) && (x.Tidy() <==> old(Tidy()))
    {
      hide Flatten, StorageOf, OnlyFrontEmpty, Separate;
      ghost var mine, theirs := chunks, x.chunks;
      x.size, size := size, x.size;
      x.defaultChunkSize, defaultChunkSize := defaultChunkSize, x.defaultChunkSize;
      x.chunks, chunks := chunks, x.chunks;
      FlattenSame(mine);
      FlattenSame(theirs);
    }
  }

  /** A chunk's data lies between that of the older chunks behind it and the newer ones before it. */
  lemma {:induction false} FlattenSplit(chunks: seq<Chunk>, k: nat)
    requires AllOk(chunks) && k < |chunks|
    ensures var c := chunks[k];
            && AllOk(chunks[k + 1..]) && AllOk(chunks[k..]) && AllOk(chunks[..k]) && Ok(c)
            && Flatten(chunks[k..]) == Flatten(chunks[k + 1..]) + c.p[c.offset..c.end]
            && Flatten(chunks) == Flatten(chunks[k + 1..]) + c.p[c.offset..c.end] + Flatten(chunks[..k])
  {
    hide Flatten;
    assert chunks == chunks[..k] + chunks[k..];
    FlattenConcat(chunks[..k], chunks[k..]);
    FlattenFront(chunks[k..]);
    assert chunks[k..][1..] == chunks[k + 1..];
  }

  lemma {:induction false} InStorage(chunks: seq<Chunk>, i: nat)
    requires i < |chunks|
    ensures chunks[i].p in StorageOf(chunks)
  {}

  lemma {:induction false} StillTidy(a: seq<Chunk>, b: seq<Chunk>)
    requires OnlyFrontEmpty(a) && |a| == |b|
    requires forall i :: 0 <= i < |a| ==> b[i] == a[i] || b[i].offset < b[i].end
    ensures OnlyFrontEmpty(b)
  {}

  lemma FlattenNil()
    ensures Flatten([]) == []
  {}

  /**
   * With a default chunk size of 0 the queue can hold one byte that `data(1)` never delivers: `spaceChunk` leaves an
   * empty chunk, and `push` puts a new one in front of it.
   */
  method Stalled(b: byte) returns (q: ByteQueue)
    ensures q.Valid() && q.Contents() == [b] && q.size == 1
    ensures !q.Tidy() && Reach(q.chunks) == 0
    ensures forall k: nat :: Rounds(Gathering(q.chunks, 1), k).left > 0
  {
    hide Flatten, Separate, StorageOf, AllOk, OnlyFrontEmpty, Reach, Rounds;
    q := new ByteQueue();
    q.defaultChunkSize := 0;
    var p, at, len := q.SpaceChunk();
    var n := q.Push([b], true);
    assert q.chunks[1] == q.chunks[1..][0] == Chunk(p, 0, 0, 0) && |q.chunks| == 2;
    assert [] + [b][..n] == [b];
    EmptyBehind(q.chunks);
  }

  lemma {:induction false} EmptyBehind(chunks: seq<Chunk>)
    requires |chunks| == 2 && chunks[1].offset == chunks[1].end
    ensures !OnlyFrontEmpty(chunks) && Reach(chunks) == 0
    ensures forall k: nat :: Rounds(Gathering(chunks, 1), k).left > 0
  {
    forall k: nat ensures Rounds(Gathering(chunks, 1), k).left > 0 {
      NeverDone(Gathering(chunks, 1), k);
    }
  }
}
