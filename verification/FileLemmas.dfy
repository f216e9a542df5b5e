/** What a write, a truncate and a flush do to a buffered file, as functions of
    it, and that each does to the bytes what it would do to a plain file. */
module FileLemmas {
  import opened Wrappers
  import opened FileState

  // Writing.

  function RefBytes(c: ChunkRef): seq<Byte> {
    match c
    case Hole(n) => Zeros(n)
    case Stored(h, _) => h.preimage
  }

  /** What a write into chunk idx starts from: its buffer, or the part of its
      chunk no pending trim has cut. */
  function Base(f: File, idx: nat): seq<Byte> {
    if idx in f.dirty then f.dirty[idx].data
    else if idx >= |f.chunks| then []
    else
      var loaded := RefBytes(f.chunks[idx]);
      if idx in f.trims && f.trims[idx].to < |loaded| then loaded[..f.trims[idx].to] else loaded
  }

  /** base, zero-filled as far as the piece needs, with the piece at within. */
  function Patch(base: seq<Byte>, within: nat, piece: seq<Byte>): (r: seq<Byte>)
    ensures |r| == if |base| < within + |piece| then within + |piece| else |base|
    ensures forall w :: 0 <= w < |r| ==>
              r[w] == if within <= w < within + |piece| then piece[w - within] else if w < |base| then base[w] else 0
  {
    var b := if |base| < within + |piece| then base + Zeros(within + |piece| - |base|) else base;
    b[..within] + piece + b[within + |piece|..]
  }

  /** One chunk's part of a write: the buffer takes the piece, the trim goes. */
  function Wrote(f: File, idx: nat, within: nat, piece: seq<Byte>): File {
    var end := idx * f.cs + within + |piece|;
    f.(dirty := f.dirty[idx := Buffer(Patch(Base(f, idx), within, piece), f.cs)],
       trims := f.trims - {idx},
       size := if f.size < end then end else f.size)
  }

  lemma BaseBytes(f: File, idx: nat, w: nat)
    requires Valid(f)
    ensures ByteOf(f, idx, w) == if w < |Base(f, idx)| then Base(f, idx)[w] else 0
    ensures |Base(f, idx)| <= f.cs
    ensures idx !in f.dirty ==> Base(f, idx) == [] || idx < |f.chunks|
  {
    assert idx in f.dirty ==> BufferInv(f, idx);
    assert idx in f.trims ==> TrimInv(f, idx);
    assert idx < |f.chunks| ==> WellSized(f, idx);
  }

  lemma WroteBytes(f: File, idx: nat, within: nat, piece: seq<Byte>, i: nat)
    requires Valid(f) && within + |piece| <= f.cs
    ensures var at := idx * f.cs + within;
            ByteAt(Wrote(f, idx, within, piece), i) ==
              if at <= i < at + |piece| then piece[i - at] else ByteAt(f, i)
  {
    InChunk(i, f.cs, idx);
    BaseBytes(f, idx, i % f.cs);
    if i / f.cs == idx {
      assert i % f.cs < f.cs;
    }
  }

  /** The buffer a write leaves: what it holds past the end is zeros. */
  lemma WroteBuffer(f: File, idx: nat, within: nat, piece: seq<Byte>)
    requires Valid(f) && 0 < |piece| && within + |piece| <= f.cs
    ensures BufferInv(Wrote(f, idx, within, piece), idx)
  {
    var g := Wrote(f, idx, within, piece);
    BaseBytes(f, idx, 0);
    forall w | 0 <= w < |g.dirty[idx].data| && g.dirty[idx].data[w] != 0 ensures idx * g.cs + w < g.size {
      if !(within <= w < within + |piece|) {
        BaseBytes(f, idx, w);
        InChunk(idx * f.cs + w, f.cs, idx);
        ZeroPastEnd(f, idx * f.cs + w);
      }
    }
  }

  lemma WroteKeeps(f: File, idx: nat, within: nat, piece: seq<Byte>)
    requires Valid(f) && 0 < |piece| && within + |piece| <= f.cs
    ensures Valid(Wrote(f, idx, within, piece))
  {
    var g := Wrote(f, idx, within, piece);
    WroteBuffer(f, idx, within, piece);
    forall j | j in g.dirty ensures BufferInv(g, j) {
      if j != idx { assert BufferInv(f, j); }
    }
    forall j | j in g.trims ensures TrimInv(g, j) {
      assert TrimInv(f, j);
    }
    forall j | 0 <= j < |g.chunks| ensures WellSized(g, j) && ExtentInv(g, j) {
      assert WellSized(f, j) && ExtentInv(f, j);
      assert Hidden(f, j) ==> Hidden(g, j);
    }
  }

  predicate IsOverwrite(s: seq<Byte>, off: nat, data: seq<Byte>, r: seq<Byte>) {
    && |r| == (if data != [] && |s| < off + |data| then off + |data| else |s|)
    && forall i :: 0 <= i < |r| ==>
         r[i] == if off <= i < off + |data| then data[i - off] else if i < |s| then s[i] else 0
  }

  /** Overwrite is the one sequence IsOverwrite describes. */
  lemma OverwriteBytes(s: seq<Byte>, off: nat, data: seq<Byte>, r: seq<Byte>)
    ensures IsOverwrite(s, off, data, r) <==> r == Overwrite(s, off, data)
  {
    assert IsOverwrite(s, off, data, Overwrite(s, off, data));
  }

  /** A chunk's part of a write is that part of the write to the bytes. */
  lemma WroteIsOverwrite(f: File, idx: nat, within: nat, piece: seq<Byte>, at: nat)
    requires Valid(f) && 0 < |piece| && within + |piece| <= f.cs && at == idx * f.cs + within
    ensures IsOverwrite(Content(f), at, piece, Content(Wrote(f, idx, within, piece)))
  {
    var s, r := Content(f), Content(Wrote(f, idx, within, piece));
    forall i | 0 <= i < |r|
      ensures r[i] == if at <= i < at + |piece| then piece[i - at] else if i < |s| then s[i] else 0
    {
      WroteAt(f, idx, within, piece, at, i);
    }
  }

  lemma WroteAt(f: File, idx: nat, within: nat, piece: seq<Byte>, at: nat, i: nat)
    requires Valid(f) && 0 < |piece| && within + |piece| <= f.cs && at == idx * f.cs + within
    requires i < Wrote(f, idx, within, piece).size
    ensures Content(Wrote(f, idx, within, piece))[i] ==
              if at <= i < at + |piece| then piece[i - at] else if i < f.size then Content(f)[i] else 0
  {
    WroteBytes(f, idx, within, piece, i);
    ZeroPastEnd(f, i);
  }

  /** Writing one run of bytes and then the next is writing both at once. */
  lemma OverwriteTwice(s: seq<Byte>, off: nat, a: seq<Byte>, b: seq<Byte>, r: seq<Byte>, t: seq<Byte>)
    requires b != [] && IsOverwrite(s, off, a, r) && IsOverwrite(r, off + |a|, b, t)
    ensures IsOverwrite(s, off, a + b, t)
  {
    forall i | 0 <= i < |t|
      ensures t[i] == if off <= i < off + |a + b| then (a + b)[i - off] else if i < |s| then s[i] else 0
    {
      if i < |r| { assert r[i] == if off <= i < off + |a| then a[i - off] else if i < |s| then s[i] else 0; }
    }
  }

  // Truncating.

  /** Whether an index lies wholly at or past a new end inside chunk last. */
  predicate Cut(idx: nat, last: nat, tail: nat) {
    idx > last || (idx == last && tail == 0)
  }

  function KeptBuffers(f: File, last: nat, tail: nat): map<nat, Buffer> {
    var kept := map idx | idx in f.dirty && !Cut(idx, last, tail) :: f.dirty[idx];
    if tail != 0 && last in kept && |kept[last].data| > tail
    then kept[last := Buffer(kept[last].data[..tail], kept[last].cap)] else kept
  }

  function KeptChunks(f: File, last: nat, tail: nat): seq<ChunkRef> {
    var keep := if tail != 0 then last + 1 else last;
    if |f.chunks| > keep then f.chunks[..keep] else f.chunks
  }

  /** A new end inside a stored chunk that is not dirty is a pending trim, unless
      the file already ends there or earlier; only the smallest length is kept. */
  function KeptTrims(f: File, last: nat, tail: nat): map<nat, Trim> {
    var kept := map idx | idx in f.trims && !Cut(idx, last, tail) :: f.trims[idx];
    var chunks := KeptChunks(f, last, tail);
    if tail != 0 && last !in f.dirty && |chunks| == last + 1 && chunks[last].Stored?
       && tail < (if last in kept then kept[last].to else chunks[last].size)
    then kept[last := Trim(tail, chunks[last])] else kept
  }

  function Holes(n: nat, cs: nat): seq<ChunkRef> {
    seq(n, (_: nat) => Hole(cs))
  }

  function Truncated(f: File, size: nat): File
    requires f.cs > 0
  {
    var last, tail := size / f.cs, size % f.cs;
    var chunks := KeptChunks(f, last, tail);
    f.(size := size, dirty := KeptBuffers(f, last, tail), trims := KeptTrims(f, last, tail),
       chunks := if size > f.size && |chunks| < last then chunks + Holes(last - |chunks|, f.cs) else chunks,
       unsettled := f.unsettled ||
         (tail != 0 && |chunks| == last + 1 && chunks[last].Stored? && chunks[last].size > tail),
       minSize := if size < f.minSize then size else f.minSize)
  }

  lemma BelowTheEnd(i: nat, size: nat, cs: nat)
    requires cs > 0 && i < size
    ensures !Cut(i / cs, size / cs, size % cs) && (i / cs == size / cs ==> i % cs < size % cs)
  {
    InChunk(size, cs, size / cs);
    InChunk(i, cs, i / cs);
    if size / cs < i / cs { ChunkBase(cs, size / cs, i / cs); }
  }

  lemma KeptByte(f: File, size: nat, idx: nat, w: nat)
    requires Valid(f) && !Cut(idx, size / f.cs, size % f.cs) && (idx == size / f.cs ==> w < size % f.cs)
    ensures ByteOf(Truncated(f, size), idx, w) == ByteOf(f, idx, w)
  {
  }

  /** Below the new end nothing changes. */
  lemma TruncatedBytes(f: File, size: nat, i: nat)
    requires Valid(f) && i < size
    ensures ByteAt(Truncated(f, size), i) == ByteAt(f, i)
  {
    BelowTheEnd(i, size, f.cs);
    KeptByte(f, size, i / f.cs, i % f.cs);
  }

  lemma TruncatedIsResize(f: File, size: nat)
    requires Valid(f)
    ensures Content(Truncated(f, size)) == Resize(Content(f), size)
  {
    var g := Truncated(f, size);
    forall i | 0 <= i < size ensures Content(g)[i] == Resize(Content(f), size)[i] {
      TruncatedBytes(f, size, i);
      ZeroPastEnd(f, i);
    }
  }

  /** A chunk before the one the new end is in lies wholly below it. */
  lemma BeforeLast(size: nat, cs: nat, idx: nat)
    requires cs > 0 && idx < size / cs
    ensures idx * cs + cs <= size
  {
    InChunk(size, cs, size / cs);
    ChunkBase(cs, idx, size / cs);
  }

  lemma TruncatedBuffers(f: File, size: nat, idx: nat)
    requires Valid(f) && idx in Truncated(f, size).dirty
    ensures BufferInv(Truncated(f, size), idx)
  {
    var last, tail := size / f.cs, size % f.cs;
    InChunk(size, f.cs, last);
    assert BufferInv(f, idx);
    if idx < last {
      BeforeLast(size, f.cs, idx);
    }
  }

  lemma TruncatedTrims(f: File, size: nat, idx: nat)
    requires Valid(f) && idx in Truncated(f, size).trims
    ensures TrimInv(Truncated(f, size), idx)
    ensures forall j :: j in Truncated(f, size).trims ==> j == idx
  {
    var last, tail := size / f.cs, size % f.cs;
    InChunk(size, f.cs, last);
    forall j | j in f.trims ensures TrimInv(f, j) {}
    if idx in f.trims && idx < last {
      assert WellSized(f, idx);
      BeforeLast(size, f.cs, idx);
    }
  }

  lemma HiddenBefore(f: File, size: nat, idx: nat)
    requires f.cs > 0 && idx < size / f.cs
    ensures Hidden(Truncated(f, size), idx) == Hidden(f, idx)
  {
  }

  /** The cut leaves the chunk it is in hidden and the file marked. */
  lemma HiddenAtCut(f: File, size: nat)
    requires Valid(f) && size % f.cs != 0
    ensures var g, last, tail := Truncated(f, size), size / f.cs, size % f.cs;
            last < |f.chunks| && f.chunks[last].Stored? && f.chunks[last].size > tail ==> Hidden(g, last) && g.unsettled
    ensures Hidden(f, size / f.cs) ==> Hidden(Truncated(f, size), size / f.cs)
  {
    var last := size / f.cs;
    assert last in f.trims ==> TrimInv(f, last);
  }

  lemma ExtentsBefore(f: File, size: nat, idx: nat)
    requires Valid(f) && idx < size / f.cs && idx < |f.chunks|
    ensures idx < |Truncated(f, size).chunks| && ExtentInv(Truncated(f, size), idx)
  {
    assert WellSized(f, idx) && ExtentInv(f, idx);
    HiddenBefore(f, size, idx);
    BeforeLast(size, f.cs, idx);
  }

  lemma ExtentsAtCut(f: File, size: nat)
    requires Valid(f) && size % f.cs != 0 && size / f.cs < |f.chunks|
    ensures size / f.cs < |Truncated(f, size).chunks| && ExtentInv(Truncated(f, size), size / f.cs)
  {
    var idx := size / f.cs;
    assert WellSized(f, idx) && ExtentInv(f, idx);
    HiddenAtCut(f, size);
    InChunk(size, f.cs, idx);
  }

  lemma TruncatedExtents(f: File, size: nat, idx: nat)
    requires Valid(f) && idx < |Truncated(f, size).chunks|
    ensures WellSized(Truncated(f, size), idx) && ExtentInv(Truncated(f, size), idx)
  {
    if idx < |f.chunks| {
      assert WellSized(f, idx);
      if idx < size / f.cs {
        ExtentsBefore(f, size, idx);
      } else {
        assert idx == size / f.cs && size % f.cs != 0;
        ExtentsAtCut(f, size);
      }
    }
  }

  lemma TruncatedKeeps(f: File, size: nat)
    requires Valid(f)
    ensures Valid(Truncated(f, size))
  {
    var g := Truncated(f, size);
    forall idx | 0 <= idx < |g.chunks| ensures WellSized(g, idx) && ExtentInv(g, idx) {
      TruncatedExtents(f, size, idx);
    }
    forall idx | idx in g.dirty ensures BufferInv(g, idx) { TruncatedBuffers(f, size, idx); }
    forall idx | idx in g.trims ensures TrimInv(g, idx) && forall j :: j in g.trims ==> j == idx {
      TruncatedTrims(f, size, idx);
    }
  }

  /** A pending trim's length only decreases until it is flushed. */
  lemma TrimOnlyShrinks(f: File, size: nat, idx: nat)
    requires Valid(f) && idx in f.trims && idx in Truncated(f, size).trims
    ensures Truncated(f, size).trims[idx].to <= f.trims[idx].to
    ensures Truncated(f, size).trims[idx].ref == f.trims[idx].ref
  {
    assert TrimInv(f, idx);
    TruncatedTrims(f, size, idx);
    assert TrimInv(Truncated(f, size), idx);
  }

  // Flushing.

  /** The reference chunk idx has once the file is flushed. */
  function FlushedRef(f: File, idx: nat): ChunkRef
    requires idx in f.trims ==> f.trims[idx].ref.Stored? && f.trims[idx].to <= |f.trims[idx].ref.hash.preimage|
  {
    if idx in f.dirty then Stored(Sha256(f.dirty[idx].data), |f.dirty[idx].data|)
    else if idx in f.trims then Stored(Sha256(f.trims[idx].ref.hash.preimage[..f.trims[idx].to]), f.trims[idx].to)
    else if idx < |f.chunks| then f.chunks[idx]
    else Hole(f.cs)
  }

  /** g is f flushed: every buffer stored, every trim applied, gaps filled with
      holes and nothing more. */
  predicate IsFlush(f: File, g: File)
    requires Valid(f)
  {
    && g == f.(chunks := g.chunks, dirty := map[], trims := map[], unsettled := false, minSize := f.size)
    && |f.chunks| <= |g.chunks|
    && (forall idx :: idx in f.dirty ==> idx < |g.chunks|)
    && (|f.chunks| < |g.chunks| ==> |g.chunks| - 1 in f.dirty)
    && (forall idx :: idx in f.trims ==> TrimInv(f, idx) && WellSized(f, idx))
    && forall idx :: 0 <= idx < |g.chunks| ==> g.chunks[idx] == FlushedRef(f, idx)
  }

  lemma FlushedByte(f: File, g: File, idx: nat, w: nat)
    requires Valid(f) && IsFlush(f, g)
    ensures ByteOf(g, idx, w) == ByteOf(f, idx, w) == StoredByte(g, idx, w)
  {
    assert idx in f.trims ==> TrimInv(f, idx) && WellSized(f, idx);
  }

  /** A flush changes no byte, and leaves them all in the stored chunk list. */
  lemma FlushKeepsBytes(f: File, g: File)
    requires Valid(f) && IsFlush(f, g)
    ensures Content(g) == Content(f) && StoredContent(g) == Content(f)
  {
    forall i | 0 <= i < f.size
      ensures Content(g)[i] == Content(f)[i] && StoredContent(g)[i] == Content(f)[i]
    {
      FlushedByte(f, g, i / f.cs, i % f.cs);
      assert ByteAt(g, i) == ByteAt(f, i);
    }
  }

  lemma FlushKeeps(f: File, g: File)
    requires Valid(f) && IsFlush(f, g)
    ensures Valid(g)
  {
    forall idx | 0 <= idx < |g.chunks| ensures WellSized(g, idx) && ExtentInv(g, idx) {
      assert g.chunks[idx] == FlushedRef(f, idx);
      assert idx in f.dirty ==> BufferInv(f, idx);
      assert idx in f.trims ==> TrimInv(f, idx);
      assert idx < |f.chunks| ==> WellSized(f, idx) && ExtentInv(f, idx);
      if g.chunks[idx].Stored? {
        forall w | 0 <= w < |g.chunks[idx].hash.preimage| && g.chunks[idx].hash.preimage[w] != 0
          ensures idx * g.cs + w < g.size
        {
          FlushedByte(f, g, idx, w);
          InChunk(idx * f.cs + w, f.cs, idx);
          ZeroPastEnd(f, idx * f.cs + w);
        }
      }
    }
  }

  /** A size change marks a file only where it cuts into a stored chunk: the new end
      lies inside one, short of its length. */
  lemma MarkOnlyIfCut(f: File, size: nat)
    requires Valid(f) && !f.unsettled && Truncated(f, size).unsettled
    ensures size % f.cs != 0 && size / f.cs < |f.chunks|
    ensures var c := f.chunks[size / f.cs]; c.Stored? && size % f.cs < c.size
  {
  }

  /** A buffer may run past the end of its file: grow an empty file to two chunks,
      cut it to 100 bytes, and write its first byte. The hole it loads is a whole
      chunk, and all of it is buffered. */
  lemma BufferPastEnd()
    ensures var f := Truncated(Truncated(File(4096, 0, [], map[], map[], false, 0), 8192), 100);
            var g := Wrote(f, 0, 0, [7]);
            g.size == 100 && 0 in g.dirty && |g.dirty[0].data| == 4096
  {
    var e := File(4096, 0, [], map[], map[], false, 0);
    var h := Truncated(e, 8192);
    assert h.chunks == [Hole(4096), Hole(4096)];
    var f := Truncated(h, 100);
    assert f.chunks == [Hole(4096)];
  }
}
