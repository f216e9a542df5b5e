/** A buffered file as a value: its stored chunk list, the dirty buffers and the
    pending trim that hide parts of it, and the bytes all of them stand for. */
module FileState {
  import opened Wrappers

  /** SHA-256, taken to be injective: a hash is known by its preimage. */
  datatype Hash = Sha256(preimage: seq<Byte>)

  datatype ChunkRef = Hole(size: nat) | Stored(hash: Hash, size: nat)

  datatype Buffer = Buffer(data: seq<Byte>, cap: nat)

  datatype Trim = Trim(to: nat, ref: ChunkRef)

  /** minSize is the smallest size the file has had since its last successful
      flush: what a truncate removed lies at or past it. */
  datatype File = File(cs: nat, size: nat, chunks: seq<ChunkRef>,
                       dirty: map<nat, Buffer>, trims: map<nat, Trim>,
                       unsettled: bool, minSize: nat)

  // Offsets and chunks.

  lemma InChunk(i: nat, cs: nat, idx: nat)
    requires cs > 0
    ensures i / cs == idx <==> idx * cs <= i < idx * cs + cs
    ensures i / cs == idx ==> i % cs == i - idx * cs
  {
    var q := i / cs;
    assert i == q * cs + i % cs;
    if q < idx {
      assert (q + 1) * cs <= idx * cs;
    } else if idx < q {
      assert (idx + 1) * cs <= q * cs;
    }
  }

  lemma ChunkBase(cs: nat, a: nat, b: nat)
    requires a < b
    ensures a * cs + cs <= b * cs
  {
    assert (a + 1) * cs <= b * cs;
  }

  // The bytes.

  /** What the stored chunk list alone holds at byte w of chunk idx. */
  function StoredByte(f: File, idx: nat, w: nat): Byte {
    if idx < |f.chunks| && f.chunks[idx].Stored? && w < |f.chunks[idx].hash.preimage|
    then f.chunks[idx].hash.preimage[w] else 0
  }

  /** What the file holds there: a dirty buffer hides the chunk, and a pending
      trim hides what it cut. */
  function ByteOf(f: File, idx: nat, w: nat): Byte {
    if idx in f.dirty then (if w < |f.dirty[idx].data| then f.dirty[idx].data[w] else 0)
    else if idx in f.trims && f.trims[idx].to <= w then 0
    else StoredByte(f, idx, w)
  }

  function ByteAt(f: File, i: nat): Byte
    requires f.cs > 0
  {
    ByteOf(f, i / f.cs, i % f.cs)
  }

  function Content(f: File): (s: seq<Byte>)
    requires f.cs > 0
    ensures |s| == f.size
  {
    seq(f.size, (i: nat) => ByteAt(f, i))
  }

  /** The same bytes from the stored chunk list alone, as a snapshot names them. */
  function StoredContent(f: File): (s: seq<Byte>)
    requires f.cs > 0
    ensures |s| == f.size
  {
    seq(f.size, (i: nat) => StoredByte(f, i / f.cs, i % f.cs))
  }

  // The plain file it stands for.

  /** Truncation cuts and growth zero-fills. */
  function Resize(s: seq<Byte>, n: nat): seq<Byte> {
    if n <= |s| then s[..n] else s + Zeros(n - |s|)
  }

  /** Writing past the end zero-fills the gap. */
  function Overwrite(s: seq<Byte>, off: nat, data: seq<Byte>): seq<Byte> {
    if data == [] then s
    else
      var t := if |s| < off + |data| then Resize(s, off + |data|) else s;
      t[..off] + data + t[off + |data|..]
  }

  // The invariant.

  predicate WellSized(f: File, idx: nat)
    requires idx < |f.chunks|
  {
    var c := f.chunks[idx];
    c.size <= f.cs && (c.Stored? ==> c.size == |c.hash.preimage|)
  }

  predicate BufferInv(f: File, idx: nat)
    requires idx in f.dirty
  {
    var b := f.dirty[idx];
    && 0 < |b.data| <= b.cap == f.cs
    && forall w :: 0 <= w < |b.data| && b.data[w] != 0 ==> idx * f.cs + w < f.size
  }

  /** A pending trim is of the chunk listed at its index, which is not dirty,
      and every chunk after it is a hole. */
  predicate TrimInv(f: File, idx: nat)
    requires idx in f.trims
  {
    var t := f.trims[idx];
    && idx < |f.chunks| && idx !in f.dirty
    && t.ref == f.chunks[idx] && t.ref.Stored?
    && 0 < t.to < t.ref.size && idx * f.cs + t.to <= f.size
    && forall j :: idx < j < |f.chunks| ==> f.chunks[j].Hole?
  }

  predicate Hidden(f: File, idx: nat) {
    idx in f.dirty || idx in f.trims
  }

  /** A stored chunk that nothing hides is zero past the end of the file; one
      that is not zero past minSize is hidden, and the file is marked unsettled.
      Zero rather than absent: a write into a hole a truncate cut starts from a
      whole chunk of zeros, so a buffer may run past the end. */
  predicate ExtentInv(f: File, idx: nat)
    requires idx < |f.chunks|
  {
    var c := f.chunks[idx];
    c.Stored? ==>
      forall w :: 0 <= w < |c.hash.preimage| && c.hash.preimage[w] != 0 ==>
        && (!Hidden(f, idx) ==> idx * f.cs + w < f.size)
        && (f.minSize <= idx * f.cs + w ==> Hidden(f, idx) && f.unsettled)
  }

  predicate Valid(f: File) {
    && f.cs > 0 && f.minSize <= f.size
    && (forall idx :: 0 <= idx < |f.chunks| ==> WellSized(f, idx) && ExtentInv(f, idx))
    && (forall idx :: idx in f.dirty ==> BufferInv(f, idx))
    && (forall idx :: idx in f.trims ==> TrimInv(f, idx))
    && (forall i, j :: i in f.trims && j in f.trims ==> i == j)
  }

  /** Nothing is left past the end for growth to expose. */
  lemma ZeroPastEnd(f: File, i: nat)
    requires Valid(f)
    ensures f.size <= i ==> ByteAt(f, i) == 0
  {
    var idx := i / f.cs;
    InChunk(i, f.cs, idx);
    assert idx in f.dirty ==> BufferInv(f, idx);
    assert idx in f.trims ==> TrimInv(f, idx);
    assert idx < |f.chunks| ==> WellSized(f, idx) && ExtentInv(f, idx);
  }

  /** A settled file's chunk list alone reads zero wherever a truncate cut since
      the last flush: what a snapshot names exposes no removed byte. */
  lemma SettledExposesNothing(f: File, i: nat)
    requires Valid(f) && !f.unsettled && f.minSize <= i
    ensures StoredByte(f, i / f.cs, i % f.cs) == 0
  {
    var idx := i / f.cs;
    InChunk(i, f.cs, idx);
    assert idx < |f.chunks| ==> WellSized(f, idx) && ExtentInv(f, idx);
  }

  /** What a commit names of a settled file is well: a mount that loads it finds
      a file it can open. */
  lemma SettledCanBeLoaded(f: File)
    requires Valid(f) && !f.unsettled
    ensures Valid(File(f.cs, f.size, f.chunks, map[], map[], false, f.size))
  {
    var g := File(f.cs, f.size, f.chunks, map[], map[], false, f.size);
    forall idx | 0 <= idx < |g.chunks| ensures WellSized(g, idx) && ExtentInv(g, idx) {
      assert WellSized(f, idx) && ExtentInv(f, idx);
    }
  }

  /** With no buffer and no trim there is nothing to settle, which is why
      flushOpen's early return may clear the mark. */
  lemma NothingHiddenIsSettled(f: File)
    requires Valid(f) && f.dirty == map[] && f.trims == map[]
    ensures Valid(f.(unsettled := false, minSize := f.size))
    ensures StoredContent(f) == Content(f)
  {
    var g := f.(unsettled := false, minSize := f.size);
    forall idx | 0 <= idx < |g.chunks| ensures WellSized(g, idx) && ExtentInv(g, idx) {
      assert WellSized(f, idx) && ExtentInv(f, idx);
    }
    assert forall i: nat | i < f.size :: ByteAt(f, i) == StoredByte(f, i / f.cs, i % f.cs);
  }
}
