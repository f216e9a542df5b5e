/** The buffered file in its own form: an object whose methods change the chunk
    list, the dirty buffers and the pending trim in place, while fetches and
    uploads succeed or fail as they please. */
module FileData {
  import opened Wrappers
  import opened FileState
  import opened FileLemmas

  /** uint64 addition and multiplication, used where the source computes them
      unchecked: that they cannot wrap is what calling them proves. */
  function Add64(a: nat, b: nat): nat
    requires a + b < TWO_64
  {
    a + b
  }

  function Mul64(a: nat, b: nat): nat
    requires a * b < TWO_64
  {
    a * b
  }

  /** The budget's charge, shared by every open file. */
  class Account {
    var charge: int
  }

  lemma PatchWhole(base: seq<Byte>, piece: seq<Byte>)
    requires |base| <= |piece|
    ensures Patch(base, 0, piece) == Patch([], 0, piece) == piece
  {
  }

  /** g is before with the first written bytes of data at off in its buffers. */
  ghost predicate Progress(before: File, g: File, off: nat, data: seq<Byte>, written: nat) {
    && Valid(before) && Valid(g) && written <= |data|
    && g == before.(dirty := g.dirty, trims := g.trims, size := g.size)
    && g.size == (if written > 0 && before.size < off + written then off + written else before.size)
    && IsOverwrite(Content(before), off, data[..written], Content(g))
    && (written == 0 ==> g == before) && before.dirty.Keys <= g.dirty.Keys
  }

  /** A write into part of chunk idx starts from what the mount has at hand. */
  predicate AtHand(f: File, idx: nat) {
    idx in f.dirty || idx >= |f.chunks| || f.chunks[idx].Hole?
  }

  /** A write of [off, end) asks nothing of the store: each chunk it meets is at
      hand, or wholly overwritten. */
  ghost predicate NeedsNoFetch(f: File, off: nat, end: nat) {
    forall idx: nat :: idx * f.cs < end && off < idx * f.cs + f.cs ==>
      AtHand(f, idx) || (off <= idx * f.cs && idx * f.cs + f.cs <= end)
  }

  /** A write fills each chunk to its end before it goes on to the next. */
  ghost predicate AtBoundary(cs: nat, off: nat, written: nat, n: nat)
    requires cs > 0
  {
    written == 0 || written == n || (off + written) % cs == 0
  }

  lemma NextBoundary(cs: nat, off: nat, written: nat, n: nat, idx: nat, within: nat)
    requires cs > 0 && off + written == idx * cs + within && (written == n || within == cs)
    ensures AtBoundary(cs, off, written, n)
  {
    if within == cs { InChunk(off + written, cs, idx + 1); }
  }

  lemma PieceNeedsNoFetch(before: File, g: File, off: nat, n: nat, written: nat, idx: nat, within: nat)
    requires before.cs > 0 && written < n && NeedsNoFetch(before, off, off + n)
    requires AtBoundary(before.cs, off, written, n)
    requires g == before.(dirty := g.dirty, trims := g.trims, size := g.size) && before.dirty.Keys <= g.dirty.Keys
    requires off + written == idx * before.cs + within && within < before.cs
    ensures AtHand(g, idx) || (within == 0 && n - written >= before.cs)
  {
    InChunk(off + written, before.cs, idx);
    assert AtHand(before, idx) || (off <= idx * before.cs && idx * before.cs + before.cs <= off + n);
  }

  lemma ProgressStep(before: File, g: File, off: nat, data: seq<Byte>, written: nat, nw: nat, idx: nat, within: nat)
    requires Progress(before, g, off, data, written) && 0 < nw && written + nw <= |data|
    requires off + written == idx * g.cs + within && within + nw <= g.cs
    ensures Progress(before, Wrote(g, idx, within, data[written..written + nw]), off, data, written + nw)
  {
    var piece := data[written..written + nw];
    WroteKeeps(g, idx, within, piece);
    PieceOverwrites(before, g, off, data, written, nw, idx, within);
  }

  lemma PieceOverwrites(before: File, g: File, off: nat, data: seq<Byte>, written: nat, nw: nat, idx: nat, within: nat)
    requires Valid(before) && Valid(g) && 0 < nw && written + nw <= |data|
    requires IsOverwrite(Content(before), off, data[..written], Content(g))
    requires off + written == idx * g.cs + within && within + nw <= g.cs
    ensures var g' := Wrote(g, idx, within, data[written..written + nw]);
            IsOverwrite(Content(before), off, data[..written + nw], Content(g'))
  {
    var piece := data[written..written + nw];
    WroteIsOverwrite(g, idx, within, piece, off + written);
    PiecesJoin(Content(before), Content(g), Content(Wrote(g, idx, within, piece)), off, data, written, nw);
  }

  lemma PiecesJoin(a: seq<Byte>, b: seq<Byte>, c: seq<Byte>, off: nat, data: seq<Byte>, written: nat, nw: nat)
    requires written + nw <= |data| && 0 < nw
    requires IsOverwrite(a, off, data[..written], b) && IsOverwrite(b, off + written, data[written..written + nw], c)
    ensures IsOverwrite(a, off, data[..written + nw], c)
  {
    var piece := data[written..written + nw];
    OverwriteTwice(a, off, data[..written], piece, b, c);
    assert data[..written] + piece == data[..written + nw];
  }

  lemma ProgressIsOverwrite(before: File, g: File, off: nat, data: seq<Byte>, written: nat)
    requires Progress(before, g, off, data, written)
    ensures Content(g) == Overwrite(Content(before), off, data[..written])
  {
    OverwriteBytes(Content(before), off, data[..written], Content(g));
  }

  lemma NoProgress(f: File, off: nat, data: seq<Byte>)
    requires Valid(f)
    ensures Progress(f, f, off, data, 0)
  {
    assert data[..0] == [];
  }

  /** The capacity a file's buffers hold, in all. */
  ghost function Capacity(dirty: map<nat, Buffer>): nat {
    if dirty == map[] then 0
    else
      var idx :| idx in dirty;
      dirty[idx].cap + Capacity(dirty - {idx})
  }

  lemma {:induction false} CapacityDrops(dirty: map<nat, Buffer>, idx: nat)
    requires idx in dirty
    ensures Capacity(dirty) == dirty[idx].cap + Capacity(dirty - {idx})
    decreases |dirty|
  {
    var j :| j in dirty && Capacity(dirty) == dirty[j].cap + Capacity(dirty - {j});
    if j != idx {
      CapacityDrops(dirty - {j}, idx);
      CapacityDrops(dirty - {idx}, j);
      assert dirty - {j} - {idx} == dirty - {idx} - {j};
    }
  }

  lemma CapacitySets(dirty: map<nat, Buffer>, idx: nat, b: Buffer)
    ensures Capacity(dirty[idx := b]) == Capacity(dirty) + b.cap - if idx in dirty then dirty[idx].cap else 0
  {
    CapacityDrops(dirty[idx := b], idx);
    assert dirty[idx := b] - {idx} == dirty - {idx};
    if idx in dirty {
      CapacityDrops(dirty, idx);
    } else {
      assert dirty - {idx} == dirty;
    }
  }

  /** A chunk a read has to fetch, and how much of it a pending trim leaves. */
  datatype ReadRef = ReadRef(idx: nat, ref: ChunkRef, trim: Option<nat>)

  /** readEnd: the end of a read's range, clamped to the size without wrapping. */
  function ReadEnd(off: nat, size: nat, count: nat): (end: nat)
    requires off < size < TWO_64
    ensures off <= end <= size && (end == off + count || (end == size && size < off + count))
  {
    if count < size - off then Add64(off, count) else size
  }

  /** out holds the bytes of [off, end) that lie in the chunks of done, and zeros. */
  ghost predicate Filled(f: File, out: seq<Byte>, off: nat, end: nat, done: set<nat>)
    requires f.cs > 0
  {
    && off <= end && |out| == end - off
    && forall i: nat :: off <= i < end ==> out[i - off] == if i / f.cs in done then ByteAt(f, i) else 0
  }

  /** r is out with data, the contents of the chunk at base, copied into it. */
  ghost predicate Copied(cs: nat, out: seq<Byte>, r: seq<Byte>, off: nat, end: nat, base: nat, data: seq<Byte>) {
    && off <= end && |out| == end - off && |r| == |out|
    && forall j :: 0 <= j < |r| ==>
         r[j] == if base <= off + j < base + cs && off + j - base < |data| then data[off + j - base] else out[j]
  }

  lemma CopiedFills(f: File, out: seq<Byte>, r: seq<Byte>, off: nat, end: nat, done: set<nat>,
                    idx: nat, data: seq<Byte>)
    requires f.cs > 0 && Filled(f, out, off, end, done) && idx !in done
    requires Copied(f.cs, out, r, off, end, idx * f.cs, data)
    requires forall w: nat :: w < f.cs ==> ByteOf(f, idx, w) == if w < |data| then data[w] else 0
    ensures Filled(f, r, off, end, done + {idx})
  {
    forall i: nat | off <= i < end
      ensures r[i - off] == if i / f.cs in done + {idx} then ByteAt(f, i) else 0
    {
      InChunk(i, f.cs, idx);
      var j := i - off;
      assert out[j] == if i / f.cs in done then ByteAt(f, i) else 0;
      assert r[j] ==
               if idx * f.cs <= i < idx * f.cs + f.cs && i - idx * f.cs < |data| then data[i - idx * f.cs] else out[j];
      if i / f.cs == idx {
        assert ByteOf(f, idx, i % f.cs) == if i % f.cs < |data| then data[i % f.cs] else 0;
      }
    }
  }

  /** A chunk the range from off on has to fetch: stored, not dirty, and not
      wholly hidden by a trim. */
  predicate Fetchable(f: File, off: nat, idx: nat) {
    && idx < |f.chunks| && idx !in f.dirty && f.chunks[idx].Stored?
    && (idx in f.trims ==> off < idx * f.cs + f.trims[idx].to)
  }

  /** A read of [off, end) meets no chunk it has to fetch. */
  ghost predicate NothingToFetch(f: File, off: nat, end: nat)
    requires f.cs > 0
  {
    forall idx: nat :: off / f.cs <= idx <= (end - 1) / f.cs ==> !Fetchable(f, off, idx)
  }

  function RefFor(f: File, idx: nat): ReadRef
    requires idx < |f.chunks|
  {
    ReadRef(idx, f.chunks[idx], if idx in f.trims then Some(f.trims[idx].to) else None)
  }

  /** The bytes of a fetched chunk a pending trim leaves. */
  function Kept(r: ReadRef, data: seq<Byte>): seq<Byte> {
    if r.trim.Some? && r.trim.value < |data| then data[..r.trim.value] else data
  }

  ghost function Indices(refs: seq<ReadRef>): set<nat> {
    set k | 0 <= k < |refs| :: refs[k].idx
  }

  /** Chunks of the range to fetch, each once, as the locked hold saw them. */
  ghost predicate Wanted(f: File, off: nat, first: nat, limit: nat, refs: seq<ReadRef>) {
    && (forall k :: 0 <= k < |refs| ==> Fetchable(f, off, refs[k].idx) && refs[k] == RefFor(f, refs[k].idx))
    && (forall k :: 0 <= k < |refs| ==> first <= refs[k].idx < limit)
    && (forall k, l :: 0 <= k < l < |refs| ==> refs[k].idx != refs[l].idx)
  }

  /** Every chunk still to fetch is stored. */
  ghost predicate Held(refs: seq<ReadRef>, bucket: set<Hash>) {
    forall k :: 0 <= k < |refs| && refs[k].ref.Stored? ==> refs[k].ref.hash in bucket
  }

  /** What one hold took of the file f: its dirty bytes in range, copied into
      out, and the chunks that have the rest. */
  ghost predicate Taken(f: File, out: seq<Byte>, off: nat, end: nat, refs: seq<ReadRef>, done: set<nat>)
    requires f.cs > 0 && end > 0
  {
    && Filled(f, out, off, end, done)
    && Wanted(f, off, off / f.cs, (end - 1) / f.cs + 1, refs) && Indices(refs) !! done
    && Complete(f, off, off / f.cs, (end - 1) / f.cs, done + Indices(refs))
  }

  /** What a chunk that is neither dirty nor fetched shows in the range is zeros. */
  lemma UnfetchedIsZero(f: File, off: nat, i: nat)
    requires Valid(f) && off <= i && i / f.cs !in f.dirty && !Fetchable(f, off, i / f.cs)
    ensures ByteAt(f, i) == 0
  {
    var idx := i / f.cs;
    InChunk(i, f.cs, idx);
    assert idx in f.trims ==> TrimInv(f, idx);
  }

  lemma FetchedBytes(f: File, idx: nat, w: nat)
    requires Valid(f) && idx < |f.chunks| && idx !in f.dirty && f.chunks[idx].Stored?
    ensures var data := Kept(RefFor(f, idx), RefBytes(f.chunks[idx]));
            ByteOf(f, idx, w) == if w < |data| then data[w] else 0
  {
    assert WellSized(f, idx);
    assert idx in f.trims ==> TrimInv(f, idx);
  }

  /** How durable a write is asked to be, or is answered to be. */
  datatype Stability = Unstable | DataSync | FileSync

  /** How much of a write lies below the size limit. */
  function Room(off: nat, n: nat, max: nat): nat {
    if off >= max then 0 else if n > max - off then max - off else n
  }

  class OpenFile {
    const cs: nat
    const account: Account
    var size: nat
    var chunks: seq<ChunkRef>
    var dirty: map<nat, Buffer>
    var trims: map<nat, Trim>
    var unsettled: bool
    ghost var minSize: nat
    var bytes: int             // this file's share of the charge
    var known: set<Hash>       // chunks this mount knows the bucket to hold
    var bucket: set<Hash>      // chunks the bucket holds
    var healthy: bool          // the store answers every request; otherwise any may fail

    ghost function View(): File
      reads this
    {
      File(cs, size, chunks, dirty, trims, unsettled, minSize)
    }

    /** Every chunk the list names has been stored. */
    ghost predicate Backed()
      reads this
    {
      known <= bucket && forall idx :: 0 <= idx < |chunks| && chunks[idx].Stored? ==> chunks[idx].hash in bucket
    }

    ghost predicate Inv()
      reads this
    {
      Valid(View()) && size < TWO_64 && Backed() && bytes == Capacity(dirty)
    }

    /** getOpen: a loaded file with nothing buffered, as a snapshot describes it. */
    constructor (cs: nat, account: Account, size: nat, chunks: seq<ChunkRef>, bucket: set<Hash>, healthy: bool)
      requires Valid(File(cs, size, chunks, map[], map[], false, size)) && size < TWO_64
      requires forall idx :: 0 <= idx < |chunks| && chunks[idx].Stored? ==> chunks[idx].hash in bucket
      ensures Inv() && View() == File(cs, size, chunks, map[], map[], false, size)
      ensures this.account == account && bytes == 0 && this.healthy == healthy
    {
      this.cs, this.account, this.size, this.chunks, this.bucket := cs, account, size, chunks, bucket;
      dirty, trims, unsettled, minSize, bytes, known := map[], map[], false, size, 0, {};
      this.healthy := healthy;
    }

    /** A chunk's bytes, or nothing: what the store answers counts only if it
        hashes to the name asked for. */
    method LoadChunk(ref: ChunkRef) returns (r: Option<seq<Byte>>)
      requires known <= bucket
      modifies this`known
      ensures r.Some? ==> r.value == RefBytes(ref)
      ensures ref.Hole? || (healthy && ref.hash in bucket) ==> r.Some?
      ensures known <= bucket
    {
      if ref.Hole? {
        return Some(Zeros(ref.size));
      }
      var answered: bool, data: seq<Byte> := *, *;
      if healthy {
        answered, data := true, ref.hash.preimage;
      }
      if ref.hash !in bucket || !answered || Sha256(data) != ref.hash {
        return None;
      }
      known := known + {ref.hash};
      return Some(data);
    }

    /** Stores a chunk under its hash, skipping the upload when it is known or a
        Head finds it; an upload that fails may still have taken effect. */
    method PutChunk(data: seq<Byte>) returns (r: Option<ChunkRef>)
      requires known <= bucket
      modifies this`known, this`bucket
      ensures r.Some? ==> r.value == Stored(Sha256(data), |data|) && Sha256(data) in bucket
      ensures old(bucket) <= bucket && known <= bucket && (healthy || Sha256(data) in old(known) ==> r.Some?)
    {
      var hash := Sha256(data);
      var found, effect, ok: bool := *, *, *;
      ok := ok || healthy;
      if hash !in known {
        if !(found && hash in bucket) {
          if effect || ok {
            bucket := bucket + {hash};
          }
          if !ok {
            return None;
          }
        }
        known := known + {hash};
      }
      return Some(Stored(hash, |data|));
    }

    /** chunkIndex: splits an offset into its chunk and its place there. */
    method ChunkIndex(off: nat) returns (idx: nat, within: nat)
      requires cs > 0
      ensures off == idx * cs + within && within < cs
    {
      idx, within := off / cs, off % cs;
    }

    /** What a write into chunk idx starts from, fetched if it has to be: a
        write that covers the whole chunk needs no fetch. */
    method WriteBase(ghost g: File, idx: nat, within: nat, piece: seq<Byte>) returns (base: Option<seq<Byte>>)
      requires Valid(g) && g == View().(size := g.size) && Backed()
      requires 0 < |piece| && within + |piece| <= cs
      modifies this`known
      ensures Backed() && (healthy || AtHand(g, idx) || |piece| == cs ==> base.Some?)
      ensures base.Some? ==> Patch(base.value, within, piece) == Patch(Base(g, idx), within, piece)
    {
      BaseBytes(g, idx, 0);
      if idx in dirty {
        return Some(dirty[idx].data);
      }
      if |piece| == cs || idx >= |chunks| {
        if |piece| == cs { PatchWhole(Base(g, idx), piece); }
        return Some([]);
      }
      base := LoadChunk(chunks[idx]);
      if base.Some? && idx in trims && trims[idx].to < |base.value| {
        base := Some(base.value[..trims[idx].to]);
      }
    }

    /** One chunk's part of writing rest at pos; zero bytes if its fetch fails.
        g is the file as it will be once its size has been raised. */
    method WritePiece(ghost g: File, pos: nat, rest: seq<Byte>)
      returns (nw: nat, charge: int, ghost idx: nat, ghost within: nat)
      requires Valid(g) && g == View().(size := g.size) && rest != [] && Backed()
      modifies this`dirty, this`trims, this`known
      ensures Backed() && (healthy || AtHand(g, idx) || (within == 0 && |rest| >= cs) ==> nw > 0)
      ensures nw <= |rest| && pos == idx * cs + within && within < cs && within + nw <= cs
      ensures nw > 0 ==> nw == |rest| || within + nw == cs
      ensures View().(size := g.size) == if nw == 0 then g else Wrote(g, idx, within, rest[..nw]).(size := g.size)
      ensures charge == Capacity(dirty) - Capacity(old(dirty)) >= 0
    {
      var i, w := ChunkIndex(pos);
      idx, within := i, w;
      nw := if cs - w > |rest| then |rest| else cs - w;
      var piece := rest[..nw];
      var base := WriteBase(g, i, w, piece);
      if base.None? {
        return 0, 0, i, w;
      }
      var oldCap := if i in dirty then dirty[i].cap else 0;
      assert i in dirty ==> BufferInv(g, i);
      var chunk := Buffer(Patch(base.value, w, piece), cs);
      CapacitySets(dirty, i, chunk);
      dirty := dirty[i := chunk];
      trims := trims - {i};
      charge := chunk.cap - oldCap;
    }

    /** bufferWrite's loop: fills one chunk after another, and stops short when a
        fetch fails. */
    method BufferPieces(off: nat, data: seq<Byte>) returns (written: nat, charge: int, ghost g: File)
      requires Valid(View()) && data != [] && off + |data| < TWO_64 && Backed()
      modifies this`dirty, this`trims, this`known
      ensures Backed() && (healthy || NeedsNoFetch(old(View()), off, off + |data|) ==> written == |data|)
      ensures Progress(old(View()), g, off, data, written)
      ensures View() == old(View()).(dirty := g.dirty, trims := g.trims)
      ensures charge == Capacity(dirty) - Capacity(old(dirty)) >= 0
    {
      written, charge := 0, 0;
      ghost var before := View();
      g := before;
      NoProgress(before, off, data);
      while written < |data|
        invariant Progress(before, g, off, data, written)
        invariant View() == before.(dirty := g.dirty, trims := g.trims)
        invariant charge == Capacity(dirty) - Capacity(old(dirty)) >= 0
        invariant Backed() && AtBoundary(cs, off, written, |data|)
      {
        var nw, added;
        nw, added, g := BufferPiece(before, g, off, data, written);
        if nw == 0 {
          break;
        }
        written, charge := written + nw, charge + added;
      }
    }

    /** The next chunk's part of the write, or nothing if its fetch fails. */
    method BufferPiece(ghost before: File, ghost g: File, off: nat, data: seq<Byte>, written: nat)
      returns (nw: nat, charge: int, ghost g': File)
      requires Progress(before, g, off, data, written) && written < |data| && off + |data| < TWO_64
      requires View() == before.(dirty := g.dirty, trims := g.trims) && Backed() && AtBoundary(cs, off, written, |data|)
      modifies this`dirty, this`trims, this`known
      ensures Backed() && (healthy || NeedsNoFetch(before, off, off + |data|) ==> nw > 0)
      ensures nw > 0 ==> AtBoundary(cs, off, written + nw, |data|)
      ensures written + nw <= |data| && Progress(before, g', off, data, written + nw)
      ensures View() == before.(dirty := g'.dirty, trims := g'.trims)
      ensures charge == Capacity(dirty) - Capacity(old(dirty)) >= 0 && (nw == 0 ==> charge == 0)
    {
      ghost var idx, within;
      nw, charge, idx, within := WritePiece(g, Add64(off, written), data[written..]);
      g' := g;
      if NeedsNoFetch(before, off, off + |data|) {
        PieceNeedsNoFetch(before, g, off, |data|, written, idx, within);
      }
      if nw > 0 {
        NextBoundary(cs, off, written + nw, |data|, idx, within + nw);
        assert data[written..][..nw] == data[written..written + nw];
        ProgressStep(before, g, off, data, written, nw, idx, within);
        g' := Wrote(g, idx, within, data[written..written + nw]);
      }
    }

    /** bufferWrite. Its caller has clamped data, so off + |data| cannot wrap.
        gone says that the inode was found removed when the write began, or by
        the time it ended; a removed inode does not come back. */
    method BufferWrite(off: nat, data: seq<Byte>, goneBefore: bool, goneAfter: bool) returns (written: nat, ok: bool)
      requires Inv() && data != [] && off + |data| < TWO_64 && (goneBefore ==> goneAfter)
      modifies this`size, this`dirty, this`trims, this`bytes, this`known, account
      ensures account.charge - bytes == old(account.charge - bytes)
      ensures !ok ==> written == 0 && View() == old(View()) && Inv()
      ensures ok ==> 0 < written <= |data|
      ensures healthy || goneBefore || NeedsNoFetch(old(View()), off, off + |data|) ==> ok && written == |data|
      ensures ok && !goneAfter ==>
                Inv() && Content(View()) == Overwrite(old(Content(View())), off, data[..written])
      ensures ok && goneAfter ==> dirty == map[] && bytes == 0
    {
      var charge := 0;
      ghost var g := View();
      if goneBefore {
        written := |data|;
      } else {
        written, charge, g := BufferPieces(off, data);
        if written == 0 {
          return 0, false;
        }
      }
      if charge > 0 {
        account.charge := account.charge + charge;
        bytes := bytes + charge;
      }
      if !goneAfter {
        var end := Add64(off, written);
        if end > size {
          size := end;
        }
        assert View() == g;
        ProgressIsOverwrite(old(View()), g, off, data, written);
      } else {
        DropBuffered();
      }
      return written, true;
    }

    /** Nothing will flush a removed file's buffers: they go, with their charge. */
    method DropBuffered()
      modifies this`dirty, this`bytes, account
      ensures dirty == map[] && bytes == 0 && account.charge - bytes == old(account.charge - bytes)
    {
      account.charge := account.charge - bytes;
      bytes := 0;
      dirty := map[];
    }

    /** What of a write is at or past the size limit is cut off; the rest is buffered. */
    method ClampedWrite(off: nat, data: seq<Byte>, maxFileSize: nat, goneBefore: bool, goneAfter: bool)
      returns (written: nat, ok: bool)
      requires Inv() && data != [] && off < maxFileSize < TWO_64 && (goneBefore ==> goneAfter)
      modifies this`size, this`dirty, this`trims, this`bytes, this`known, account
      ensures account.charge - bytes == old(account.charge - bytes)
      ensures !ok ==> written == 0 && View() == old(View()) && Inv()
      ensures ok ==> 0 < written <= Room(off, |data|, maxFileSize)
      ensures healthy || goneBefore || NeedsNoFetch(old(View()), off, off + Room(off, |data|, maxFileSize)) ==>
                ok && written == Room(off, |data|, maxFileSize)
      ensures ok && !goneAfter ==>
                Inv() && Content(View()) == Overwrite(old(Content(View())), off, data[..written])
    {
      var clamped := if |data| > maxFileSize - off then data[..maxFileSize - off] else data;
      written, ok := BufferWrite(off, clamped, goneBefore, goneAfter);
      assert clamped[..written] == data[..written];
    }

    /** Write: refuses at the limit, waits for the budget, buffers, and for a stable
        write flushes the file and syncs. admitted and synced are what the budget
        and Sync answer. A failed wait leaves nothing behind; a failed sync still
        reports what was buffered, as unstable. */
    method Write(off: nat, data: seq<Byte>, maxFileSize: nat, how: Stability, admitted: bool, synced: bool,
                 goneBefore: bool, goneAfter: bool)
      returns (written: nat, answer: Stability, ok: bool)
      requires Inv() && maxFileSize < TWO_64 && (goneBefore ==> goneAfter)
      modifies this`size, this`chunks, this`dirty, this`trims, this`unsettled, this`minSize, this`bytes
      modifies this`known, this`bucket, account
      ensures account.charge - bytes == old(account.charge - bytes) && old(bucket) <= bucket
      ensures data == [] ==> ok && answer == FileSync
      ensures data != [] && (off >= maxFileSize || !admitted) ==> !ok
      ensures data == [] || off >= maxFileSize || !admitted ==> written == 0 && View() == old(View())
      ensures written <= Room(off, |data|, maxFileSize) && (ok && data != [] ==> written > 0)
      ensures healthy && admitted ==> written == Room(off, |data|, maxFileSize)
      ensures !goneAfter ==>
                Inv() && Content(View()) == Overwrite(old(Content(View())), off, data[..written])
      ensures ok && data != [] ==> answer == (if how == Unstable then Unstable else FileSync)
      ensures ok && data != [] && answer == FileSync ==> synced
      ensures ok && data != [] && answer == FileSync && !goneAfter ==>
                StoredContent(View()) == Content(View()) && !unsettled
      ensures !ok && written > 0 ==> how != Unstable && answer == Unstable
      ensures healthy && admitted && (synced || how == Unstable) && data != [] && off < maxFileSize ==> ok
      ensures admitted && NeedsNoFetch(old(View()), off, off + Room(off, |data|, maxFileSize)) ==>
                written == Room(off, |data|, maxFileSize) && (how == Unstable && off < maxFileSize ==> ok)
    {
      if data == [] {
        return 0, FileSync, true;
      }
      if off >= maxFileSize || !admitted {
        return 0, Unstable, false;
      }
      written, ok := ClampedWrite(off, data, maxFileSize, goneBefore, goneAfter);
      answer := Unstable;
      if ok && how != Unstable {
        ok := CommitFile(goneAfter);
        ok := ok && synced;
        if ok {
          answer := FileSync;
        }
      }
    }

    /** commitFile: flushes the file's openFile, if it is still listed. */
    method CommitFile(gone: bool) returns (ok: bool)
      requires !gone ==> Inv()
      modifies this`chunks, this`dirty, this`trims, this`unsettled, this`minSize, this`bytes
      modifies this`known, this`bucket, account
      ensures account.charge - bytes == old(account.charge - bytes) && old(bucket) <= bucket
      ensures !gone ==> Inv() && Content(View()) == old(Content(View()))
      ensures ok && !gone ==> StoredContent(View()) == Content(View()) && !unsettled
      ensures healthy || gone || old(dirty == map[] && trims == map[]) ==> ok
    {
      if gone {
        return true;
      }
      ok := FlushOpen(true);
    }

    /** truncate's first loop: drops the buffers past the new end, and frees
        what they held. */
    method DropBuffers(last: nat, tail: nat)
      requires bytes == Capacity(dirty)
      modifies this`dirty, this`bytes, account
      ensures dirty == map idx | idx in old(dirty) && !Cut(idx, last, tail) :: old(dirty)[idx]
      ensures bytes == Capacity(dirty) && account.charge - bytes == old(account.charge - bytes)
    {
      var freed := 0;
      var todo := dirty.Keys;
      while todo != {}
        invariant todo <= dirty.Keys <= old(dirty).Keys
        invariant forall idx :: idx in dirty ==> dirty[idx] == old(dirty)[idx]
        invariant forall idx :: idx in old(dirty) && idx !in todo ==> (idx in dirty <==> !Cut(idx, last, tail))
        invariant freed == Capacity(old(dirty)) - Capacity(dirty)
        invariant bytes == old(bytes) && account.charge == old(account.charge)
        decreases todo
      {
        var idx :| idx in todo;
        todo := todo - {idx};
        if Cut(idx, last, tail) {
          CapacityDrops(dirty, idx);
          freed := freed + dirty[idx].cap;
          dirty := dirty - {idx};
        }
      }
      if freed != 0 {
        bytes := bytes - freed;
        account.charge := account.charge - freed;
      }
    }

    method DropTrims(last: nat, tail: nat)
      modifies this`trims
      ensures trims == map idx | idx in old(trims) && !Cut(idx, last, tail) :: old(trims)[idx]
    {
      var todo := trims.Keys;
      while todo != {}
        invariant todo <= trims.Keys <= old(trims).Keys
        invariant forall idx :: idx in trims ==> trims[idx] == old(trims)[idx]
        invariant forall idx :: idx in old(trims) && idx !in todo ==> (idx in trims <==> !Cut(idx, last, tail))
        decreases todo
      {
        var idx :| idx in todo;
        todo := todo - {idx};
        if Cut(idx, last, tail) {
          trims := trims - {idx};
        }
      }
    }

    /** truncate: cuts or extends the file without fetching anything; a size
        over the limit is refused. */
    method Truncate(newSize: nat, maxFileSize: nat) returns (ok: bool)
      requires Inv() && maxFileSize < TWO_64
      modifies this`size, this`chunks, this`dirty, this`trims, this`unsettled, this`minSize, this`bytes, account
      ensures ok == (newSize <= maxFileSize)
      ensures !ok ==> View() == old(View()) && Inv()
      ensures ok ==> View() == Truncated(old(View()), newSize)
      ensures ok ==> Inv() && Content(View()) == Resize(old(Content(View())), newSize)
      ensures account.charge - bytes == old(account.charge - bytes)
    {
      if newSize > maxFileSize {
        return false;
      }
      TruncatedKeeps(View(), newSize);
      TruncatedIsResize(View(), newSize);
      ChangeSize(newSize);
      ok := true;
    }

    /** Shortening the tail in place keeps its capacity, so its charge. */
    method CutBuffers(last: nat, tail: nat)
      requires bytes == Capacity(dirty)
      modifies this`dirty, this`bytes, account
      ensures dirty == KeptBuffers(old(View()), last, tail)
      ensures bytes == Capacity(dirty) && account.charge - bytes == old(account.charge - bytes)
    {
      DropBuffers(last, tail);
      if tail != 0 && last in dirty && |dirty[last].data| > tail {
        var short := Buffer(dirty[last].data[..tail], dirty[last].cap);
        CapacitySets(dirty, last, short);
        dirty := dirty[last := short];
      }
    }

    method CutChunks(last: nat, tail: nat)
      modifies this`chunks
      ensures chunks == KeptChunks(old(View()), last, tail)
    {
      if |chunks| > last {
        var keep := if tail != 0 then last + 1 else last;
        if |chunks| > keep {
          chunks := chunks[..keep];
        }
      }
    }

    /** A cut into a stored chunk is recorded as a trim, and marked. */
    method RecordCut(ghost f: File, last: nat, tail: nat)
      requires chunks == KeptChunks(f, last, tail) && dirty == KeptBuffers(f, last, tail)
      requires trims == map idx | idx in f.trims && !Cut(idx, last, tail) :: f.trims[idx]
      modifies this`trims, this`unsettled
      ensures trims == KeptTrims(f, last, tail)
      ensures unsettled == (old(unsettled) ||
                (tail != 0 && |chunks| == last + 1 && chunks[last].Stored? && chunks[last].size > tail))
    {
      if tail != 0 && last !in dirty && |chunks| == last + 1 && chunks[last].Stored? {
        var v := if last in trims then trims[last].to else chunks[last].size;
        if tail < v {
          trims := trims[last := Trim(tail, chunks[last])];
        }
      }
      if tail != 0 && |chunks| == last + 1 && chunks[last].Stored? && chunks[last].size > tail {
        unsettled := true;
      }
    }

    method ChangeSize(newSize: nat)
      requires cs > 0 && bytes == Capacity(dirty)
      modifies this`size, this`chunks, this`dirty, this`trims, this`unsettled, this`minSize, this`bytes, account
      ensures View() == Truncated(old(View()), newSize)
      ensures bytes == Capacity(dirty) && account.charge - bytes == old(account.charge - bytes)
    {
      ghost var f := View();
      var last, tail := newSize / cs, newSize % cs;
      CutBuffers(last, tail);
      DropTrims(last, tail);
      CutChunks(last, tail);
      RecordCut(f, last, tail);
      if newSize > size {
        Extend(last);
      }
      size := newSize;
      minSize := if newSize < minSize then newSize else minSize;
    }

    /** Fills the chunk list with holes up to index n. */
    method Extend(n: nat)
      modifies this`chunks
      ensures chunks == if |old(chunks)| < n then old(chunks) + Holes(n - |old(chunks)|, cs) else old(chunks)
    {
      ghost var k := 0;
      while |chunks| < n
        invariant |old(chunks)| + k == |chunks| && (k > 0 ==> |chunks| <= n)
        invariant chunks == old(chunks) + Holes(k, cs)
      {
        assert Holes(k + 1, cs) == Holes(k, cs) + [Hole(cs)];
        chunks := chunks + [Hole(cs)];
        k := k + 1;
      }
    }

    /** applyTrim: uploads the first t.to bytes of the chunk it cuts. */
    method ApplyTrim(t: Trim) returns (r: Option<ChunkRef>)
      requires t.ref.Stored? && t.to <= |t.ref.hash.preimage| && known <= bucket
      modifies this`known, this`bucket
      ensures r.Some? ==> r.value == Stored(Sha256(t.ref.hash.preimage[..t.to]), t.to) && r.value.hash in bucket
      ensures old(bucket) <= bucket && known <= bucket
      ensures healthy && t.ref.hash in old(bucket) ==> r.Some?
    {
      var data := LoadChunk(t.ref);
      if data.None? {
        return None;
      }
      var n := if t.to < |data.value| then t.to else |data.value|;
      r := PutChunk(data.value[..n]);
    }

    /** Every trim uploaded as the chunk it leaves, or none of them used. */
    method UploadTrims() returns (trimmed: map<nat, ChunkRef>, ok: bool)
      requires Inv()
      modifies this`known, this`bucket
      ensures old(bucket) <= bucket && known <= bucket
      ensures forall idx :: idx in trims ==> TrimInv(View(), idx) && WellSized(View(), idx)
      ensures ok ==> trimmed.Keys == trims.Keys
      ensures healthy ==> ok
      ensures ok ==> forall idx :: idx in trimmed ==>
                trimmed[idx] == FlushedRef(View(), idx) && trimmed[idx].hash in bucket
    {
      trimmed := map[];
      var todo := trims.Keys;
      while todo != {}
        invariant todo <= trims.Keys && trimmed.Keys == trims.Keys - todo
        invariant old(bucket) <= bucket && known <= bucket
        invariant forall idx :: idx in trims ==> TrimInv(View(), idx) && WellSized(View(), idx)
        invariant forall idx :: idx in trimmed ==>
                    trimmed[idx] == FlushedRef(View(), idx) && trimmed[idx].hash in bucket
        decreases todo
      {
        var idx :| idx in todo;
        todo := todo - {idx};
        assert TrimInv(View(), idx);
        var r := ApplyTrim(trims[idx]);
        if r.None? {
          return trimmed, false;
        }
        trimmed := trimmed[idx := r.value];
      }
      ok := true;
    }

    /** Every buffer uploaded, in any order, or none of them used. */
    method UploadBuffers() returns (uploaded: map<nat, ChunkRef>, ok: bool)
      requires known <= bucket
      modifies this`known, this`bucket
      ensures old(bucket) <= bucket && known <= bucket
      ensures ok ==> uploaded.Keys == dirty.Keys
      ensures healthy ==> ok
      ensures ok ==> forall idx :: idx in uploaded ==>
                uploaded[idx] == Stored(Sha256(dirty[idx].data), |dirty[idx].data|) && uploaded[idx].hash in bucket
    {
      uploaded := map[];
      var todo := dirty.Keys;
      while todo != {}
        invariant todo <= dirty.Keys && uploaded.Keys == dirty.Keys - todo
        invariant old(bucket) <= bucket && known <= bucket
        invariant forall idx :: idx in uploaded ==>
                    uploaded[idx] == Stored(Sha256(dirty[idx].data), |dirty[idx].data|) && uploaded[idx].hash in bucket
        decreases todo
      {
        var idx :| idx in todo;
        todo := todo - {idx};
        var r := PutChunk(dirty[idx].data);
        if r.None? {
          return uploaded, false;
        }
        uploaded := uploaded[idx := r.value];
      }
      ok := true;
    }

    /** flushOpen's repointing of the trimmed chunks. */
    method RepointTrims(trimmed: map<nat, ChunkRef>)
      modifies this`chunks
      ensures |chunks| == |old(chunks)|
      ensures forall j :: 0 <= j < |chunks| ==> chunks[j] == if j in trimmed then trimmed[j] else old(chunks)[j]
    {
      var todo := trimmed.Keys;
      while todo != {}
        invariant todo <= trimmed.Keys && |chunks| == |old(chunks)|
        invariant forall j :: 0 <= j < |chunks| ==>
                    chunks[j] == if j in trimmed && j !in todo then trimmed[j] else old(chunks)[j]
        decreases todo
      {
        var idx :| idx in todo;
        todo := todo - {idx};
        if idx < |chunks| {
          chunks := chunks[idx := trimmed[idx]];
        }
      }
    }

    /** flushOpen's repointing of the uploaded chunks, gaps filled with holes. */
    method RepointBuffers(uploaded: map<nat, ChunkRef>)
      modifies this`chunks
      ensures |old(chunks)| <= |chunks|
      ensures |old(chunks)| < |chunks| ==> |chunks| - 1 in uploaded
      ensures forall j :: j in uploaded ==> j < |chunks|
      ensures forall j :: 0 <= j < |chunks| ==>
                chunks[j] == if j in uploaded then uploaded[j]
                             else if j < |old(chunks)| then old(chunks)[j] else Hole(cs)
    {
      var todo := uploaded.Keys;
      while todo != {}
        invariant todo <= uploaded.Keys && |old(chunks)| <= |chunks|
        invariant |old(chunks)| < |chunks| ==> |chunks| - 1 in uploaded
        invariant forall j :: j in uploaded && j !in todo ==> j < |chunks|
        invariant forall j :: 0 <= j < |chunks| ==>
                    chunks[j] == if j in uploaded && j !in todo then uploaded[j]
                                 else if j < |old(chunks)| then old(chunks)[j] else Hole(cs)
        decreases todo
      {
        var idx :| idx in todo;
        todo := todo - {idx};
        Extend(idx + 1);
        chunks := chunks[idx := uploaded[idx]];
      }
    }

    /** Returns what the file is charged, and forgets its buffers and trims. */
    method Release()
      modifies this`dirty, this`trims, this`bytes, account
      ensures dirty == map[] && trims == map[] && bytes == 0
      ensures account.charge == old(account.charge - bytes)
    {
      account.charge := account.charge - bytes;
      dirty, trims, bytes := map[], map[], 0;
    }

    /** The hold that repoints the chunk list: what was uploaded is now named. */
    method Repoint(trimmed: map<nat, ChunkRef>, uploaded: map<nat, ChunkRef>)
      requires Valid(View()) && Backed() && trimmed.Keys == trims.Keys && uploaded.Keys == dirty.Keys
      requires forall idx :: idx in trims ==> TrimInv(View(), idx) && WellSized(View(), idx)
      requires forall idx :: idx in trimmed ==> trimmed[idx] == FlushedRef(View(), idx) && trimmed[idx].hash in bucket
      requires forall idx :: idx in uploaded ==>
                 uploaded[idx] == Stored(Sha256(dirty[idx].data), |dirty[idx].data|) && uploaded[idx].hash in bucket
      modifies this`chunks, this`unsettled, this`minSize
      ensures IsFlush(old(View()), View().(dirty := map[], trims := map[])) && Backed()
    {
      RepointTrims(trimmed);
      RepointBuffers(uploaded);
      unsettled, minSize := false, size;
    }

    /** flushOpen. alive says that the inode is still there when the flush looks
        for it: a fetch or an upload that fails leaves a live file as it was. */
    method FlushOpen(alive: bool) returns (ok: bool)
      requires Inv()
      modifies this`chunks, this`dirty, this`trims, this`unsettled, this`minSize, this`bytes
      modifies this`known, this`bucket, account
      ensures account.charge - bytes == old(account.charge - bytes)
      ensures ok && alive ==> IsFlush(old(View()), View()) && Inv() && bytes == 0
      ensures ok && alive ==>
                Content(View()) == old(Content(View())) && StoredContent(View()) == old(Content(View()))
      ensures !ok && alive ==> View() == old(View()) && Inv()
      ensures ok || !alive ==> dirty == map[] && trims == map[] && bytes == 0
      ensures ok ==> !unsettled
      ensures old(bucket) <= bucket && (healthy || old(dirty == map[] && trims == map[]) ==> ok)
    {
      if dirty == map[] && trims == map[] {
        NothingHiddenIsSettled(View());
        unsettled, minSize := false, size;
        ok := true;
      } else {
        ok := FlushChanges(alive);
      }
      if ok && alive {
        FlushKeeps(old(View()), View());
        FlushKeepsBytes(old(View()), View());
      }
    }

    method FlushChanges(alive: bool) returns (ok: bool)
      requires Inv()
      modifies this`chunks, this`dirty, this`trims, this`unsettled, this`minSize, this`bytes
      modifies this`known, this`bucket, account
      ensures account.charge - bytes == old(account.charge - bytes)
      ensures ok && alive ==> IsFlush(old(View()), View())
      ensures alive ==> Backed()
      ensures !ok && alive ==> View() == old(View()) && bytes == old(bytes)
      ensures ok || !alive ==> dirty == map[] && trims == map[] && bytes == 0
      ensures ok ==> !unsettled
      ensures old(bucket) <= bucket && (healthy ==> ok)
    {
      var trimmed, uploaded := map[], map[];
      trimmed, ok := UploadTrims();
      if ok {
        uploaded, ok := UploadBuffers();
      }
      if ok {
        if alive {
          Repoint(trimmed, uploaded);
        } else {
          unsettled := false;
        }
      }
      if ok || !alive {
        Release();
      }
    }

    /** readSpan and the copy: where chunk idx meets the range, data goes into
        out. The chunk's end is computed only when it lies below end. */
    method CopySpan(out: seq<Byte>, off: nat, end: nat, idx: nat, data: seq<Byte>) returns (r: seq<Byte>)
      requires cs > 0 && off < end < TWO_64 && |out| == end - off
      requires idx * cs < end && off < idx * cs + cs
      ensures Copied(cs, out, r, off, end, idx * cs, data)
    {
      var base := Mul64(idx, cs);
      var lo, hi := base, end;
      if lo < off {
        lo := off;
      }
      if end - base > cs {
        hi := Add64(base, cs);
      }
      var within := lo - base;
      if within < |data| {
        var n := if |data| - within < hi - lo then |data| - within else hi - lo;
        r := out[..lo - off] + data[within..within + n] + out[lo - off + n..];
      } else {
        r := out;
      }
    }

    /** readRefs: the chunks the range touches that have to be fetched. */
    method TrimHides(off: nat, idx: nat, last: nat) returns (hides: bool)
      requires Valid(View()) && idx <= last && last * cs < TWO_64
      ensures hides == (idx in trims && idx * cs + trims[idx].to <= off)
    {
      if idx !in trims { return false; }
      if idx < last { ChunkBase(cs, idx, last); }
      var base := Mul64(idx, cs);
      var within := if off > base then off - base else 0;
      assert TrimInv(View(), idx);
      hides := within >= trims[idx].to;
    }

    method ReadRefs(off: nat, first: nat, last: nat) returns (refs: seq<ReadRef>)
      requires Valid(View()) && first <= last && last * cs < TWO_64
      ensures Wanted(View(), off, first, last + 1, refs)
      ensures AllFetched(View(), off, first, last + 1, refs)
    {
      refs := [];
      var idx := first;
      while idx <= last && idx < |chunks|
        invariant first <= idx <= last + 1
        invariant Wanted(View(), off, first, idx, refs) && AllFetched(View(), off, first, idx, refs)
      {
        ghost var before := refs;
        if idx !in dirty && chunks[idx].Stored? {
          var skip := TrimHides(off, idx, last);
          if !skip {
            refs := refs + [ReadRef(idx, chunks[idx], if idx in trims then Some(trims[idx].to) else None)];
          }
        }
        NextWanted(View(), off, first, idx, before);
        idx := idx + 1;
      }
      PastTheList(View(), off, first, idx, last, refs);
    }

    /** The dirty bytes in range, copied while the file's lock is held. */
    method CopyDirty(off: nat, end: nat, first: nat, last: nat) returns (out: seq<Byte>)
      requires Valid(View()) && off < end < TWO_64
      requires first == off / cs && last == (end - 1) / cs
      ensures Filled(View(), out, off, end, DirtyIn(dirty, first, last))
    {
      out := Zeros(end - off);
      ghost var done: set<nat> := {};
      var idx := first;
      RangeChunks(off, end, cs);
      while idx <= last
        invariant first <= idx <= last + 1
        invariant done == set j | j in dirty && first <= j < idx
        invariant Filled(View(), out, off, end, done)
      {
        if idx in dirty {
          InRange(off, end, cs, idx);
          var r := CopySpan(out, off, end, idx, dirty[idx].data);
          CopiedFills(View(), out, r, off, end, done, idx, dirty[idx].data);
          done := done + {idx};
          out := r;
        }
        idx := idx + 1;
      }
      assert done == DirtyIn(dirty, first, last);
    }

    /** The fetched bytes, copied as each fetch succeeds. f is the file as the
        locked hold saw it: the fetches hold no lock, and whatever is done to the
        file meanwhile, the chunks f names are still stored. */
    method CopyFetched(ghost f: File, out: seq<Byte>, off: nat, end: nat, refs: seq<ReadRef>, ghost done: set<nat>)
      returns (r: Option<seq<Byte>>)
      requires Valid(f) && f.cs == cs && off < end < TWO_64 && Filled(f, out, off, end, done)
      requires Wanted(f, off, off / cs, (end - 1) / cs + 1, refs) && Indices(refs) !! done
      requires known <= bucket && Held(refs, bucket)
      modifies this`known
      ensures known <= bucket && (healthy || refs == [] ==> r.Some?)
      ensures r.Some? ==> Filled(f, r.value, off, end, done + Indices(refs))
    {
      var cur := out;
      ghost var all := done;
      for k := 0 to |refs|
        invariant all == done + Indices(refs[..k])
        invariant Filled(f, cur, off, end, all) && known <= bucket
      {
        var ref := refs[k];
        var data := LoadChunk(ref.ref);
        if data.None? {
          return None;
        }
        InRange(off, end, cs, ref.idx);
        forall w: nat
          ensures ByteOf(f, ref.idx, w) == if w < |Kept(ref, data.value)| then Kept(ref, data.value)[w] else 0
        {
          FetchedBytes(f, ref.idx, w);
        }
        var next := CopySpan(cur, off, end, ref.idx, Kept(ref, data.value));
        assert ref.idx in Indices(refs);
        assert ref.idx !in all;
        CopiedFills(f, cur, next, off, end, all, ref.idx, Kept(ref, data.value));
        cur := next;
        IndicesGrow(refs, k);
        all := all + {ref.idx};
      }
      assert refs[..|refs|] == refs;
      return Some(cur);
    }

    /** Read's second half: what the hold took away, completed. The bytes are f's,
        the file at the instant of the hold. */
    method FetchRest(ghost f: File, out: seq<Byte>, off: nat, end: nat, refs: seq<ReadRef>, ghost done: set<nat>)
      returns (r: Option<seq<Byte>>)
      requires Valid(f) && f.cs == cs && off < end <= f.size < TWO_64 && Taken(f, out, off, end, refs, done)
      requires known <= bucket && Held(refs, bucket)
      modifies this`known
      ensures known <= bucket && (healthy || refs == [] ==> r.Some?)
      ensures r.Some? ==> r.value == Content(f)[off..end]
    {
      r := CopyFetched(f, out, off, end, refs, done);
      if r.Some? {
        FilledIsContent(f, r.value, off, end, done + Indices(refs));
      }
    }

    /** The chunks a range starts and ends in. */
    method FirstAndLast(off: nat, end: nat) returns (first: nat, last: nat)
      requires cs > 0 && off < end < TWO_64
      ensures first == off / cs && last == (end - 1) / cs && first <= last && last * cs < TWO_64
    {
      RangeChunks(off, end, cs);
      first, last := off / cs, (end - 1) / cs;
    }

    /** What one hold of the file's lock takes away: the dirty bytes, copied, and
        the chunks still to fetch. */
    method ReadBuffered(off: nat, end: nat) returns (refs: seq<ReadRef>, out: seq<Byte>, ghost done: set<nat>)
      requires Valid(View()) && off < end < TWO_64 && Backed()
      ensures Taken(View(), out, off, end, refs, done) && Held(refs, bucket)
    {
      var first, last := FirstAndLast(off, end);
      refs := ReadRefs(off, first, last);
      done := DirtyIn(dirty, first, last);
      AllAccounted(View(), off, first, last, refs);
      out := CopyDirty(off, end, first, last);
    }

    method ReadRange(off: nat, end: nat) returns (out: Option<seq<Byte>>)
      requires Valid(View()) && off < end <= size < TWO_64 && Backed()
      modifies this`known
      ensures Backed() && (healthy || NothingToFetch(View(), off, end) ==> out.Some?)
      ensures out.Some? ==> out.value == Content(View())[off..end]
    {
      var refs, dirtyOut;
      ghost var done;
      refs, dirtyOut, done := ReadBuffered(off, end);
      assert refs != [] ==> Fetchable(View(), off, refs[0].idx);
      out := FetchRest(View(), dirtyOut, off, end, refs, done);
    }

    /** Read: exactly the bytes of the plain file in the range, clamped to its
        size, with eof decided by that size; or nothing, if a fetch fails. */
    method Read(off: nat, count: nat) returns (out: Option<seq<Byte>>, eof: bool)
      requires Inv() && count < TWO_32
      modifies this`known
      ensures Inv() && (healthy ==> out.Some?)
      ensures off < size && NothingToFetch(View(), off, if off + count < size then off + count else size) ==> out.Some?
      ensures off >= size ==> out == Some([]) && eof
      ensures off < size && out.Some? ==>
                var end := if off + count < size then off + count else size;
                out.value == Content(View())[off..end] && eof == (end >= size)
    {
      if off >= size {
        return Some([]), true;
      }
      var end := ReadEnd(off, size, count);
      if end == off {
        return Some([]), end >= size;
      }
      out := ReadRange(off, end);
      eof := end >= size;
    }
  }

  lemma RangeChunks(off: nat, end: nat, cs: nat)
    requires cs > 0 && off < end
    ensures off / cs <= (end - 1) / cs && (end - 1) / cs * cs < end
  {
    InChunk(off, cs, off / cs);
    InChunk(end - 1, cs, (end - 1) / cs);
    if (end - 1) / cs < off / cs { ChunkBase(cs, (end - 1) / cs, off / cs); }
  }

  /** A chunk index between the range's first and last meets the range. */
  lemma InRange(off: nat, end: nat, cs: nat, idx: nat)
    requires cs > 0 && off < end && off / cs <= idx <= (end - 1) / cs
    ensures idx * cs < end && off < idx * cs + cs
  {
    InChunk(off, cs, off / cs);
    InChunk(end - 1, cs, (end - 1) / cs);
    if off / cs < idx { ChunkBase(cs, off / cs, idx); }
    if idx < (end - 1) / cs { ChunkBase(cs, idx, (end - 1) / cs); }
  }

  lemma IndicesGrow(refs: seq<ReadRef>, k: nat)
    requires k < |refs|
    ensures Indices(refs[..k + 1]) == Indices(refs[..k]) + {refs[k].idx}
  {
    assert refs[..k + 1] == refs[..k] + [refs[k]];
    IndicesAppend(refs[..k], refs[k]);
  }

  ghost function DirtyIn(dirty: map<nat, Buffer>, first: nat, last: nat): set<nat> {
    set idx | idx in dirty && first <= idx <= last
  }

  ghost predicate AllFetched(f: File, off: nat, first: nat, limit: nat, refs: seq<ReadRef>) {
    forall idx :: first <= idx < limit && Fetchable(f, off, idx) ==> idx in Indices(refs)
  }

  /** One more index looked at, and taken if there is anything to fetch there. */
  lemma NextWanted(f: File, off: nat, first: nat, idx: nat, refs: seq<ReadRef>)
    requires first <= idx < |f.chunks| && Wanted(f, off, first, idx, refs) && AllFetched(f, off, first, idx, refs)
    ensures var next := if Fetchable(f, off, idx) then refs + [RefFor(f, idx)] else refs;
            Wanted(f, off, first, idx + 1, next) && AllFetched(f, off, first, idx + 1, next)
  {
    if Fetchable(f, off, idx) {
      AppendWanted(f, off, first, idx, refs);
      IndicesAppend(refs, RefFor(f, idx));
    }
  }

  lemma AppendWanted(f: File, off: nat, first: nat, idx: nat, refs: seq<ReadRef>)
    requires first <= idx && Fetchable(f, off, idx) && Wanted(f, off, first, idx, refs)
    ensures Wanted(f, off, first, idx + 1, refs + [RefFor(f, idx)])
  {
    var next := refs + [RefFor(f, idx)];
    assert forall k :: 0 <= k < |refs| ==> next[k] == refs[k];
    assert next[|refs|].idx == idx;
  }

  lemma IndicesAppend(refs: seq<ReadRef>, r: ReadRef)
    ensures Indices(refs + [r]) == Indices(refs) + {r.idx}
  {
    var next := refs + [r];
    assert forall k :: 0 <= k < |refs| ==> next[k] == refs[k];
    assert next[|refs|] == r;
  }

  lemma PastTheList(f: File, off: nat, first: nat, idx: nat, last: nat, refs: seq<ReadRef>)
    requires idx <= last + 1 && (idx <= last ==> |f.chunks| <= idx)
    requires Wanted(f, off, first, idx, refs) && AllFetched(f, off, first, idx, refs)
    ensures Wanted(f, off, first, last + 1, refs) && AllFetched(f, off, first, last + 1, refs)
  {
  }

  lemma AllAccounted(f: File, off: nat, first: nat, last: nat, refs: seq<ReadRef>)
    requires Wanted(f, off, first, last + 1, refs) && AllFetched(f, off, first, last + 1, refs)
    ensures Complete(f, off, first, last, DirtyIn(f.dirty, first, last) + Indices(refs))
    ensures Indices(refs) !! DirtyIn(f.dirty, first, last)
  {
  }

  /** Every chunk in range that holds more than zeros is among those done. */
  ghost predicate Complete(f: File, off: nat, first: nat, last: nat, done: set<nat>) {
    forall idx :: first <= idx <= last && idx !in done ==> idx !in f.dirty && !Fetchable(f, off, idx)
  }

  lemma FilledIsContent(f: File, out: seq<Byte>, off: nat, end: nat, done: set<nat>)
    requires Valid(f) && off < end <= f.size && Filled(f, out, off, end, done)
    requires Complete(f, off, off / f.cs, (end - 1) / f.cs, done)
    ensures out == Content(f)[off..end]
  {
    forall j | 0 <= j < |out| ensures out[j] == Content(f)[off..end][j] {
      var i := off + j;
      assert out[i - off] == if i / f.cs in done then ByteAt(f, i) else 0;
      RangeChunks(off, i + 1, f.cs);
      RangeChunks(i, end, f.cs);
      if i / f.cs !in done { UnfetchedIsZero(f, off, i); }
    }
  }
}
