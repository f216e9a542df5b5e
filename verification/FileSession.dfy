/** Whole sessions on one file: any sequence of reads, writes, size changes and
    flushes, set beside a plain sequence of bytes. */
module FileSession {
  import opened Wrappers
  import opened FileState
  import opened FileData

  datatype Op =
    | ReadOp(off: nat, count: nat)
    | WriteOp(off: nat, data: seq<Byte>, how: Stability)
    | ResizeOp(size: nat)
    | FlushOp

  /** What the caller saw. A write the budget refused took nothing; a stable one
      that could not be synced took what it reports. admitted and synced are what
      the budget and Sync answered it. */
  datatype Reply =
    | Got(data: Option<seq<Byte>>, eof: bool)
    | Took(n: nat, admitted: bool, synced: bool, stable: bool)
    | Resized(done: bool)
    | Flushed(ok: bool)

  /** A plain file after an operation that was answered so. */
  function After(s: seq<Byte>, op: Op, r: Reply): seq<Byte> {
    match op
    case WriteOp(off, data, _) => if r.Took? && r.n <= |data| then Overwrite(s, off, data[..r.n]) else s
    case ResizeOp(size) => if r == Resized(true) then Resize(s, size) else s
    case _ => s
  }

  /** The answers a plain file may give: bytes read are its bytes, and a write
      takes some prefix of its data, none of it past the size limit. While the
      store answers, nothing fails, and a write the budget admits takes all that
      is below the limit. */
  predicate Answers(s: seq<Byte>, op: Op, r: Reply, max: nat, healthy: bool) {
    match op
    case ReadOp(off, count) =>
      && r.Got?
      && (r.data.Some? ==>
            if off >= |s| then r == Got(Some([]), true)
            else
              var end := if off + count < |s| then off + count else |s|;
              r == Got(Some(s[off..end]), end == |s|))
      && (off >= |s| || healthy ==> r.data.Some?)
    case WriteOp(off, data, how) =>
      && r.Took? && r.n <= Room(off, |data|, max)
      && (healthy && r.admitted ==> r.n == Room(off, |data|, max))
      && (!r.admitted ==> r.n == 0) && (r.stable ==> how != Unstable || data == [])
      && (healthy && r.admitted && r.synced && how != Unstable && off < max ==> r.stable)
    case ResizeOp(size) => r == Resized(size <= max)
    case FlushOp => r.Flushed? && (healthy ==> r.ok)
  }

  /** The replies are a plain file's, one after the other. */
  predicate Plain(s: seq<Byte>, ops: seq<Op>, rs: seq<Reply>, max: nat, healthy: bool)
    decreases |ops|
  {
    && |rs| == |ops|
    && (ops != [] ==>
          && Answers(s, ops[0], rs[0], max, healthy)
          && Plain(After(s, ops[0], rs[0]), ops[1..], rs[1..], max, healthy))
  }

  function Finally(s: seq<Byte>, ops: seq<Op>, rs: seq<Reply>): seq<Byte>
    requires |rs| == |ops|
    decreases |ops|
  {
    if ops == [] then s else Finally(After(s, ops[0], rs[0]), ops[1..], rs[1..])
  }

  method PerformWrite(f: OpenFile, off: nat, data: seq<Byte>, how: Stability, max: nat) returns (r: Reply)
    requires f.Inv() && max < TWO_64
    modifies f, f.account
    ensures f.Inv() && f.healthy == old(f.healthy) && old(f.bucket) <= f.bucket
    ensures Answers(old(Content(f.View())), WriteOp(off, data, how), r, max, f.healthy)
    ensures Content(f.View()) == After(old(Content(f.View())), WriteOp(off, data, how), r)
    ensures f.account.charge - f.bytes == old(f.account.charge - f.bytes)
    ensures r.Took? && (r.stable && data != [] ==> StoredContent(f.View()) == Content(f.View()) && !f.unsettled)
  {
    var admitted: bool, synced: bool := *, *;
    var n, answer, ok := f.Write(off, data, max, how, admitted, synced, false, false);
    r := Took(n, admitted, synced, ok && answer == FileSync);
  }

  method Perform(f: OpenFile, op: Op, max: nat) returns (r: Reply)
    requires f.Inv() && max < TWO_64 && (op.ReadOp? ==> op.count < TWO_32)
    modifies f, f.account
    ensures f.Inv()
    ensures f.healthy == old(f.healthy) && Answers(old(Content(f.View())), op, r, max, f.healthy)
    ensures Content(f.View()) == After(old(Content(f.View())), op, r)
    ensures f.account.charge - f.bytes == old(f.account.charge - f.bytes) && old(f.bucket) <= f.bucket
    ensures op.FlushOp? && r == Flushed(true) ==> StoredContent(f.View()) == Content(f.View()) && !f.unsettled
  {
    match op {
      case ReadOp(off, count) =>
        var data, eof := f.Read(off, count);
        r := Got(data, eof);
      case WriteOp(off, data, how) =>
        r := PerformWrite(f, off, data, how, max);
      case ResizeOp(size) =>
        var ok := f.Truncate(size, max);
        r := Resized(ok);
      case FlushOp =>
        var ok := f.FlushOpen(true);
        r := Flushed(ok);
    }
  }

  /** The buffered file refines a plain sequence of bytes: whatever is done to
      it, and whichever fetches and uploads fail on the way, every answer is the
      plain file's, and so is what the file holds in the end. */
  method Session(f: OpenFile, ops: seq<Op>, max: nat) returns (rs: seq<Reply>)
    requires f.Inv() && max < TWO_64 && forall op :: op in ops && op.ReadOp? ==> op.count < TWO_32
    modifies f, f.account
    ensures f.Inv()
    ensures f.healthy == old(f.healthy) && Plain(old(Content(f.View())), ops, rs, max, f.healthy)
    ensures Content(f.View()) == Finally(old(Content(f.View())), ops, rs)
    ensures f.account.charge - f.bytes == old(f.account.charge - f.bytes) && old(f.bucket) <= f.bucket
    decreases |ops|
  {
    if ops == [] {
      return [];
    }
    var r := Perform(f, ops[0], max);
    var rest := Session(f, ops[1..], max);
    rs := [r] + rest;
    assert rs[1..] == rest;
  }

  lemma StillHeld(refs: seq<ReadRef>, b: set<Hash>, b': set<Hash>)
    requires Held(refs, b) && b <= b'
    ensures Held(refs, b')
  {
  }

  method RangeDuring(f: OpenFile, off: nat, end: nat, ops: seq<Op>, max: nat)
    returns (data: Option<seq<Byte>>, rs: seq<Reply>)
    requires f.Inv() && off < end <= f.size && max < TWO_64
    requires forall op :: op in ops && op.ReadOp? ==> op.count < TWO_32
    modifies f, f.account
    ensures f.Inv() && f.healthy == old(f.healthy) && (f.healthy ==> data.Some?)
    ensures data.Some? ==> data.value == old(Content(f.View()))[off..end]
    ensures Plain(old(Content(f.View())), ops, rs, max, f.healthy)
    ensures Content(f.View()) == Finally(old(Content(f.View())), ops, rs)
  {
    ghost var seen, was := f.View(), f.bucket;
    var refs, out;
    ghost var done;
    refs, out, done := f.ReadBuffered(off, end);
    rs := Session(f, ops, max);
    StillHeld(refs, was, f.bucket);
    data := f.FetchRest(seen, out, off, end, refs, done);
  }

  /** A Read beside other operations: it fetches holding no lock, so any of them
      may come between its hold and its fetches. What it answers is still the
      plain file at one instant, that of its hold. */
  method ReadDuring(f: OpenFile, off: nat, count: nat, ops: seq<Op>, max: nat) returns (r: Reply, rs: seq<Reply>)
    requires f.Inv() && max < TWO_64 && count < TWO_32
    requires forall op :: op in ops && op.ReadOp? ==> op.count < TWO_32
    modifies f, f.account
    ensures f.Inv() && f.healthy == old(f.healthy)
    ensures Answers(old(Content(f.View())), ReadOp(off, count), r, max, f.healthy)
    ensures Plain(old(Content(f.View())), ops, rs, max, f.healthy)
    ensures Content(f.View()) == Finally(old(Content(f.View())), ops, rs)
  {
    if off >= f.size {
      r := Got(Some([]), true);
      rs := Session(f, ops, max);
      return;
    }
    var end := ReadEnd(off, f.size, count);
    var eof := end >= f.size;
    if end == off {
      r := Got(Some([]), eof);
      rs := Session(f, ops, max);
      return;
    }
    var data;
    data, rs := RangeDuring(f, off, end, ops, max);
    r := Got(data, eof);
  }
}
