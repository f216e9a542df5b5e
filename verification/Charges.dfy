/** Who pays for buffered writes: the budget's charge, each open file's atomic
    share of it, and the writes, truncates, flushes and removals that move
    capacity between them, every lock hold and atomic operation a step. */
module Charges {
  import opened Wrappers

  type Inode = nat
  type Ref = nat  // an openFile object, by the order of its making

  /** What the holder of a file's lock has reached. */
  datatype Op =
    | Idle                     // nobody holds it
    | Buffering(charge: nat)   // bufferWrite, with the capacity it has added so far
    | Charged(charge: nat)     // that capacity is on the budget, and not yet on the file
    | Counted                  // and on the file; the inode is not yet looked up again
    | Flushing                 // flushOpen, uploading
    | Emptied                  // its buffers are dropped, its share not yet taken
    | Releasing(freed: int)    // taken off the file, and not yet off the budget

  /** capacity: the summed capacity of the dirty buffers. bytes: the file's share. */
  datatype File = File(inode: Inode, capacity: nat, bytes: int, op: Op)

  /** The namespace lock as a removal holds it: free, the inode just deleted, or
      its file's share taken and not yet released. */
  datatype Hold = Free | Removed(inode: Inode) | Taken(freed: int)

  datatype State = State(files: seq<File>, open: map<Inode, Ref>, live: set<Inode>, issued: set<Inode>,
                         charge: int, mu: Hold)

  const INIT := State([], map[], {}, {}, 0, Free)

  /** The steps of a file's holder. */
  datatype FileStep =
    | BeginWrite
    | Buffer(n: nat)         // one more index, adding n to the capacity held
    | ChargeBudget
    | CountBytes
    | EndWrite
    | FailWrite              // its first fetch failed: nothing was buffered
    | Truncate(freed: nat)
    | BeginFlush
    | EmptyBuffers           // after the repointing
    | TakeShare
    | FailFlush
    | ReleaseBudget

  datatype Step =
    | Create(inode: Inode)
    | GetOpen(inode: Inode)
    | OnFile(r: Ref, step: FileStep)
    | Remove(inode: Inode)   // unlink, or a rename over it
    | DropOpen
    | ReleaseDropped

  predicate Can(f: File, step: FileStep, alive: bool) {
    match step
    case BeginWrite => f.op == Idle
    case Buffer(_) => f.op.Buffering?
    case ChargeBudget => f.op.Buffering?
    case CountBytes => f.op.Charged?
    case EndWrite => f.op == Counted
    case FailWrite => f.op == Buffering(0)
    case Truncate(freed) => f.op == Idle && alive && freed <= f.capacity
    case BeginFlush => f.op == Idle
    case EmptyBuffers => f.op == Flushing
    case TakeShare => f.op == Emptied
    case FailFlush => f.op == Flushing
    case ReleaseBudget => f.op.Releasing?
  }

  /** The steps made holding the namespace lock too. */
  predicate TakesMu(step: FileStep) {
    step.BeginWrite? || step.EndWrite? || step.Truncate? || step.FailFlush?
  }

  predicate Enabled(s: State, step: Step) {
    match step
    case Create(i) => s.mu == Free && i !in s.issued
    case GetOpen(i) => s.mu == Free && i in s.issued
    case OnFile(r, fs) =>
      r < |s.files| && Can(s.files[r], fs, s.files[r].inode in s.live) && (TakesMu(fs) ==> s.mu == Free)
    case Remove(i) => s.mu == Free && i in s.live
    case DropOpen => s.mu.Removed? && (s.mu.inode in s.open ==> s.open[s.mu.inode] < |s.files|)
    case ReleaseDropped => s.mu.Taken?
  }

  /** of.bytes.Swap(0), by the file's own holder, with its buffers dropped. */
  function Swap(f: File): File {
    f.(bytes := 0, capacity := 0, op := Releasing(f.bytes))
  }

  /** What the holder's step makes of the file; alive: its inode is in the table. */
  function Move(f: File, step: FileStep, alive: bool): File
    requires Can(f, step, alive)
  {
    match step
    case BeginWrite => f.(op := if alive then Buffering(0) else Counted)  // gone: nothing is buffered
    case Buffer(n) => f.(capacity := f.capacity + n, op := Buffering(f.op.charge + n))
    case ChargeBudget => f.(op := Charged(f.op.charge))
    case CountBytes => f.(op := Counted, bytes := f.bytes + f.op.charge)
    case EndWrite => if alive then f.(op := Idle) else Swap(f)
    case FailWrite => f.(op := Idle)
    case Truncate(freed) => f.(capacity := f.capacity - freed, bytes := f.bytes - freed, op := Releasing(freed))
    case BeginFlush => f.(op := Flushing)
    case EmptyBuffers => f.(capacity := 0, op := Emptied)
    case TakeShare => Swap(f)
    case FailFlush => if alive then f.(op := Idle) else Swap(f)
    case ReleaseBudget => f.(op := Idle)
  }

  /** And what it adds to the budget's charge. */
  function Adds(f: File, step: FileStep, alive: bool): int
    requires Can(f, step, alive)
  {
    if step.ChargeBudget? then f.op.charge else if step.ReleaseBudget? then -f.op.freed else 0
  }

  function Do(s: State, step: Step): State
    requires Enabled(s, step)
  {
    match step
    case Create(i) => s.(live := s.live + {i}, issued := s.issued + {i})
    case GetOpen(i) =>
      if i in s.open then s
      else s.(files := s.files + [File(i, 0, 0, Idle)], open := s.open[i := |s.files|])
    case OnFile(r, fs) =>
      var f := s.files[r];
      s.(files := s.files[r := Move(f, fs, f.inode in s.live)], charge := s.charge + Adds(f, fs, f.inode in s.live))
    case Remove(i) => s.(live := s.live - {i}, mu := Removed(i))
    case DropOpen =>
      // takes no file's lock: whatever its holder is doing, it goes on
      var i := s.mu.inode;
      if i !in s.open then s.(mu := Taken(0))
      else
        var f := s.files[s.open[i]];
        s.(files := s.files[s.open[i] := f.(bytes := 0)], open := s.open - {i}, mu := Taken(f.bytes))
    case ReleaseDropped => s.(charge := s.charge - s.mu.freed, mu := Free)
  }

  // What every step keeps.

  /** On the budget for this file, on its share or on the way to or from it. */
  function Owes(f: File): int {
    f.bytes + match f.op case Charged(c) => c case Releasing(n) => n case _ => 0
  }

  function Sum(fs: seq<File>): int {
    if fs == [] then 0 else Sum(fs[..|fs| - 1]) + Owes(fs[|fs| - 1])
  }

  lemma {:induction false} SumUpdate(fs: seq<File>, r: Ref, f: File)
    requires r < |fs|
    ensures Sum(fs[r := f]) == Sum(fs) - Owes(fs[r]) + Owes(f)
  {
    var last := |fs| - 1;
    if r == last {
      assert fs[r := f][..last] == fs[..last];
    } else {
      assert fs[r := f][..last] == fs[..last][r := f];
      SumUpdate(fs[..last], r, f);
    }
  }

  /** A file whose share still answers for its buffers. */
  predicate Tracked(s: State, i: Inode) {
    i in s.live || s.mu == Removed(i)
  }

  /** The share is the capacity held, less what a write has yet to count; once
      the file is gone it is nothing, but for what a write is about to drop. */
  predicate ShareInv(f: File, tracked: bool) {
    && f.bytes >= 0
    && if tracked then
         match f.op
         case Buffering(c) => f.bytes + c == f.capacity
         case Charged(c) => f.bytes + c == f.capacity
         case Emptied => f.capacity == 0
         case Releasing(n) => f.bytes == f.capacity && n >= 0
         case _ => f.bytes == f.capacity
       else (f.op.Counted? || f.bytes == 0) && (f.op.Releasing? ==> f.op.freed >= 0)
  }

  /** While an inode is in the table its one openFile is the one listed. */
  predicate FileInv(s: State, r: Ref, f: File) {
    && f.inode in s.issued && ShareInv(f, Tracked(s, f.inode))
    && (Tracked(s, f.inode) ==> f.inode in s.open && s.open[f.inode] == r)
  }

  ghost predicate FilesInv(s: State) {
    && s.live <= s.issued
    && (s.mu.Removed? ==> s.mu.inode !in s.live)
    && (forall i :: i in s.open ==> s.open[i] < |s.files| && s.files[s.open[i]].inode == i)
    && (forall r: nat {:trigger s.files[r]} :: r < |s.files| ==> FileInv(s, r, s.files[r]))
  }

  /** The charge is what the files answer for, to the byte. */
  predicate Conserved(s: State) {
    s.charge == Sum(s.files) + if s.mu.Taken? then s.mu.freed else 0
  }

  lemma MoveKeeps(f: File, step: FileStep, alive: bool, tracked: bool)
    requires Can(f, step, alive) && ShareInv(f, tracked) && (alive ==> tracked) && (TakesMu(step) ==> alive == tracked)
    ensures Move(f, step, alive).inode == f.inode && ShareInv(Move(f, step, alive), tracked)
    ensures Owes(Move(f, step, alive)) == Owes(f) + Adds(f, step, alive)
  {
  }

  lemma FilesKept(s: State, step: Step)
    requires FilesInv(s) && Enabled(s, step)
    ensures FilesInv(Do(s, step))
  {
    var t := Do(s, step);
    if step.OnFile? {
      var f := s.files[step.r];
      MoveKeeps(f, step.step, f.inode in s.live, Tracked(s, f.inode));
    }
    forall r: nat | r < |t.files| ensures FileInv(t, r, t.files[r]) {
      if r < |s.files| { assert FileInv(s, r, s.files[r]); }
    }
  }

  lemma ChargeKept(s: State, step: Step)
    requires FilesInv(s) && Conserved(s) && Enabled(s, step)
    ensures Conserved(Do(s, step))
  {
    var t := Do(s, step);
    match step
    case OnFile(r, fs) =>
      MoveKeeps(s.files[r], fs, s.files[r].inode in s.live, Tracked(s, s.files[r].inode));
      SumUpdate(s.files, r, t.files[r]);
    case GetOpen(i) => assert i !in s.open ==> t.files[..|s.files|] == s.files;
    case DropOpen =>
      if s.mu.inode in s.open {
        var r := s.open[s.mu.inode];
        SumUpdate(s.files, r, t.files[r]);
      }
    case _ =>
  }

  ghost predicate Run(ss: seq<State>, steps: seq<Step>) {
    && |ss| == |steps| + 1 && ss[0] == INIT
    && forall i :: 0 <= i < |steps| ==> Enabled(ss[i], steps[i]) && ss[i + 1] == Do(ss[i], steps[i])
  }

  /** Conservation over every run: the charge is the sum of the files' shares and
      of what is in a holder's hands, each of them paid back once. */
  lemma {:induction false} ChargeConserved(ss: seq<State>, steps: seq<Step>, i: nat)
    requires Run(ss, steps) && i < |ss|
    ensures FilesInv(ss[i]) && Conserved(ss[i])
  {
    if i > 0 {
      ChargeConserved(ss, steps, i - 1);
      FilesKept(ss[i - 1], steps[i - 1]);
      ChargeKept(ss[i - 1], steps[i - 1]);
    }
  }

  ghost predicate Quiet(s: State) {
    s.mu == Free && forall r :: 0 <= r < |s.files| ==> s.files[r].op == Idle
  }

  /** The capacity of the dirty buffers of files still in the namespace. */
  function Resident(fs: seq<File>, live: set<Inode>): nat {
    if fs == [] then 0
    else Resident(fs[..|fs| - 1], live) + if fs[|fs| - 1].inode in live then fs[|fs| - 1].capacity else 0
  }

  lemma {:induction false} QuietSum(s: State, fs: seq<File>)
    requires s.mu == Free && forall f :: f in fs ==> ShareInv(f, f.inode in s.live) && f.op == Idle
    ensures Sum(fs) == Resident(fs, s.live)
  {
    if fs != [] {
      QuietSum(s, fs[..|fs| - 1]);
      assert fs[|fs| - 1] in fs;
    }
  }

  /** Whenever nothing is half done, after whatever writes, truncates, flushes
      that failed or not, unlinks and renames, the charge is exactly the capacity
      of the live dirty buffers. */
  lemma ChargeIsResident(ss: seq<State>, steps: seq<Step>, i: nat)
    requires Run(ss, steps) && i < |ss| && Quiet(ss[i])
    ensures ss[i].charge == Resident(ss[i].files, ss[i].live)
  {
    ChargeConserved(ss, steps, i);
    var s := ss[i];
    forall f | f in s.files ensures ShareInv(f, f.inode in s.live) && f.op == Idle {
      var r: nat :| r < |s.files| && s.files[r] == f;
      assert FileInv(s, r, f);
    }
    QuietSum(s, s.files);
  }

  // What each operation comes to.

  ghost predicate Path(ss: seq<State>, steps: seq<Step>) {
    && |ss| == |steps| + 1
    && forall i :: 0 <= i < |steps| ==> Enabled(ss[i], steps[i]) && ss[i + 1] == Do(ss[i], steps[i])
  }

  predicate Ready(s: State, r: Ref) {
    && s.mu == Free && r < |s.files| && s.files[r].op == Idle
    && s.files[r].inode in s.live && s.files[r].inode in s.open && s.open[s.files[r].inode] == r
  }

  /** s with file r changed, and the charge. */
  function Having(s: State, r: Ref, f: File, charge: int): State
    requires r < |s.files|
  {
    s.(files := s.files[r := f], charge := charge)
  }

  lemma HavingNext(s: State, r: Ref, f: File, charge: int, step: FileStep, g: File, charge': int) returns (t: State)
    requires r < |s.files| && s.mu == Free && f.inode == s.files[r].inode && Can(f, step, f.inode in s.live)
    requires g == Move(f, step, f.inode in s.live) && charge' == charge + Adds(f, step, f.inode in s.live)
    ensures t == Having(s, r, g, charge')
    ensures Enabled(Having(s, r, f, charge), OnFile(r, step)) && t == Do(Having(s, r, f, charge), OnFile(r, step))
  {
    t := Having(s, r, g, charge');
  }

  /** A write that buffers n more bytes of capacity charges n, to the budget and to
      its file. */
  lemma WriteCharges(s: State, r: Ref, n: nat) returns (ss: seq<State>)
    requires Ready(s, r)
    ensures Path(ss, [OnFile(r, BeginWrite), OnFile(r, Buffer(n)), OnFile(r, ChargeBudget), OnFile(r, CountBytes),
                      OnFile(r, EndWrite)])
    ensures var f := s.files[r];
            ss[0] == s && ss[5] == Having(s, r, f.(capacity := f.capacity + n, bytes := f.bytes + n), s.charge + n)
  {
    var f := s.files[r];
    var g := f.(capacity := f.capacity + n);
    assert s == Having(s, r, f, s.charge);
    var s1 := HavingNext(s, r, f, s.charge, BeginWrite, f.(op := Buffering(0)), s.charge);
    var s2 := HavingNext(s, r, f.(op := Buffering(0)), s.charge, Buffer(n), g.(op := Buffering(n)), s.charge);
    var s3 := HavingNext(s, r, g.(op := Buffering(n)), s.charge, ChargeBudget, g.(op := Charged(n)), s.charge + n);
    var h := g.(op := Counted, bytes := f.bytes + n);
    var s4 := HavingNext(s, r, g.(op := Charged(n)), s.charge + n, CountBytes, h, s.charge + n);
    var s5 := HavingNext(s, r, h, s.charge + n, EndWrite, h.(op := Idle), s.charge + n);
    ss := [s, s1, s2, s3, s4, s5];
  }

  /** A flush that succeeds pays back the file's whole share. */
  lemma FlushPaysBack(s: State, r: Ref) returns (ss: seq<State>)
    requires Ready(s, r)
    ensures Path(ss, [OnFile(r, BeginFlush), OnFile(r, EmptyBuffers), OnFile(r, TakeShare), OnFile(r, ReleaseBudget)])
    ensures var f := s.files[r];
            ss[0] == s && ss[4] == Having(s, r, f.(capacity := 0, bytes := 0), s.charge - f.bytes)
  {
    var f := s.files[r];
    var g := f.(capacity := 0, bytes := 0);
    assert s == Having(s, r, f, s.charge);
    var e, h := f.(capacity := 0, op := Emptied), g.(op := Releasing(f.bytes));
    var s1 := HavingNext(s, r, f, s.charge, BeginFlush, f.(op := Flushing), s.charge);
    var s2 := HavingNext(s, r, f.(op := Flushing), s.charge, EmptyBuffers, e, s.charge);
    var s3 := HavingNext(s, r, e, s.charge, TakeShare, h, s.charge);
    var s4 := HavingNext(s, r, h, s.charge, ReleaseBudget, g, s.charge - f.bytes);
    ss := [s, s1, s2, s3, s4];
  }

  /** One that fails pays nothing back. */
  lemma FailedFlushLeaves(s: State, r: Ref) returns (ss: seq<State>)
    requires Ready(s, r)
    ensures Path(ss, [OnFile(r, BeginFlush), OnFile(r, FailFlush)]) && ss[0] == s && ss[2] == s
  {
    var f := s.files[r];
    assert s == Having(s, r, f, s.charge);
    var s1 := HavingNext(s, r, f, s.charge, BeginFlush, f.(op := Flushing), s.charge);
    var s2 := HavingNext(s, r, f.(op := Flushing), s.charge, FailFlush, f, s.charge);
    ss := [s, s1, s2];
  }

  /** A truncate pays back what it freed. */
  lemma TruncatePaysBack(s: State, r: Ref, freed: nat) returns (ss: seq<State>)
    requires Ready(s, r) && freed <= s.files[r].capacity
    ensures Path(ss, [OnFile(r, Truncate(freed)), OnFile(r, ReleaseBudget)]) && ss[0] == s
    ensures var f := s.files[r];
            ss[2] == Having(s, r, f.(capacity := f.capacity - freed, bytes := f.bytes - freed), s.charge - freed)
  {
    var f := s.files[r];
    var g := f.(capacity := f.capacity - freed, bytes := f.bytes - freed);
    assert s == Having(s, r, f, s.charge);
    var s1 := HavingNext(s, r, f, s.charge, Truncate(freed), g.(op := Releasing(freed)), s.charge);
    var s2 := HavingNext(s, r, g.(op := Releasing(freed)), s.charge, ReleaseBudget, g, s.charge - freed);
    ss := [s, s1, s2];
  }

  /** A removal pays back the share of the file it drops. */
  lemma RemovalPaysBack(s: State, r: Ref) returns (ss: seq<State>)
    requires Ready(s, r)
    ensures Path(ss, [Remove(s.files[r].inode), DropOpen, ReleaseDropped]) && ss[0] == s
    ensures var f := s.files[r];
            var t := Having(s, r, f.(bytes := 0), s.charge - f.bytes);
            ss[3] == t.(live := s.live - {f.inode}, open := s.open - {f.inode})
  {
    var s1 := Do(s, Remove(s.files[r].inode));
    var s2 := Do(s1, DropOpen);
    ss := [s, s1, s2, Do(s2, ReleaseDropped)];
  }
}
