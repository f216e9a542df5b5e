/** XDR, the encoding of RFC 4506: a writer that appends fields, and a reader
    that takes them and latches the first error. */
module Xdr {
  import opened Wrappers
  import opened BigEndian

  const MAX_VAR_LEN := 0x400_0000

  datatype Field =
    | U32(u: nat) | I32(i: int) | U64(u64: nat) | I64(i64: int) | Boolean(b: bool)
    | Fixed(bytes: seq<Byte>)    // fixed-length opaque: no length on the wire
    | Opaque(data: seq<Byte>)
    | Text(text: seq<Byte>)      // a string, as its bytes

  /** What a reader is asked for. */
  datatype Kind = KU32 | KI32 | KU64 | KI64 | KBool | KFixed(n: int) | KOpaque | KText

  function KindOf(f: Field): Kind {
    match f
    case U32(_) => KU32 case I32(_) => KI32 case U64(_) => KU64 case I64(_) => KI64 case Boolean(_) => KBool
    case Fixed(b) => KFixed(|b|) case Opaque(_) => KOpaque case Text(_) => KText
  }

  function Kinds(fs: seq<Field>): seq<Kind> {
    seq(|fs|, i requires 0 <= i < |fs| => KindOf(fs[i]))
  }

  /** The numbers fit their Go types. */
  predicate WellTyped(f: Field) {
    match f
    case U32(u) => u < TWO_32
    case I32(i) => -TWO_31 <= i < TWO_31
    case U64(u) => u < TWO_64
    case I64(i) => -TWO_63 <= i < TWO_63
    case _ => true
  }

  /** Within what a reader will allocate for. */
  predicate WithinLimit(f: Field) {
    (f.Opaque? ==> |f.data| <= MAX_VAR_LEN) && (f.Text? ==> |f.text| <= MAX_VAR_LEN)
  }

  // Writing.

  function PadLen(n: nat): (p: nat)
    ensures p < 4
  {
    (4 - n % 4) % 4
  }

  function Padded(b: seq<Byte>): (s: seq<Byte>)
    ensures |s| == |b| + PadLen(|b|)
  {
    b + Zeros(PadLen(|b|))
  }

  /** A length goes out as uint32(len), which keeps its low 32 bits. */
  function Counted(b: seq<Byte>): seq<Byte> {
    Put32(Uint32Of(|b|)) + Padded(b)
  }

  function Uint32Of(n: nat): (v: nat)
    ensures v < TWO_32 && (n < TWO_32 ==> v == n) && (n >= TWO_32 ==> v < n)
  {
    n % TWO_32
  }

  function Encode(f: Field): (s: seq<Byte>)
    requires WellTyped(f)
  {
    match f
    case U32(u) => Put32(u)
    case I32(i) => Put32(if i < 0 then i + TWO_32 else i)
    case U64(u) => Put64(u)
    case I64(i) => Put64(if i < 0 then i + TWO_64 else i)
    case Boolean(b) => Put32(if b then 1 else 0)
    case Fixed(b) => Padded(b)
    case Opaque(d) => Counted(d)
    case Text(t) => Counted(t)
  }

  function EncodeAll(fs: seq<Field>): (s: seq<Byte>)
    requires forall f :: f in fs ==> WellTyped(f)
  {
    if fs == [] then [] else Encode(fs[0]) + EncodeAll(fs[1..])
  }

  lemma Multiples(a: nat, b: nat)
    ensures a % 4 == 0 && b % 4 == 0 ==> (a + b) % 4 == 0
    ensures (a + PadLen(a)) % 4 == 0
  {
  }

  lemma BytesAligned(b: seq<Byte>)
    ensures |Padded(b)| % 4 == 0 && |Counted(b)| % 4 == 0
  {
    Multiples(|b|, 0);
    Multiples(4, |Padded(b)|);
  }

  lemma FieldAligned(f: Field)
    requires WellTyped(f)
    ensures |Encode(f)| % 4 == 0
  {
    match f
    case Fixed(b) => BytesAligned(b);
    case Opaque(b) => BytesAligned(b);
    case Text(b) => BytesAligned(b);
    case _ =>
  }

  lemma {:induction false} Aligned(fs: seq<Field>)
    requires forall f :: f in fs ==> WellTyped(f)
    ensures |EncodeAll(fs)| % 4 == 0
  {
    if fs != [] {
      FieldAligned(fs[0]);
      Aligned(fs[1..]);
      var a, b := |Encode(fs[0])|, |EncodeAll(fs[1..])|;
      assert |EncodeAll(fs)| == a + b;
      Multiples(a, b);
    }
  }

  class Writer {
    var buf: seq<Byte>

    constructor ()
      ensures buf == []
    {
      buf := [];
    }

    method Uint32(v: nat)
      requires v < TWO_32
      modifies this
      ensures buf == old(buf) + Encode(U32(v))
    {
      buf := buf + Put32(v);
    }

    method Int32(v: int)
      requires WellTyped(I32(v))
      modifies this
      ensures buf == old(buf) + Encode(I32(v))
    {
      Uint32(if v < 0 then v + TWO_32 else v);
    }

    method Uint64(v: nat)
      requires v < TWO_64
      modifies this
      ensures buf == old(buf) + Encode(U64(v))
    {
      buf := buf + Put64(v);
    }

    method Int64(v: int)
      requires WellTyped(I64(v))
      modifies this
      ensures buf == old(buf) + Encode(I64(v))
    {
      Uint64(if v < 0 then v + TWO_64 else v);
    }

    method Bool(v: bool)
      modifies this
      ensures buf == old(buf) + Encode(Boolean(v))
    {
      if v { Uint32(1); } else { Uint32(0); }
    }

    method Pad(n: nat)
      modifies this
      ensures buf == old(buf) + Zeros(PadLen(n))
    {
      var r := (4 - n % 4) % 4;
      while r > 0
        invariant 0 <= r <= PadLen(n)
        invariant buf == old(buf) + Zeros(PadLen(n) - r)
      {
        buf := buf + [0];
        assert Zeros(PadLen(n) - r) + [0] == Zeros(PadLen(n) - r + 1);
        r := r - 1;
      }
    }

    method FixedBytes(b: seq<Byte>)
      modifies this
      ensures buf == old(buf) + Encode(Fixed(b))
    {
      buf := buf + b;
      Pad(|b|);
    }

    method OpaqueBytes(b: seq<Byte>)
      modifies this
      ensures buf == old(buf) + Encode(Opaque(b))
    {
      Uint32(Uint32Of(|b|));
      FixedBytes(b);
      Assoc(old(buf), Put32(Uint32Of(|b|)), Padded(b));
    }

    method String(s: seq<Byte>)
      modifies this
      ensures buf == old(buf) + Encode(Text(s))
    {
      Uint32(Uint32Of(|s|));
      ghost var counted := buf;
      buf := buf + s;
      Pad(|s|);
      Assoc(counted, s, Zeros(PadLen(|s|)));
      Assoc(old(buf), Put32(Uint32Of(|s|)), Padded(s));
    }
  }

  // Reading.

  datatype Error = Short | TooLong

  /** What a reader has left, and the error it has latched. */
  datatype Cursor = Cursor(rest: seq<Byte>, err: Option<Error>)

  function Fail(c: Cursor, e: Error): Cursor {
    if c.err.None? then c.(err := Some(e)) else c
  }

  /** take: nothing once an error is latched; the next n bytes, or a new error. */
  function Take(c: Cursor, n: int): (Option<seq<Byte>>, Cursor) {
    if c.err.Some? then (None, c)
    else if n < 0 || n > |c.rest| then (None, Fail(c, Short))
    else (Some(c.rest[..n]), c.(rest := c.rest[n..]))
  }

  function TakeFixed(c: Cursor, n: int): (seq<Byte>, Cursor) {
    var (s, c1) := Take(c, n);
    if s.None? then ([], c1)
    else (s.value, if PadLen(n) > 0 then Take(c1, PadLen(n)).1 else c1)
  }

  function Take32(c: Cursor): (nat, Cursor) {
    var (s, c1) := Take(c, 4);
    (if s.None? then 0 else Get32(s.value), c1)
  }

  function Take64(c: Cursor): (nat, Cursor) {
    var (s, c1) := Take(c, 8);
    (if s.None? then 0 else Get64(s.value), c1)
  }

  function TakeCounted(c: Cursor): (seq<Byte>, Cursor) {
    var (n, c1) := Take32(c);
    if c1.err.Some? then ([], c1)
    else if n > MAX_VAR_LEN then ([], Fail(c1, TooLong))
    else TakeFixed(c1, n)
  }

  function Zero(k: Kind): Field {
    match k
    case KU32 => U32(0) case KI32 => I32(0) case KU64 => U64(0) case KI64 => I64(0) case KBool => Boolean(false)
    case KFixed(_) => Fixed([]) case KOpaque => Opaque([]) case KText => Text([])
  }

  function Decode(c: Cursor, k: Kind): (r: (Field, Cursor))
    ensures c.err.Some? ==> r == (Zero(k), c)
  {
    match k
    case KU32 => var (v, d) := Take32(c); (U32(v), d)
    case KI32 => var (v, d) := Take32(c); (I32(if v < TWO_31 then v else v - TWO_32), d)
    case KU64 => var (v, d) := Take64(c); (U64(v), d)
    case KI64 => var (v, d) := Take64(c); (I64(if v < TWO_63 then v else v - TWO_64), d)
    case KBool => var (v, d) := Take32(c); (Boolean(v != 0), d)
    case KFixed(n) => var (s, d) := TakeFixed(c, n); (Fixed(s), d)
    case KOpaque => var (s, d) := TakeCounted(c); (Opaque(s), d)
    case KText => var (s, d) := TakeCounted(c); (Text(s), d)
  }

  function DecodeAll(c: Cursor, ks: seq<Kind>): (r: (seq<Field>, Cursor))
    decreases |ks|
  {
    if ks == [] then ([], c)
    else
      var d := Decode(c, ks[0]);
      var (fs, c2) := DecodeAll(d.1, ks[1..]);
      ([d.0] + fs, c2)
  }

  // What is read back.

  function At(rest: seq<Byte>): Cursor {
    Cursor(rest, None)
  }

  lemma TakeOff(s: seq<Byte>, t: seq<Byte>)
    ensures Take(At(s + t), |s|) == (Some(s), At(t))
  {
  }

  lemma FixedBack(b: seq<Byte>, t: seq<Byte>)
    ensures TakeFixed(At(Padded(b) + t), |b|) == (b, At(t))
  {
    var z := Zeros(PadLen(|b|));
    Assoc(b, z, t);
    TakeOff(b, z + t);
    TakeOff(z, t);
  }

  lemma NumberBack(v: nat, t: seq<Byte>)
    requires v < TWO_32
    ensures Take32(At(Put32(v) + t)) == (v, At(t))
  {
    TakeOff(Put32(v), t);
    Back32(v);
  }

  lemma LongBack(v: nat, t: seq<Byte>)
    requires v < TWO_64
    ensures Take64(At(Put64(v) + t)) == (v, At(t))
  {
    TakeOff(Put64(v), t);
    Back64(v);
  }

  lemma CountedFrom(n: nat, body: seq<Byte>, r: (seq<Byte>, Cursor))
    requires n <= MAX_VAR_LEN && TakeFixed(At(body), n) == r
    ensures TakeCounted(At(Put32(n) + body)) == r
  {
    NumberBack(n, body);
  }

  lemma CountedIs(b: seq<Byte>, t: seq<Byte>)
    requires |b| < TWO_32
    ensures Counted(b) + t == Put32(|b|) + (Padded(b) + t)
  {
    assert Uint32Of(|b|) == |b|;
    Assoc(Put32(|b|), Padded(b), t);
  }

  lemma CountedBack(b: seq<Byte>, t: seq<Byte>)
    requires |b| <= MAX_VAR_LEN
    ensures TakeCounted(At(Counted(b) + t)) == (b, At(t))
  {
    CountedIs(b, t);
    FixedBack(b, t);
    CountedFrom(|b|, Padded(b) + t, (b, At(t)));
  }

  /** The layout RFC 4506 gives each field: signed numbers in two's complement, true
      as 1, bytes followed by zeros to the next multiple of four, and a length
      before those that vary. */
  lemma NumberLayout(f: Field)
    requires WellTyped(f)
    ensures f.U32? ==> Encode(f) == Put32(f.u)
    ensures f.I32? ==> Encode(f) == Put32(f.i % TWO_32)
    ensures f.U64? ==> Encode(f) == Put64(f.u64)
    ensures f.I64? ==> Encode(f) == Put64(f.i64 % TWO_64)
    ensures f.Boolean? ==> Encode(f) == Put32(if f.b then 1 else 0)
  {
    if f.I32? { assert f.i % TWO_32 == if f.i < 0 then f.i + TWO_32 else f.i; }
    if f.I64? { assert f.i64 % TWO_64 == if f.i64 < 0 then f.i64 + TWO_64 else f.i64; }
  }

  lemma BytesLayout(b: seq<Byte>)
    ensures var s := Encode(Fixed(b));
            && b <= s && |b| <= |s| < |b| + 4 && |s| % 4 == 0
            && forall i :: |b| <= i < |s| ==> s[i] == 0
    ensures |b| < TWO_32 ==> Encode(Opaque(b)) == Encode(Text(b)) == Put32(|b|) + Encode(Fixed(b))
  {
    BytesAligned(b);
    assert |b| < TWO_32 ==> Uint32Of(|b|) == |b|;
  }

  /** One field read back where it was written, whatever follows it. */
  lemma FieldBack(f: Field, t: seq<Byte>)
    requires WellTyped(f) && WithinLimit(f)
    ensures Decode(At(Encode(f) + t), KindOf(f)) == (f, At(t))
  {
    match f
    case Fixed(b) => KFixedBack(b, t);
    case Opaque(d) => KOpaqueBack(d, t);
    case Text(d) => KTextBack(d, t);
    case _ => NumericBack(f, t);
  }

  lemma KFixedBack(b: seq<Byte>, t: seq<Byte>)
    ensures Decode(At(Encode(Fixed(b)) + t), KFixed(|b|)) == (Fixed(b), At(t))
  {
    FixedBack(b, t);
  }

  lemma KOpaqueBack(b: seq<Byte>, t: seq<Byte>)
    requires |b| <= MAX_VAR_LEN
    ensures Decode(At(Encode(Opaque(b)) + t), KOpaque) == (Opaque(b), At(t))
  {
    CountedBack(b, t);
  }

  lemma KTextBack(b: seq<Byte>, t: seq<Byte>)
    requires |b| <= MAX_VAR_LEN
    ensures Decode(At(Encode(Text(b)) + t), KText) == (Text(b), At(t))
  {
    CountedBack(b, t);
  }

  lemma NumericBack(f: Field, t: seq<Byte>)
    requires WellTyped(f) && !f.Fixed? && !f.Opaque? && !f.Text?
    ensures Decode(At(Encode(f) + t), KindOf(f)) == (f, At(t))
  {
    match f
    case U32(u) => NumberBack(u, t);
    case I32(i) => NumberBack(if i < 0 then i + TWO_32 else i, t);
    case U64(u) => LongBack(u, t);
    case I64(i) => LongBack(if i < 0 then i + TWO_64 else i, t);
    case Boolean(b) => NumberBack(if b then 1 else 0, t);
  }

  lemma OneThenMore(c: Cursor, ks: seq<Kind>, d: (Field, Cursor), more: (seq<Field>, Cursor))
    requires ks != [] && Decode(c, ks[0]) == d && DecodeAll(d.1, ks[1..]) == more
    ensures DecodeAll(c, ks) == ([d.0] + more.0, more.1)
  {
  }

  lemma KindsSplit(fs: seq<Field>)
    requires fs != []
    ensures Kinds(fs) != [] && Kinds(fs)[0] == KindOf(fs[0]) && Kinds(fs)[1..] == Kinds(fs[1..])
  {
  }

  ghost predicate Writable(fs: seq<Field>) {
    forall f :: f in fs ==> WellTyped(f) && WithinLimit(f)
  }

  lemma HeadBack(fs: seq<Field>, t: seq<Byte>)
    requires Writable(fs) && fs != []
    ensures Decode(At(EncodeAll(fs) + t), KindOf(fs[0])) == (fs[0], At(EncodeAll(fs[1..]) + t))
  {
    Assoc(Encode(fs[0]), EncodeAll(fs[1..]), t);
    FieldBack(fs[0], EncodeAll(fs[1..]) + t);
  }

  /** Reading back any written sequence of fields, whatever follows it, gives the
      same values and consumes exactly what was written. */
  lemma {:induction false} RoundTrip(fs: seq<Field>, t: seq<Byte>)
    requires Writable(fs)
    ensures DecodeAll(At(EncodeAll(fs) + t), Kinds(fs)) == (fs, At(t))
    decreases |fs|
  {
    if fs == [] {
      assert Kinds(fs) == [];
      assert [] + t == t;
    } else {
      HeadBack(fs, t);
      RoundTrip(fs[1..], t);
      KindsSplit(fs);
      assert [fs[0]] + fs[1..] == fs;
      OneThenMore(At(EncodeAll(fs) + t), Kinds(fs), (fs[0], At(EncodeAll(fs[1..]) + t)), (fs[1..], At(t)));
    }
  }

  /** The limit is exact: a counted field comes back if and only if it is within it. */
  lemma CountedExactly(b: seq<Byte>, t: seq<Byte>)
    ensures TakeCounted(At(Counted(b) + t)) == (b, At(t)) <==> |b| <= 64 * 1024 * 1024
    ensures 64 * 1024 * 1024 < |b| < TWO_32 ==>
              TakeCounted(At(Counted(b) + t)) == ([], Cursor(Padded(b) + t, Some(TooLong)))
  {
    if |b| <= MAX_VAR_LEN {
      CountedBack(b, t);
    } else {
      var n := Uint32Of(|b|);
      Assoc(Put32(n), Padded(b), t);
      NumberBack(n, Padded(b) + t);
    }
  }

  lemma FixedShort(b: seq<Byte>, s: seq<Byte>)
    requires s < Padded(b)
    ensures TakeFixed(At(s), |b|).1.err == Some(Short)
  {
    if |b| <= |s| { assert Take(At(s), |b|) == (Some(s[..|b|]), At(s[|b|..])); }
  }

  lemma CountedShort(b: seq<Byte>, s: seq<Byte>)
    requires |b| <= MAX_VAR_LEN && s < Counted(b)
    ensures TakeCounted(At(s)).1.err == Some(Short)
  {
    if |s| >= 4 {
      var n, rest := |b|, s[4..];
      assert s == Put32(n) + rest by { assert s[..4] == Counted(b)[..4] == Put32(n); }
      NumberBack(n, rest);
      assert rest < Padded(b);
      FixedShort(b, rest);
    }
  }

  /** A field cut short anywhere is refused as short. */
  lemma CutShort(f: Field, s: seq<Byte>)
    requires WellTyped(f) && WithinLimit(f) && s < Encode(f)
    ensures Decode(At(s), KindOf(f)).1.err == Some(Short)
  {
    match f
    case Fixed(b) => FixedShort(b, s);
    case Opaque(b) => CountedShort(b, s);
    case Text(b) => CountedShort(b, s);
    case _ =>
  }

  function Zeroed(ks: seq<Kind>): seq<Field> {
    seq(|ks|, i requires 0 <= i < |ks| => Zero(ks[i]))
  }

  /** Once an error is latched, every later field reads as its zero value, moves
      nothing and keeps the first error. */
  lemma {:induction false} ErrorLatched(c: Cursor, ks: seq<Kind>)
    requires c.err.Some?
    ensures DecodeAll(c, ks) == (Zeroed(ks), c)
  {
    if ks != [] {
      ErrorLatched(c, ks[1..]);
      assert Decode(c, ks[0]) == (Zero(ks[0]), c);
      OneThenMore(c, ks, (Zero(ks[0]), c), (Zeroed(ks[1..]), c));
      assert [Zero(ks[0])] + Zeroed(ks[1..]) == Zeroed(ks);
    } else {
      assert Zeroed(ks) == [];
    }
  }

  // What a reader accepts.

  /** The k-field at the front of s is as a writer leaves it: its padding zero,
      and a bool's word 0 or 1. Meant of an s a reader takes a k-field from. */
  predicate CanonicalField(s: seq<Byte>, k: Kind) {
    match k
    case KBool => |s| >= 4 && Get32(s[..4]) <= 1
    case KFixed(n) => n >= 0 && ZeroPadded(s, n)
    case KOpaque => |s| >= 4 && ZeroPadded(s[4..], Get32(s[..4]))
    case KText => |s| >= 4 && ZeroPadded(s[4..], Get32(s[..4]))
    case _ => true
  }

  predicate ZeroPadded(s: seq<Byte>, n: nat) {
    n + PadLen(n) <= |s| && s[n..n + PadLen(n)] == Zeros(PadLen(n))
  }

  lemma NumberRead(s: seq<Byte>, n: nat)
    requires (n == 4 || n == 8) && Take(At(s), n).1.err.None?
    ensures |s| >= n && Take(At(s), n) == (Some(s[..n]), At(s[n..])) && s == s[..n] + s[n..]
  {
  }

  lemma FixedRead(s: seq<Byte>, n: int, t: seq<Byte>)
    requires TakeFixed(At(s), n).1 == At(t)
    ensures 0 <= n && n + PadLen(n) <= |s| && t == s[n + PadLen(n)..] && TakeFixed(At(s), n).0 == s[..n]
    ensures Padded(s[..n]) + t == s <==> ZeroPadded(s, n)
  {
    assert PadLen(n) > 0 ==> s[n..][PadLen(n)..] == s[n + PadLen(n)..];
    PaddingDecides(s, n, t);
  }

  lemma PaddingDecides(s: seq<Byte>, n: nat, t: seq<Byte>)
    requires n + PadLen(n) <= |s| && t == s[n + PadLen(n)..]
    ensures Padded(s[..n]) + t == s <==> ZeroPadded(s, n)
  {
    var p := PadLen(n);
    var b, z := s[..n], s[n..n + p];
    assert s == b + z + t;
    assert |s[..n]| == n;
    if Padded(b) + t == s {
      assert (Padded(b) + t)[n..n + p] == Zeros(p);
    }
  }

  lemma CountedRead(s: seq<Byte>, t: seq<Byte>)
    requires TakeCounted(At(s)).1 == At(t)
    ensures |s| >= 4 && Get32(s[..4]) <= MAX_VAR_LEN && TakeFixed(At(s[4..]), Get32(s[..4])) == TakeCounted(At(s))
    ensures |TakeCounted(At(s)).0| == Get32(s[..4]) && |t| <= |s| && t == s[|s| - |t|..]
    ensures Counted(TakeCounted(At(s)).0) + t == s <==> ZeroPadded(s[4..], Get32(s[..4]))
  {
    NumberRead(s, 4);
    var n := Get32(s[..4]);
    FixedRead(s[4..], n, t);
    assert t == s[4 + n + PadLen(n)..];
    var b := s[4..][..n];
    CountedIs(b, t);
    Behind(s[..4], Padded(b) + t, s[4..]);
  }

  lemma Behind(h: seq<Byte>, a: seq<Byte>, b: seq<Byte>)
    ensures h + a == h + b <==> a == b
  {
    if h + a == h + b {
      assert a == (h + a)[|h|..] && b == (h + b)[|h|..];
    }
  }

  lemma BoolRead(s: seq<Byte>, t: seq<Byte>)
    requires Take32(At(s)).1 == At(t)
    ensures |s| >= 4 && t == s[4..]
    ensures Put32(if Get32(s[..4]) != 0 then 1 else 0) + t == s <==> Get32(s[..4]) <= 1
  {
    NumberRead(s, 4);
    var v := Get32(s[..4]);
    var w := if v != 0 then 1 else 0;
    Back32(w);
    assert s == s[..4] + t;
    if Put32(w) + t == s {
      assert (Put32(w) + t)[..4] == Put32(w);
    }
  }

  /** A field read without error is written back as the bytes it was read from
      exactly when those are canonical. */
  lemma FieldReadBack(s: seq<Byte>, k: Kind, f: Field, t: seq<Byte>)
    requires Decode(At(s), k) == (f, At(t))
    ensures WellTyped(f) && |Encode(f)| + |t| == |s| && t == s[|s| - |t|..]
    ensures Encode(f) + t == s <==> CanonicalField(s, k)
  {
    match k
    case KBool => BoolRead(s, t);
    case KFixed(n) => FixedRead(s, n, t);
    case KOpaque => CountedReadBack(s, k, f, t);
    case KText => CountedReadBack(s, k, f, t);
    case _ => NumberReadBack(s, k, f, t);
  }

  lemma CountedReadBack(s: seq<Byte>, k: Kind, f: Field, t: seq<Byte>)
    requires (k.KOpaque? || k.KText?) && Decode(At(s), k) == (f, At(t))
    ensures WellTyped(f) && |Encode(f)| + |t| == |s| && t == s[|s| - |t|..]
    ensures Encode(f) + t == s <==> CanonicalField(s, k)
  {
    CountedRead(s, t);
  }

  lemma NumberReadBack(s: seq<Byte>, k: Kind, f: Field, t: seq<Byte>)
    requires (k.KU32? || k.KI32? || k.KU64? || k.KI64?) && Decode(At(s), k) == (f, At(t))
    ensures WellTyped(f) && |Encode(f)| + |t| == |s| && t == s[|s| - |t|..] && Encode(f) + t == s
  {
    NumberRead(s, if k.KU32? || k.KI32? then 4 else 8);
  }

  predicate Canonical(s: seq<Byte>, ks: seq<Kind>)
    decreases |ks|
  {
    ks == [] ||
    (CanonicalField(s, ks[0]) && var c := Decode(At(s), ks[0]).1; c.err.None? && Canonical(c.rest, ks[1..]))
  }

  /** The converse of the round trip: fields read without error are written back
      as exactly the bytes they were read from if and only if all the padding is
      zero and every bool is 0 or 1. */
  lemma {:induction false} ReadBack(s: seq<Byte>, ks: seq<Kind>, fs: seq<Field>, t: seq<Byte>)
    requires DecodeAll(At(s), ks) == (fs, At(t))
    ensures (forall f :: f in fs ==> WellTyped(f)) && |EncodeAll(fs)| + |t| == |s|
    ensures EncodeAll(fs) + t == s <==> Canonical(s, ks)
    decreases |ks|
  {
    if ks == [] {
      assert EncodeAll(fs) + t == t;
    } else {
      var f, mid, rest := FirstRead(s, ks, fs, t);
      FieldReadBack(s, ks[0], f, mid);
      ReadBack(mid, ks[1..], rest, t);
      EncodeFirst(fs, f, rest);
      OneThenRest(s, Encode(f), EncodeAll(rest), mid, t);
    }
  }

  lemma EncodeFirst(fs: seq<Field>, f: Field, rest: seq<Field>)
    requires fs == [f] + rest && WellTyped(f) && forall g :: g in rest ==> WellTyped(g)
    ensures (forall g :: g in fs ==> WellTyped(g)) && EncodeAll(fs) == Encode(f) + EncodeAll(rest)
  {
    assert fs[1..] == rest;
  }

  lemma FirstRead(s: seq<Byte>, ks: seq<Kind>, fs: seq<Field>, t: seq<Byte>)
    returns (f: Field, mid: seq<Byte>, rest: seq<Field>)
    requires ks != [] && DecodeAll(At(s), ks) == (fs, At(t))
    ensures Decode(At(s), ks[0]) == (f, At(mid)) && DecodeAll(At(mid), ks[1..]) == (rest, At(t)) && fs == [f] + rest
  {
    var d := Decode(At(s), ks[0]);
    if d.1.err.Some? { ErrorLatched(d.1, ks[1..]); }
    f, mid, rest := d.0, d.1.rest, DecodeAll(d.1, ks[1..]).0;
  }

  /** mid is what is left of s after as many bytes as e has. */
  lemma OneThenRest(s: seq<Byte>, e: seq<Byte>, more: seq<Byte>, mid: seq<Byte>, t: seq<Byte>)
    requires |e| + |mid| == |s| && |more| + |t| == |mid| && mid == s[|s| - |mid|..]
    ensures e + more + t == s <==> e + mid == s && more + t == mid
  {
    Assoc(e, more, t);
    if e + (more + t) == s {
      assert more + t == (e + (more + t))[|e|..];
    }
  }

  /** Bytes a reader takes and a writer never leaves: a bool's word of 2 reads as
      true, which is written back as 1. */
  lemma TwoReadsAsTrue()
    ensures var s := Put32(2);
            && Decode(At(s), KBool) == (Boolean(true), At([]))
            && Encode(Boolean(true)) != s && !CanonicalField(s, KBool)
  {
    var s := Put32(2);
    Back32(2);
    Back32(1);
    assert s[..4] == s && s[4..] == [];
  }

  class Reader {
    const b: seq<Byte>
    var off: nat
    var err: Option<Error>

    ghost predicate Valid()
      reads this
    {
      off <= |b|
    }

    ghost function View(): Cursor
      reads this
      requires Valid()
    {
      Cursor(b[off..], err)
    }

    constructor (b: seq<Byte>)
      ensures Valid() && View() == At(b)
    {
      this.b, off, err := b, 0, None;
    }

    method TakeBytes(n: int) returns (s: Option<seq<Byte>>)
      requires Valid()
      modifies this
      ensures Valid() && (s, View()) == Take(old(View()), n)
    {
      if err.Some? { return None; }
      if n < 0 || off + n > |b| {
        if err.None? { err := Some(Short); }
        return None;
      }
      s := Some(b[off..off + n]);
      assert b[off..][..n] == b[off..off + n] && b[off..][n..] == b[off + n..];
      off := off + n;
    }

    method Uint32() returns (v: nat)
      requires Valid()
      modifies this
      ensures Valid() && (U32(v), View()) == Decode(old(View()), KU32) && v < TWO_32
    {
      var s := TakeBytes(4);
      v := if s.None? then 0 else Get32(s.value);
    }

    method Int32() returns (v: int)
      requires Valid()
      modifies this
      ensures Valid() && (I32(v), View()) == Decode(old(View()), KI32)
    {
      var u := Uint32();
      v := if u < TWO_31 then u else u - TWO_32;
    }

    method Uint64() returns (v: nat)
      requires Valid()
      modifies this
      ensures Valid() && (U64(v), View()) == Decode(old(View()), KU64) && v < TWO_64
    {
      var s := TakeBytes(8);
      v := if s.None? then 0 else Get64(s.value);
    }

    method Int64() returns (v: int)
      requires Valid()
      modifies this
      ensures Valid() && (I64(v), View()) == Decode(old(View()), KI64)
    {
      var u := Uint64();
      v := if u < TWO_63 then u else u - TWO_64;
    }

    method Bool() returns (v: bool)
      requires Valid()
      modifies this
      ensures Valid() && (Boolean(v), View()) == Decode(old(View()), KBool)
    {
      var u := Uint32();
      v := u != 0;
    }

    method FixedBytes(n: int) returns (s: seq<Byte>)
      requires Valid()
      modifies this
      ensures Valid() && (Fixed(s), View()) == Decode(old(View()), KFixed(n))
    {
      var t := TakeBytes(n);
      if t.None? { return []; }
      s := t.value;
      if PadLen(n) > 0 {
        var _ := TakeBytes(PadLen(n));
      }
    }

    method OpaqueBytes() returns (s: seq<Byte>)
      requires Valid()
      modifies this
      ensures Valid() && (Opaque(s), View()) == Decode(old(View()), KOpaque)
    {
      var n := Uint32();
      if err.Some? { return []; }
      if n > MAX_VAR_LEN {
        err := Some(TooLong);
        return [];
      }
      s := FixedBytes(n);
    }

    method String() returns (s: seq<Byte>)
      requires Valid()
      modifies this
      ensures Valid() && (Text(s), View()) == Decode(old(View()), KText)
    {
      s := OpaqueBytes();
    }
  }
}
