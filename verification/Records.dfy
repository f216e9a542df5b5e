/** ONC RPC record marking, section 11 of RFC 5531: a record as fragments, each
    behind a header of its length and a last-fragment bit. */
module Records {
  import opened Wrappers
  import opened BigEndian

  const MAX_RECORD := 0x80_0000

  function Header(n: nat, last: bool): (h: seq<Byte>)
    requires n < TWO_31
    ensures |h| == 4
  {
    Put32(if last then n + TWO_31 else n)
  }

  function Concat(fs: seq<seq<Byte>>): seq<Byte> {
    if fs == [] then [] else fs[0] + Concat(fs[1..])
  }

  /** A record sent as these fragments. */
  function Frame(fs: seq<seq<Byte>>): seq<Byte>
    requires fs != [] && forall f :: f in fs ==> |f| < TWO_31
  {
    if |fs| == 1 then Header(|fs[0]|, true) + fs[0]
    else Header(|fs[0]|, false) + fs[0] + Frame(fs[1..])
  }

  /** writeRecord: one last fragment; the length's bit 31 is lost under the mark. */
  function Written(body: seq<Byte>): seq<Byte> {
    Header(|body| % TWO_31, true) + body
  }

  datatype Outcome = Ok(record: seq<Byte>, rest: seq<Byte>) | EndOfStream | TooLong

  /** readRecord over a finite stream, with what it has reassembled so far. */
  function Read(stream: seq<Byte>, got: seq<Byte>): Outcome
    decreases |stream|
  {
    if |stream| < 4 then EndOfStream
    else
      var h := Get32(stream[..4]);
      var n := h % TWO_31;
      if |got| + n > MAX_RECORD then TooLong
      else if |stream| < 4 + n then EndOfStream
      else
        var out := got + stream[4..4 + n];
        if h >= TWO_31 then Ok(out, stream[4 + n..]) else Read(stream[4 + n..], out)
  }

  /** A stream that can be read from: reading takes bytes off its front. */
  class Stream {
    var rest: seq<Byte>

    constructor (s: seq<Byte>)
      ensures rest == s
    {
      rest := s;
    }

    /** io.ReadFull: all n bytes, or an error with the stream at its end. */
    method ReadFull(n: nat) returns (s: Option<seq<Byte>>)
      modifies this
      ensures if |old(rest)| < n then s == None && rest == [] else s == Some(old(rest)[..n]) && rest == old(rest)[n..]
    {
      if |rest| < n {
        rest := [];
        return None;
      }
      s := Some(rest[..n]);
      rest := rest[n..];
    }

    method ReadRecord() returns (r: Outcome)
      modifies this
      ensures r == Read(old(rest), [])
      ensures r.Ok? ==> rest == r.rest
    {
      var out := [];
      while true
        invariant Read(rest, out) == Read(old(rest), [])
        decreases |rest|
      {
        ghost var was := rest;
        var hdr := ReadFull(4);
        if hdr.None? { return EndOfStream; }
        var h := Get32(hdr.value);
        var last, n := h >= TWO_31, h % TWO_31;
        if |out| + n > MAX_RECORD { return TooLong; }
        var frag := ReadFull(n);
        if frag.None? { return EndOfStream; }
        assert was[4..4 + n] == frag.value && was[4 + n..] == rest;
        out := out + frag.value;
        if last { return Ok(out, rest); }
      }
    }

    method WriteRecord(body: seq<Byte>)
      modifies this
      ensures rest == old(rest) + Written(body)
    {
      rest := rest + (Header(|body| % TWO_31, true) + body);
    }
  }

  lemma Parts(h: seq<Byte>, f: seq<Byte>, rest: seq<Byte>, s: seq<Byte>)
    requires |h| == 4 && s == h + f + rest
    ensures s[..4] == h && s[4..4 + |f|] == f && s[4 + |f|..] == rest
  {
  }

  lemma HeaderBack(n: nat, last: bool)
    requires n < TWO_31
    ensures var h := Get32(Header(n, last)); h % TWO_31 == n && (h >= TWO_31 <==> last)
  {
    Back32(if last then n + TWO_31 else n);
  }

  /** A header's bytes, the most significant first: the length, with the top bit for
      the last fragment. */
  lemma HeaderBytes(n: nat, last: bool)
    requires n < TWO_31
    ensures var h := Header(n, last);
            && 0x100_0000 * (h[0] as int) + 0x1_0000 * (h[1] as int) + 0x100 * (h[2] as int) + (h[3] as int)
               == n + (if last then TWO_31 else 0)
            && (h[0] >= 0x80 <==> last)
  {
    Back32(if last then n + TWO_31 else n);
    WordBytes(Header(n, last));
  }

  /** One fragment off the front of a stream. */
  lemma FragmentOff(s: seq<Byte>, f: seq<Byte>, last: bool, rest: seq<Byte>, got: seq<Byte>)
    requires |f| < TWO_31 && s == Header(|f|, last) + f + rest
    ensures Read(s, got) ==
              if |got| + |f| > MAX_RECORD then TooLong
              else if last then Ok(got + f, rest) else Read(rest, got + f)
  {
    HeaderBack(|f|, last);
    Parts(Header(|f|, last), f, rest, s);
  }

  /** Any fragmentation is reassembled, whatever follows it, if and only if the
      record is within the limit; a longer one is refused. */
  lemma {:induction false} Reassembled(fs: seq<seq<Byte>>, rest: seq<Byte>, got: seq<Byte>)
    requires fs != [] && forall f :: f in fs ==> |f| < TWO_31
    ensures Read(Frame(fs) + rest, got) ==
              if |got| + |Concat(fs)| <= MAX_RECORD then Ok(got + Concat(fs), rest) else TooLong
    decreases |fs|
  {
    var f := fs[0];
    if |fs| == 1 {
      OneMore(fs, got);
      FragmentOff(Frame(fs) + rest, f, true, rest, got);
    } else {
      var more := Frame(fs[1..]) + rest;
      Assoc(Header(|f|, false) + f, Frame(fs[1..]), rest);
      FragmentOff(Frame(fs) + rest, f, false, more, got);
      OneMore(fs, got);
      Reassembled(fs[1..], rest, got + f);
    }
  }

  lemma FragmentsReassembled(fs: seq<seq<Byte>>, rest: seq<Byte>)
    requires fs != [] && forall f :: f in fs ==> |f| < TWO_31
    ensures Read(Frame(fs) + rest, []) == if |Concat(fs)| <= 8 * 1024 * 1024 then Ok(Concat(fs), rest) else TooLong
  {
    Reassembled(fs, rest, []);
    assert [] + Concat(fs) == Concat(fs);
  }

  /** The fragments a stream opens with. */
  function Fragments(stream: seq<Byte>, got: seq<Byte>): (fs: seq<seq<Byte>>)
    requires Read(stream, got).Ok?
    ensures fs != []
    decreases |stream|
  {
    var h := Get32(stream[..4]);
    var n := h % TWO_31;
    var f := stream[4..4 + n];
    if h >= TWO_31 then [f] else [f] + Fragments(stream[4 + n..], got + f)
  }

  /** The first of them, and the stream after it. */
  lemma Opened(stream: seq<Byte>, got: seq<Byte>) returns (f: seq<Byte>, last: bool, more: seq<Byte>)
    requires Read(stream, got).Ok?
    ensures |f| < TWO_31 && stream == Header(|f|, last) + f + more && |got| + |f| <= MAX_RECORD
    ensures Fragments(stream, got)[0] == f && |more| < |stream|
    ensures last ==> Read(stream, got) == Ok(got + f, more) && Fragments(stream, got) == [f]
    ensures !last ==> Read(more, got + f) == Read(stream, got)
    ensures !last ==> Fragments(stream, got)[1..] == Fragments(more, got + f)
  {
    var h := Get32(stream[..4]);
    var n := h % TWO_31;
    f, last, more := stream[4..4 + n], h >= TWO_31, stream[4 + n..];
    HeaderOf(stream[..4]);
    Rejoin(stream, n);
  }

  lemma HeaderOf(h: seq<Byte>)
    requires |h| == 4
    ensures Header(Get32(h) % TWO_31, Get32(h) >= TWO_31) == h
  {
  }

  lemma Rejoin(s: seq<Byte>, n: nat)
    requires 4 + n <= |s|
    ensures s == s[..4] + s[4..4 + n] + s[4 + n..]
  {
  }

  /** And nothing else is a record: what is read is some fragmentation of it. */
  lemma {:induction false} OnlyFragments(stream: seq<Byte>, got: seq<Byte>)
    requires Read(stream, got).Ok?
    ensures var fs, r := Fragments(stream, got), Read(stream, got);
            && (forall f :: f in fs ==> |f| < TWO_31)
            && stream == Frame(fs) + r.rest && r.record == got + Concat(fs) && |r.record| <= MAX_RECORD
    decreases |stream|
  {
    var f, last, more := Opened(stream, got);
    var fs := Fragments(stream, got);
    OneMore(fs, got);
    if !last {
      OnlyFragments(more, got + f);
      Assoc(Header(|f|, false) + f, Frame(fs[1..]), Read(stream, got).rest);
      assert fs == [f] + fs[1..];
    }
  }

  lemma OneMore(fs: seq<seq<Byte>>, got: seq<Byte>)
    requires fs != []
    ensures got + fs[0] + Concat(fs[1..]) == got + Concat(fs)
    ensures |fs| == 1 ==> Concat(fs) == fs[0]
  {
    Assoc(got, fs[0], Concat(fs[1..]));
    assert |fs| == 1 ==> fs[1..] == [];
  }

  /** A written record is read back if and only if it is within the limit. */
  lemma WriteReadExactly(body: seq<Byte>, rest: seq<Byte>)
    ensures Read(Written(body) + rest, []) == Ok(body, rest) <==> |body| <= 8 * 1024 * 1024
  {
    var n := |body| % TWO_31;
    var f, more := body[..n], body[n..] + rest;
    assert Written(body) + rest == Header(n, true) + f + more;
    FragmentOff(Written(body) + rest, f, true, more, []);
    assert |body| <= MAX_RECORD ==> f == body && more == rest;
  }
}
