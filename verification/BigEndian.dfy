/** Unsigned numbers as bytes, most significant first. */
module BigEndian {
  import opened Wrappers

  /** 256 to the n: one more than the greatest number of n bytes. */
  function Limit(n: nat): (l: nat)
    ensures l > 0
  {
    if n == 0 then 1 else 256 * Limit(n - 1)
  }

  function Put(v: nat, n: nat): (s: seq<Byte>)
    ensures |s| == n
    decreases v, n
  {
    if n == 0 then [] else Put(v / 256, n - 1) + [v % 256]
  }

  function Get(s: seq<Byte>): (v: nat)
    ensures v < Limit(|s|)
  {
    if s == [] then 0 else Get(s[..|s| - 1]) * 256 + s[|s| - 1]
  }

  lemma {:induction false} GetOfPut(v: nat, n: nat)
    requires v < Limit(n)
    ensures Get(Put(v, n)) == v
  {
    if n > 0 {
      assert Put(v, n)[..n - 1] == Put(v / 256, n - 1);
      GetOfPut(v / 256, n - 1);
    }
  }

  lemma {:induction false} PutOfGet(s: seq<Byte>)
    ensures Put(Get(s), |s|) == s
  {
    if s != [] {
      var n := |s| - 1;
      PutOfGet(s[..n]);
      assert Get(s) / 256 == Get(s[..n]) && Get(s) % 256 == s[n];
    }
  }

  lemma Scale(g: nat, l: nat, x: nat)
    ensures (g * l + x) * 256 == g * (256 * l) + x * 256
  {
  }

  /** What comes first counts for more: each byte after it is another factor of 256. */
  lemma {:induction false} GetConcat(a: seq<Byte>, b: seq<Byte>)
    ensures Get(a + b) == Get(a) * Limit(|b|) + Get(b)
    decreases |b|
  {
    if b == [] {
      assert a + b == a;
    } else {
      var m := |b| - 1;
      var s := a + b;
      assert s[..|s| - 1] == a + b[..m] && s[|s| - 1] == b[m];
      GetConcat(a, b[..m]);
      Scale(Get(a), Limit(m), Get(b[..m]));
    }
  }

  /** A word's bytes, the most significant first. */
  lemma WordBytes(s: seq<Byte>)
    requires |s| == 4
    ensures Get(s) == 0x100_0000 * (s[0] as int) + 0x1_0000 * (s[1] as int) + 0x100 * (s[2] as int) + (s[3] as int)
  {
    assert s[..1][..0] == [] && s[..2][..1] == s[..1] && s[..3][..2] == s[..2];
    assert Get(s[..1]) == s[0] as int;
    assert Get(s[..2]) == 256 * (s[0] as int) + s[1] as int;
    assert Get(s[..3]) == 256 * (256 * (s[0] as int) + s[1] as int) + s[2] as int;
  }

  lemma Limits()
    ensures Limit(4) == TWO_32 && Limit(8) == TWO_64
  {
    assert Limit(2) == 0x1_0000;
    assert Limit(6) == 0x1_0000_0000_0000;
  }

  function Put32(v: nat): (s: seq<Byte>)
    ensures |s| == 4
  {
    Put(v, 4)
  }

  function Get32(s: seq<Byte>): (v: nat)
    requires |s| == 4
    ensures v < TWO_32 && Put32(v) == s
  {
    Limits();
    PutOfGet(s);
    Get(s)
  }

  lemma Back32(v: nat)
    requires v < TWO_32
    ensures Get32(Put32(v)) == v
  {
    Limits();
    GetOfPut(v, 4);
  }

  function Put64(v: nat): (s: seq<Byte>)
    ensures |s| == 8
  {
    Put(v, 8)
  }

  function Get64(s: seq<Byte>): (v: nat)
    requires |s| == 8
    ensures v < TWO_64 && Put64(v) == s
  {
    Limits();
    PutOfGet(s);
    Get(s)
  }

  lemma Back64(v: nat)
    requires v < TWO_64
    ensures Get64(Put64(v)) == v
  {
    Limits();
    GetOfPut(v, 8);
  }
}
