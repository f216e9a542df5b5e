/** What every module shares: the optional value used wherever the filesystem has
    an empty string, a nil slice or a missing map entry standing for "none";
    bytes; and the widths of the machine's integers. */
module Wrappers {
  datatype Option<+T> = None | Some(value: T)

  type Byte = b: int | 0 <= b < 256

  const TWO_31 := 0x8000_0000
  const TWO_32 := 0x1_0000_0000
  const TWO_63 := 0x8000_0000_0000_0000
  const TWO_64 := 0x1_0000_0000_0000_0000

  function Zeros(n: nat): (s: seq<Byte>)
    ensures |s| == n
  {
    seq(n, (_: nat) => 0)
  }

  lemma Assoc<T>(a: seq<T>, b: seq<T>, c: seq<T>)
    ensures a + b + c == a + (b + c)
  {
  }

  lemma {:induction false} SubsetSize<T>(a: set<T>, b: set<T>)
    requires a <= b
    ensures |a| <= |b|
  {
    if a != {} {
      var x :| x in a;
      SubsetSize(a - {x}, b - {x});
    }
  }
}
