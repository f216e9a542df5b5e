/** Snapshot keys as the bucket spells them, and which of them a prune pass may
    delete. The epoch is zero-padded to twenty digits and the nonce is twelve
    hexadecimal ones, so the order of the strings is the order of the keys. */
module SnapshotKeys {
  import opened Strings
  import opened CommitProtocol

  function Digit(d: nat): char
    requires d < 16
  {
    ['0', '1', '2', '3', '4', '5', '6', '7', '8', '9', 'a', 'b', 'c', 'd', 'e', 'f'][d]
  }

  lemma DigitOrder(a: nat, b: nat)
    requires a < 16 && b < 16
    ensures Digit(a) < Digit(b) <==> a < b
  {
  }

  /** n in width decimal digits, zero-padded. */
  function Decimal(n: nat, width: nat): (s: string)
    ensures |s| == width
  {
    if width == 0 then "" else Decimal(n / 10, width - 1) + [Digit(n % 10)]
  }

  /** n in width hexadecimal digits, zero-padded. */
  function Hexadecimal(n: nat, width: nat): (s: string)
    ensures |s| == width
  {
    if width == 0 then "" else Hexadecimal(n / 16, width - 1) + [Digit(n % 16)]
  }

  function Pow(base: nat, n: nat): nat {
    if n == 0 then 1 else base * Pow(base, n - 1)
  }

  lemma LastDigitOrder(s: string, c: char, t: string, d: char)
    requires |s| == |t|
    ensures Less(s + [c], t + [d]) <==> Less(s, t) || (s == t && c < d)
    ensures s + [c] == t + [d] <==> s == t && c == d
  {
    LessConcat(s, [c], t, [d]);
    assert (s + [c])[..|s|] == s && (t + [d])[..|t|] == t;
    assert (s + [c])[|s|] == c && (t + [d])[|t|] == d;
  }

  /** Decimals of one width compare as the numbers they spell. */
  lemma {:induction false} DecimalOrder(a: nat, b: nat, width: nat)
    requires a < Pow(10, width) && b < Pow(10, width)
    ensures Less(Decimal(a, width), Decimal(b, width)) <==> a < b
    ensures Decimal(a, width) == Decimal(b, width) <==> a == b
  {
    if width > 0 {
      DecimalOrder(a / 10, b / 10, width - 1);
      DigitOrder(a % 10, b % 10);
      DigitOrder(b % 10, a % 10);
      LastDigitOrder(Decimal(a / 10, width - 1), Digit(a % 10), Decimal(b / 10, width - 1), Digit(b % 10));
    }
  }

  lemma {:induction false} HexadecimalOrder(a: nat, b: nat, width: nat)
    requires a < Pow(16, width) && b < Pow(16, width)
    ensures Less(Hexadecimal(a, width), Hexadecimal(b, width)) <==> a < b
    ensures Hexadecimal(a, width) == Hexadecimal(b, width) <==> a == b
  {
    if width > 0 {
      HexadecimalOrder(a / 16, b / 16, width - 1);
      DigitOrder(a % 16, b % 16);
      DigitOrder(b % 16, a % 16);
      LastDigitOrder(Hexadecimal(a / 16, width - 1), Digit(a % 16), Hexadecimal(b / 16, width - 1), Digit(b % 16));
    }
  }

  lemma EpochsFit()
    ensures Pow(10, 20) == 100_000_000_000_000_000_000
  {
    assert Pow(10, 10) == 10_000_000_000;
  }

  lemma NoncesFit()
    ensures Pow(16, 12) == 0x1_0000_0000_0000
  {
  }

  predicate Spellable(k: Key) {
    k.epoch < MAX_EPOCH && k.nonce < MAX_NONCE
  }

  const SUFFIX := ".json.gz"

  function Spell(k: Key): string {
    "snapshots/" + (Decimal(k.epoch, 20) + ("-" + (Hexadecimal(k.nonce, 12) + SUFFIX)))
  }

  function DigitValue(c: char): nat {
    if '0' <= c <= '9' then (c - '0') as nat else if 'a' <= c <= 'f' then (c - 'a') as nat + 10 else 0
  }

  /** The number some digits spell, the most significant first. */
  function Value(s: string, base: nat): nat {
    if s == "" then 0 else Value(s[..|s| - 1], base) * base + DigitValue(s[|s| - 1])
  }

  lemma DigitReads(d: nat)
    requires d < 16
    ensures DigitValue(Digit(d)) == d
  {
  }

  lemma {:induction false} DecimalReads(n: nat, width: nat)
    requires n < Pow(10, width)
    ensures Value(Decimal(n, width), 10) == n
  {
    if width > 0 {
      DecimalReads(n / 10, width - 1);
      DigitReads(n % 10);
      assert Decimal(n, width)[..width - 1] == Decimal(n / 10, width - 1);
    }
  }

  lemma {:induction false} HexadecimalReads(n: nat, width: nat)
    requires n < Pow(16, width)
    ensures Value(Hexadecimal(n, width), 16) == n
  {
    if width > 0 {
      HexadecimalReads(n / 16, width - 1);
      DigitReads(n % 16);
      assert Hexadecimal(n, width)[..width - 1] == Hexadecimal(n / 16, width - 1);
    }
  }

  lemma Framed(a: string, b: string, c: string, d: string, e: string)
    requires |c| == 1
    ensures var s, i := a + (b + (c + (d + e))), |a| + |b|;
            && |s| == i + 1 + |d| + |e| && s[..|a|] == a && s[|a|..i] == b && s[i] == c[0]
            && s[i + 1..i + 1 + |d|] == d && s[i + 1 + |d|..] == e
  {
  }

  /** The parts of a key's spelling: its epoch in twenty decimal digits, and its nonce
      in twelve hexadecimal ones. */
  lemma SpelledParts(k: Key)
    requires Spellable(k)
    ensures var s := Spell(k);
            && |s| == 51 && s[..10] == "snapshots/" && s[30] == '-' && s[43..] == ".json.gz"
            && Value(s[10..30], 10) == k.epoch && Value(s[31..43], 16) == k.nonce
  {
    EpochsFit();
    NoncesFit();
    DecimalReads(k.epoch, 20);
    HexadecimalReads(k.nonce, 12);
    Framed("snapshots/", Decimal(k.epoch, 20), "-", Hexadecimal(k.nonce, 12), SUFFIX);
  }

  /** Equal ends do not matter to the order of what they enclose. */
  lemma FrameOrder(pre: string, a: string, b: string)
    ensures Less(pre + a, pre + b) <==> Less(a, b)
    ensures pre + a == pre + b <==> a == b
  {
    LessConcat(pre, a, pre, b);
    LessIrreflexive(pre);
    assert (pre + a)[|pre|..] == a && (pre + b)[|pre|..] == b;
  }

  lemma PairOrder(a: string, x: string, b: string, y: string)
    requires |a| == |b|
    ensures Less(a + x, b + y) <==> Less(a, b) || (a == b && Less(x, y))
    ensures a + x == b + y <==> a == b && x == y
  {
    LessConcat(a, x, b, y);
    assert (a + x)[..|a|] == a && (b + y)[..|b|] == b;
    assert (a + x)[|a|..] == x && (b + y)[|b|..] == y;
  }

  lemma NoncePartOrder(a: nat, b: nat)
    requires a < MAX_NONCE && b < MAX_NONCE
    ensures var s, t := "-" + (Hexadecimal(a, 12) + SUFFIX), "-" + (Hexadecimal(b, 12) + SUFFIX);
            (Less(s, t) <==> a < b) && (s == t <==> a == b)
  {
    NoncesFit();
    HexadecimalOrder(a, b, 12);
    FrameOrder("-", Hexadecimal(a, 12) + SUFFIX, Hexadecimal(b, 12) + SUFFIX);
    PairOrder(Hexadecimal(a, 12), SUFFIX, Hexadecimal(b, 12), SUFFIX);
    LessIrreflexive(SUFFIX);
  }

  lemma EpochPartOrder(a: nat, b: nat)
    requires a < MAX_EPOCH && b < MAX_EPOCH
    ensures Less(Decimal(a, 20), Decimal(b, 20)) <==> a < b
    ensures Decimal(a, 20) == Decimal(b, 20) <==> a == b
  {
    EpochsFit();
    DecimalOrder(a, b, 20);
  }

  /** The order of the strings is the order of the keys, and no two keys share one. */
  lemma SpellOrder(a: Key, b: Key)
    requires Spellable(a) && Spellable(b)
    ensures Less(Spell(a), Spell(b)) <==> KeyLess(a, b)
    ensures Spell(a) == Spell(b) <==> a == b
  {
    var ta, tb := "-" + (Hexadecimal(a.nonce, 12) + SUFFIX), "-" + (Hexadecimal(b.nonce, 12) + SUFFIX);
    NoncePartOrder(a.nonce, b.nonce);
    EpochPartOrder(a.epoch, b.epoch);
    PairOrder(Decimal(a.epoch, 20), ta, Decimal(b.epoch, 20), tb);
    FrameOrder("snapshots/", Decimal(a.epoch, 20) + ta, Decimal(b.epoch, 20) + tb);
  }
}
