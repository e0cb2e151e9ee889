/** Fixed-width integers as bytes, in both byte orders, each with its inverse. */
module ByteInts {
  import opened ChainWorld

  function Pow256(w: nat): (p: nat)
    ensures p > 0
  {
    if w == 0 then 1 else 256 * Pow256(w - 1)
  }

  lemma WordSizes()
    ensures Pow256(1) == 0x100
    ensures Pow256(2) == 0x1_0000
    ensures Pow256(4) == 0x1_0000_0000
    ensures Pow256(8) == 0x1_0000_0000_0000_0000
  {
  }

  /** Most significant byte first, keeping the low `w` bytes of `n`. */
  function BeBytes(n: nat, w: nat): (r: seq<Byte>)
    ensures |r| == w
    decreases w
  {
    if w == 0 then [] else BeBytes(n / 256, w - 1) + [n % 256]
  }

  function FromBe(s: seq<Byte>): nat
    decreases |s|
  {
    if s == [] then 0 else FromBe(s[..|s| - 1]) * 256 + s[|s| - 1]
  }

  lemma {:induction false} FromBeInverts(n: nat, w: nat)
    requires n < Pow256(w)
    ensures FromBe(BeBytes(n, w)) == n
    decreases w
  {
    if w > 0 {
      FromBeInverts(n / 256, w - 1);
      assert BeBytes(n, w)[..w - 1] == BeBytes(n / 256, w - 1);
    }
  }

  lemma {:induction false} BeBytesInverts(s: seq<Byte>)
    ensures FromBe(s) < Pow256(|s|)
    ensures BeBytes(FromBe(s), |s|) == s
    decreases |s|
  {
    if s != [] {
      BeBytesInverts(s[..|s| - 1]);
      assert s == s[..|s| - 1] + [s[|s| - 1]];
    }
  }

  /** Least significant byte first, keeping the low `w` bytes of `n`. */
  function LeBytes(n: nat, w: nat): (r: seq<Byte>)
    ensures |r| == w
    decreases w
  {
    if w == 0 then [] else [n % 256] + LeBytes(n / 256, w - 1)
  }

  function FromLe(s: seq<Byte>): nat
    decreases |s|
  {
    if s == [] then 0 else s[0] + 256 * FromLe(s[1..])
  }

  lemma {:induction false} FromLeInverts(n: nat, w: nat)
    requires n < Pow256(w)
    ensures FromLe(LeBytes(n, w)) == n
    decreases w
  {
    if w > 0 {
      FromLeInverts(n / 256, w - 1);
      assert LeBytes(n, w)[1..] == LeBytes(n / 256, w - 1);
    }
  }

  lemma {:induction false} LeBytesInverts(s: seq<Byte>)
    ensures FromLe(s) < Pow256(|s|)
    ensures LeBytes(FromLe(s), |s|) == s
    decreases |s|
  {
    if s != [] {
      LeBytesInverts(s[1..]);
      assert s == [s[0]] + s[1..];
    }
  }
}
