/** The height a coinbase script opens with: the canonical push, and the reader
    that accepts nothing else. */
module CoinbaseHeight {
  import opened Wrappers
  import opened ChainWorld
  import opened ByteInts
  import opened WireParsing

  /** The bytes of a number, least significant first, with no high zero bytes. */
  function Digits(n: nat): Bytes {
    if n == 0 then [] else [n % 256] + Digits(n / 256)
  }

  /** A zero byte keeps a set top bit from reading as a sign. */
  function Unsigned(digits: Bytes): Bytes {
    if digits != [] && digits[|digits| - 1] >= 0x80 then digits + [0] else digits
  }

  function Push(height: nat): Bytes {
    if 1 <= height <= 16 then [0x50 + height]
    else if |Unsigned(Digits(height))| > 255 then []
    else [|Unsigned(Digits(height))|] + Unsigned(Digits(height))
  }

  /** The push as the code builds it: all eight bytes, the high zeros popped. */
  method CanonicalPush(height: nat) returns (push: Bytes)
    requires height < U64_SPAN
    ensures push == Push(height)
  {
    hide Digits, LeBytes, FromLe;
    if 1 <= height <= 16 {
      return [0x50 + height];
    }
    var digits := LeBytes(height, 8);
    WordSizes();
    FromLeInverts(height, 8);
    while digits != [] && digits[|digits| - 1] == 0
      invariant |digits| <= 8 && FromLe(digits) == height
      decreases |digits|
    {
      DropsZero(digits);
      digits := digits[..|digits| - 1];
    }
    MinimalIsDigits(digits);
    if digits != [] && digits[|digits| - 1] >= 0x80 {
      digits := digits + [0];
    }
    push := [|digits|] + digits;
  }

  lemma {:induction false} DropsZero(digits: Bytes)
    requires digits != [] && digits[|digits| - 1] == 0
    ensures FromLe(digits[..|digits| - 1]) == FromLe(digits)
    decreases |digits|
  {
    var init := digits[..|digits| - 1];
    if init == [] {
      assert digits[1..] == [];
    } else {
      DropsZero(digits[1..]);
      assert digits[1..][..|digits| - 2] == init[1..];
    }
  }

  /** Bytes with no high zero are the digits of what they say. */
  lemma {:induction false} MinimalIsDigits(digits: Bytes)
    requires digits != [] ==> digits[|digits| - 1] != 0
    ensures digits == Digits(FromLe(digits))
    decreases |digits|
  {
    if digits != [] {
      MinimalIsDigits(digits[1..]);
      NotZero(digits);
      assert digits == [digits[0]] + digits[1..];
    }
  }

  lemma {:induction false} NotZero(digits: Bytes)
    requires digits != [] && digits[|digits| - 1] != 0
    ensures FromLe(digits) > 0
    decreases |digits|
  {
    if |digits| > 1 {
      NotZero(digits[1..]);
    }
  }

  lemma {:induction false} DigitsSayIt(n: nat)
    ensures FromLe(Digits(n)) == n
    ensures Digits(n) != [] ==> Digits(n)[|Digits(n)| - 1] != 0
    decreases n
  {
    if n > 0 {
      DigitsSayIt(n / 256);
      assert Digits(n)[1..] == Digits(n / 256);
    }
  }

  lemma {:induction false} DigitsFit(n: nat, w: nat)
    requires n < Pow256(w)
    ensures |Digits(n)| <= w
    decreases w
  {
    if n > 0 {
      DigitsFit(n / 256, w - 1);
    }
  }

  lemma UnsignedSaysIt(n: nat)
    ensures FromLe(Unsigned(Digits(n))) == n
  {
    DigitsSayIt(n);
    var digits := Digits(n);
    if Unsigned(digits) != digits {
      DropsZero(digits + [0]);
      assert (digits + [0])[..|digits|] == digits;
    }
  }

  const MAX_PUSHED: nat := 5

  /** The height the first coinbase script commits to; genesis carries none. */
  function Height(prevHash: Bytes, script: Bytes): Result<nat, DecodeError> {
    if prevHash == seq(32, _ => 0) then Ok(0)
    else if script == [] then Err(CoinbaseHeight("empty coinbase script"))
    else if 0x51 <= script[0] <= 0x60 then Checked(script, script[0] - 0x50, 1)
    else if 1 <= script[0] <= MAX_PUSHED then
      if 1 + script[0] > |script| then Err(CoinbaseHeight("height push truncated"))
      else Checked(script, FromLe(script[1..1 + script[0]]), 1 + script[0])
    else Err(CoinbaseHeight("script does not open with a height push"))
  }

  function Checked(script: Bytes, height: nat, pushLen: nat): Result<nat, DecodeError>
    requires pushLen <= |script|
  {
    if script[..pushLen] != Push(height) then Err(CoinbaseHeight("height push is not canonical"))
    else if height >= U32_SPAN then Err(CoinbaseHeight("height exceeds the 32-bit range"))
    else if height > MAX_HEIGHT then Err(HeightOutOfRange(height))
    else Ok(height)
  }

  lemma PushShape(h: nat)
    requires 1 <= h <= MAX_HEIGHT
    ensures
      if h <= 16 then Push(h) == [0x50 + h]
      else
        var d := Unsigned(Digits(h));
        1 <= |d| <= MAX_PUSHED && Push(h) == [|d|] + d && FromLe(d) == h
  {
    WordSizes();
    DigitsFit(h, 4);
    UnsignedSaysIt(h);
    assert |Digits(h)| >= 1;
  }

  /** The pushed bytes are the shortest that say the height without reading as
      negative: a script number's minimal form. */
  lemma PushIsMinimal(h: nat, other: Bytes)
    requires FromLe(other) == h && (other != [] ==> other[|other| - 1] < 0x80)
    ensures
      var d := Unsigned(Digits(h));
      && FromLe(d) == h && (d != [] ==> d[|d| - 1] < 0x80)
      && |d| <= |other|
  {
    hide Digits, FromLe;
    UnsignedSaysIt(h);
    DigitsAreShortest(other);
  }

  /** Bytes saying a number are its digits and then zeros. */
  lemma {:induction false} DigitsAreShortest(bytes: Bytes)
    ensures Digits(FromLe(bytes)) <= bytes
    ensures forall i :: |Digits(FromLe(bytes))| <= i < |bytes| ==> bytes[i] == 0
    decreases |bytes|
  {
    hide Digits, FromLe;
    if bytes != [] && bytes[|bytes| - 1] == 0 {
      DropsZero(bytes);
      DigitsAreShortest(bytes[..|bytes| - 1]);
    } else {
      MinimalIsDigits(bytes);
    }
  }

  /** After genesis, a script commits to a height exactly when it opens with the
      canonical push of an in-range height of at least one. */
  lemma HeightIff(prevHash: Bytes, script: Bytes, h: nat)
    requires prevHash != seq(32, _ => 0)
    ensures Height(prevHash, script) == Ok(h) <==> 1 <= h <= MAX_HEIGHT && Push(h) <= script
  {
    hide Digits, Unsigned, FromLe;
    if 1 <= h <= MAX_HEIGHT && Push(h) <= script {
      PushShape(h);
      if h > 16 {
        var d := Unsigned(Digits(h));
        assert script[0] == |d| && script[..1 + |d|] == [|d|] + d;
        assert script[1..1 + |d|] == ([|d|] + d)[1..] == d;
      }
    } else if Height(prevHash, script) == Ok(h) {
      PushIsNotZero();
    }
  }

  /** The push of zero is a lone length byte, which opens no accepted script. */
  lemma PushIsNotZero()
    ensures Push(0) == [0]
  {
  }

  /** No height's push begins another's. */
  lemma PushIsPrefixFree(g: nat, h: nat, script: Bytes)
    requires 1 <= g <= MAX_HEIGHT && 1 <= h <= MAX_HEIGHT
    requires Push(g) <= script && Push(h) <= script
    ensures g == h
  {
    hide Push, Height;
    var other := seq(32, _ => 1);
    assert other[0] == 1;
    HeightIff(other, script, g);
    HeightIff(other, script, h);
  }
}
