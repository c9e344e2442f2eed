/** CMAC over hexadecimal strings and Python integers, against the bit strings of NIST SP 800-38B. */
module Cmac {
  import opened Arith
  import opened Wrappers

  // ---- bit strings ----

  type Bits = seq<bool>

  const BLOCK := 128

  function Pow2(n: nat): (p: nat)
    ensures p > 0
  {
    if n == 0 then 1 else 2 * Pow2(n - 1)
  }

  function Bit(b: bool): nat {
    if b then 1 else 0
  }

  /** The number a bit string stands for, most significant bit first. */
  function Val(s: Bits): nat {
    if |s| == 0 then 0 else 2 * Val(s[..|s| - 1]) + Bit(s[|s| - 1])
  }

  lemma {:induction false} ValBound(s: Bits)
    ensures Val(s) < Pow2(|s|)
  {
    if |s| > 0 {
      ValBound(s[..|s| - 1]);
    }
  }

  /** Bit strings of one length are told apart by their numbers. */
  lemma {:induction false} ValInjective(a: Bits, b: Bits)
    requires |a| == |b| && Val(a) == Val(b)
    ensures a == b
  {
    if |a| > 0 {
      var n := |a| - 1;
      assert Bit(a[n]) == Val(a) % 2 && Bit(b[n]) == Val(b) % 2;
      ValInjective(a[..n], b[..n]);
      assert a == a[..n] + [a[n]] && b == b[..n] + [b[n]];
    }
  }

  lemma {:induction false} ValConcat(a: Bits, b: Bits)
    ensures Val(a + b) == Val(a) * Pow2(|b|) + Val(b)
  {
    if |b| == 0 {
      assert a + b == a;
    } else {
      var n := |b| - 1;
      assert (a + b)[..|a + b| - 1] == a + b[..n] && (a + b)[|a + b| - 1] == b[n];
      ValConcat(a, b[..n]);
      Doubling(Val(a), Pow2(n), Val(b[..n]), Bit(b[n]));
    }
  }

  lemma Doubling(x: nat, p: nat, v: nat, bit: nat)
    ensures 2 * (x * p + v) + bit == x * (2 * p) + (2 * v + bit)
  {
  }

  function Zeros(n: nat): (z: Bits)
    ensures |z| == n
  {
    seq(n, _ => false)
  }

  lemma {:induction false} ValZeros(n: nat)
    ensures Val(Zeros(n)) == 0
  {
    if n > 0 {
      assert Zeros(n)[..n - 1] == Zeros(n - 1);
      ValZeros(n - 1);
    }
  }

  function XorBits(a: Bits, b: Bits): (r: Bits)
    requires |a| == |b|
    ensures |r| == |a|
  {
    seq(|a|, i requires 0 <= i < |a| => a[i] != b[i])
  }

  /** `^` of Python on non-negative integers. */
  function Xor(a: nat, b: nat): nat {
    if a == 0 && b == 0 then 0 else 2 * Xor(a / 2, b / 2) + Bit(a % 2 != b % 2)
  }

  lemma {:induction false} ValXor(a: Bits, b: Bits)
    requires |a| == |b|
    ensures Val(XorBits(a, b)) == Xor(Val(a), Val(b))
  {
    if |a| > 0 {
      var n := |a| - 1;
      assert XorBits(a, b)[..n] == XorBits(a[..n], b[..n]);
      ValXor(a[..n], b[..n]);
      assert Val(a) / 2 == Val(a[..n]) && Val(b) / 2 == Val(b[..n]);
      assert Val(a) % 2 == Bit(a[n]) && Val(b) % 2 == Bit(b[n]);
    }
  }

  // ---- the standard: sections 6.1 and 6.2 of SP 800-38B ----

  /** A block cipher under a fixed key. */
  type Cipher = f: Bits -> Bits | forall x :: |x| == BLOCK ==> |f(x)| == BLOCK witness (x: Bits) => x

  /** R_128: 120 zeros and 10000111. */
  const R128: Bits := Zeros(120) + [true, false, false, false, false, true, true, true]

  /** Shift left by one, and take away what falls out. */
  function Doubled(x: Bits): (r: Bits)
    requires |x| == BLOCK
    ensures |r| == BLOCK
  {
    var shifted := x[1..] + [false];
    if !x[0] then shifted else XorBits(shifted, R128)
  }

  function Subkey1(ciph: Cipher): (k: Bits)
    ensures |k| == BLOCK
  {
    Doubled(ciph(Zeros(BLOCK)))
  }

  function Subkey2(ciph: Cipher): (k: Bits)
    ensures |k| == BLOCK
  {
    Doubled(Subkey1(ciph))
  }

  /** The block after the first `i`. */
  function BlockAt(m: Bits, i: nat): (b: Bits)
    requires BLOCK * (i + 1) <= |m|
    ensures |b| == BLOCK
  {
    m[BLOCK * i..BLOCK * (i + 1)]
  }

  /** C_i, the chaining value after the first blocks of a message. */
  function Chain(ciph: Cipher, m: Bits, i: nat): (c: Bits)
    requires BLOCK * i <= |m|
    ensures |c| == BLOCK
  {
    if i == 0 then Zeros(BLOCK)
    else ciph(XorBits(Chain(ciph, m, i - 1), BlockAt(m, i - 1)))
  }

  /** Number of blocks: at least one. */
  function Blocks(len: nat): (n: nat)
    ensures n >= 1 && (n - 1) * BLOCK <= len <= n * BLOCK && (len > 0 ==> (n - 1) * BLOCK < len)
  {
    if len == 0 then 1 else (len + BLOCK - 1) / BLOCK
  }

  /** An incomplete block is padded with a one and zeros. */
  function Padded(last: Bits): (r: Bits)
    requires |last| <= BLOCK
    ensures |r| == BLOCK
  {
    if |last| == BLOCK then last else last + ([true] + Zeros(BLOCK - |last| - 1))
  }

  /** M_n: the last block with its subkey, which depends on whether it is complete. */
  function LastBlock(ciph: Cipher, last: Bits): (r: Bits)
    requires |last| <= BLOCK
    ensures |r| == BLOCK
  {
    XorBits(if |last| == BLOCK then Subkey1(ciph) else Subkey2(ciph), Padded(last))
  }

  /** What follows the first `i` blocks. */
  function Rest(m: Bits, i: nat): (b: Bits)
    requires BLOCK * i <= |m|
    ensures |b| == |m| - BLOCK * i
  {
    m[BLOCK * i..]
  }

  /** What the cipher gets last. */
  function FinalInput(ciph: Cipher, m: Bits): (b: Bits)
    ensures |b| == BLOCK
  {
    var n := Blocks(|m|) - 1;
    XorBits(Chain(ciph, m, n), LastBlock(ciph, Rest(m, n)))
  }

  function Mac(ciph: Cipher, m: Bits): (t: Bits)
    ensures |t| == BLOCK
  {
    ciph(FinalInput(ciph, m))
  }

  // ---- hexadecimal strings ----

  predicate IsDigit(c: char) {
    '0' <= c <= '9' || 'A' <= c <= 'F' || 'a' <= c <= 'f'
  }

  predicate IsHex(s: string) {
    forall i :: 0 <= i < |s| ==> IsDigit(s[i])
  }

  function DigitVal(c: char): (v: nat)
    requires IsDigit(c)
    ensures v < 16
  {
    if c <= '9' then c as int - '0' as int
    else if c <= 'F' then c as int - 'A' as int + 10
    else c as int - 'a' as int + 10
  }

  function UpperDigit(v: nat): (c: char)
    requires v < 16
    ensures IsDigit(c) && DigitVal(c) == v
  {
    if v < 10 then '0' + v as char else 'A' + (v - 10) as char
  }

  function LowerDigit(v: nat): (c: char)
    requires v < 16
    ensures IsDigit(c) && DigitVal(c) == v
  {
    if v < 10 then '0' + v as char else 'a' + (v - 10) as char
  }

  /** `Hex2Int`; the empty string is 0. */
  function HexVal(s: string): nat
    requires IsHex(s)
  {
    if |s| == 0 then 0 else 16 * HexVal(s[..|s| - 1]) + DigitVal(s[|s| - 1])
  }

  /** `'%X' % v`. */
  function UpperHex(v: nat): (s: string)
    ensures |s| >= 1 && IsHex(s)
  {
    if v < 16 then [UpperDigit(v)] else UpperHex(v / 16) + [UpperDigit(v % 16)]
  }

  /** `Int2Hex`: padded with zeros to a width, never cut. */
  function IntToHex(v: nat, width: nat): (s: string)
    ensures IsHex(s) && |s| >= width
  {
    var digits := UpperHex(v);
    (if |digits| < width then seq(width - |digits|, _ => '0') else []) + digits
  }

  /** Four bits for each digit. */
  function DigitBits(v: nat): (b: Bits)
    requires v < 16
    ensures |b| == 4
  {
    [v / 8 == 1, v / 4 % 2 == 1, v / 2 % 2 == 1, v % 2 == 1]
  }

  function HexBits(s: string): (b: Bits)
    requires IsHex(s)
    ensures |b| == 4 * |s|
  {
    if |s| == 0 then [] else HexBits(s[..|s| - 1]) + DigitBits(DigitVal(s[|s| - 1]))
  }

  lemma DigitBitsVal(v: nat)
    requires v < 16
    ensures Val(DigitBits(v)) == v
  {
    var b := DigitBits(v);
    assert b[..3][..2][..1][..0] == [];
    assert b[..3][..2][..1] == [b[0]] && b[..3][..2] == [b[0], b[1]] && b[..3] == [b[0], b[1], b[2]];
    assert Val([b[0]]) == Bit(b[0]);
    assert Val([b[0], b[1]]) == 2 * Bit(b[0]) + Bit(b[1]);
    assert Val([b[0], b[1], b[2]]) == 4 * Bit(b[0]) + 2 * Bit(b[1]) + Bit(b[2]);
  }

  lemma {:induction false} HexBitsVal(s: string)
    requires IsHex(s)
    ensures Val(HexBits(s)) == HexVal(s)
  {
    if |s| > 0 {
      var n := |s| - 1;
      HexBitsVal(s[..n]);
      ValConcat(HexBits(s[..n]), DigitBits(DigitVal(s[n])));
      DigitBitsVal(DigitVal(s[n]));
      assert Pow2(4) == 16;
    }
  }

  lemma {:induction false} HexBitsConcat(s: string, t: string)
    requires IsHex(s) && IsHex(t)
    ensures IsHex(s + t) && HexBits(s + t) == HexBits(s) + HexBits(t)
  {
    if |t| == 0 {
      assert s + t == s;
    } else {
      var n := |t| - 1;
      assert (s + t)[..|s + t| - 1] == s + t[..n];
      HexBitsConcat(s, t[..n]);
    }
  }

  lemma MiddleOf(a: Bits, b: Bits, c: Bits)
    ensures (a + b + c)[|a|..|a| + |b|] == b
  {
  }

  lemma SliceIsHex(s: string, i: nat, j: nat)
    requires IsHex(s) && i <= j <= |s|
    ensures IsHex(s[i..j])
  {
  }

  lemma HexBitsSlice(s: string, i: nat, j: nat)
    requires IsHex(s) && i <= j <= |s|
    ensures IsHex(s[i..j])
    ensures HexBits(s[i..j]) == HexBits(s)[4 * i..4 * j]
  {
    hide HexBits, IsHex;
    var a, b, c := s[0..i], s[i..j], s[j..|s|];
    SliceIsHex(s, 0, i);
    SliceIsHex(s, i, j);
    SliceIsHex(s, j, |s|);
    ThreeSlices(s, i, j);
    ThreeParts(s, a, b, c);
  }

  lemma ThreeSlices(s: string, i: nat, j: nat)
    requires i <= j <= |s|
    ensures s == s[0..i] + s[i..j] + s[j..|s|]
  {
  }

  lemma ThreeParts(s: string, a: string, b: string, c: string)
    requires IsHex(a) && IsHex(b) && IsHex(c) && s == a + b + c
    ensures IsHex(s) && HexBits(s)[4 * |a|..4 * (|a| + |b|)] == HexBits(b)
  {
    hide HexBits, IsHex;
    HexBitsConcat(a, b);
    HexBitsConcat(a + b, c);
    MiddleOf(HexBits(a), HexBits(b), HexBits(c));
  }

  // ---- numbers and hexadecimal strings ----

  lemma Pow16(n: nat)
    ensures Pow2(4 * (n + 1)) == 16 * Pow2(4 * n)
  {
    assert Pow2(4 * n + 4) == 2 * Pow2(4 * n + 3) == 4 * Pow2(4 * n + 2) == 8 * Pow2(4 * n + 1);
  }

  /** A string of `n` digits stands for a number below 16^n. */
  lemma HexBound(s: string)
    requires IsHex(s)
    ensures HexVal(s) < Pow2(4 * |s|)
  {
    HexBitsVal(s);
    ValBound(HexBits(s));
  }

  lemma {:induction false} UpperHexVal(v: nat)
    ensures HexVal(UpperHex(v)) == v
  {
    if v >= 16 {
      UpperHexVal(v / 16);
      assert UpperHex(v)[..|UpperHex(v)| - 1] == UpperHex(v / 16);
    } else {
      assert [UpperDigit(v)][..0] == [];
    }
  }

  /** How long a number's digits are. */
  lemma {:induction false} UpperHexLength(v: nat, n: nat)
    requires n >= 1
    ensures |UpperHex(v)| <= n <==> v < Pow2(4 * n)
  {
    Pow16(n - 1);
    if v < 16 {
    } else if n > 1 {
      UpperHexLength(v / 16, n - 1);
    } else {
      assert Pow2(4) == 16 && Pow2(0) == 1;
    }
  }

  lemma {:induction false} LeadingZeros(n: nat, s: string)
    requires IsHex(s)
    ensures IsHex(seq(n, _ => '0') + s) && HexVal(seq(n, _ => '0') + s) == HexVal(s)
  {
    var z := seq(n, _ => '0');
    if |s| > 0 {
      assert (z + s)[..|z + s| - 1] == z + s[..|s| - 1];
      LeadingZeros(n, s[..|s| - 1]);
    } else if n > 0 {
      assert (z + s)[..n - 1] == seq(n - 1, _ => '0') + s;
      LeadingZeros(n - 1, s);
    }
  }

  lemma IntToHexVal(v: nat, width: nat)
    ensures HexVal(IntToHex(v, width)) == v
  {
    var digits := UpperHex(v);
    UpperHexVal(v);
    if |digits| < width {
      LeadingZeros(width - |digits|, digits);
    } else {
      assert [] + digits == digits;
    }
  }

  lemma IntToHexLength(v: nat, width: nat, n: nat)
    requires n >= 1 && width <= n
    ensures |IntToHex(v, width)| <= n <==> v < Pow2(4 * n)
  {
    UpperHexLength(v, n);
  }

  /** Splitting a string at a digit. */
  lemma HexSplit(s: string, i: nat)
    requires IsHex(s) && i <= |s|
    ensures HexVal(s) == HexVal(s[..i]) * Pow2(4 * (|s| - i)) + HexVal(s[i..])
  {
    hide HexBits, HexVal, Pow2;
    assert s == s[..i] + s[i..];
    HexBitsConcat(s[..i], s[i..]);
    ValConcat(HexBits(s[..i]), HexBits(s[i..]));
    HexBitsVal(s);
    HexBitsVal(s[..i]);
    HexBitsVal(s[i..]);
  }

  /** A string whose number is that of a bit string of its length is that bit string. */
  lemma SameBits(h: string, x: Bits)
    requires IsHex(h) && |x| == 4 * |h| && HexVal(h) == Val(x)
    ensures HexBits(h) == x
  {
    HexBitsVal(h);
    ValInjective(HexBits(h), x);
  }

  /** Padding a bit string's number to its number of digits gives its digits. */
  lemma NumberBits(x: Bits, n: nat)
    requires |x| == 4 * n && n >= 1
    ensures |IntToHex(Val(x), n)| == n && HexBits(IntToHex(Val(x), n)) == x
  {
    hide IntToHex, HexBits, HexVal, Val;
    ValBound(x);
    IntToHexLength(Val(x), n, n);
    IntToHexVal(Val(x), n);
    SameBits(IntToHex(Val(x), n), x);
  }

  // ---- the doubling of a subkey ----

  lemma HeadVal(x: Bits)
    requires |x| > 0
    ensures Val(x) == Bit(x[0]) * Pow2(|x| - 1) + Val(x[1..]) && Val(x[1..]) < Pow2(|x| - 1)
  {
    hide Val, Pow2;
    assert x == [x[0]] + x[1..];
    ValConcat([x[0]], x[1..]);
    OneBit(x[0]);
    ValBound(x[1..]);
  }

  lemma OneBit(b: bool)
    ensures Val([b]) == Bit(b)
  {
    assert [b][..0] == [];
  }

  /** `<< 1`, back to digits, and away with a 33rd digit: a shift of the bit string. */
  lemma ShiftHex(h: string, width: nat) returns (t: string)
    requires IsHex(h) && |h| == 32 && width <= 32
    ensures var t0 := IntToHex(2 * HexVal(h), width); t == if |t0| > 32 then t0[1..] else t0
    ensures IsHex(t) && HexVal(t) == Val(HexBits(h)[1..] + [false]) && |t| <= 32 && (width == 32 ==> |t| == 32)
  {
    hide HexBits, HexVal, IntToHex, Val, Pow2;
    var x, v := HexBits(h), HexVal(h);
    var t0 := IntToHex(2 * v, width);
    HexBitsVal(h);
    HeadVal(x);
    DoublePow(127);
    Appended(x[1..]);
    IntToHexVal(2 * v, width);
    IntToHexLength(2 * v, width, 32);
    t := t0;
    if |t0| > 32 {
      IntToHexLength(2 * v, width, 33);
      Pow16(32);
      HexSplit(t0, 1);
      t := t0[1..];
      HexBound(t);
      OneDigit(t0[..1]);
      Euclid(2 * v, Pow2(128), HexVal(t0[..1]), HexVal(t));
      Euclid(2 * v, Pow2(128), 1, 2 * Val(x[1..]));
    }
  }

  lemma DoublePow(n: nat)
    ensures Pow2(n + 1) == 2 * Pow2(n)
  {
  }

  lemma OneDigit(s: string)
    requires IsHex(s) && |s| == 1
    ensures HexVal(s) < 16
  {
    assert s[..0] == [];
  }

  lemma Appended(x: Bits)
    ensures Val(x + [false]) == 2 * Val(x)
  {
    assert (x + [false])[..|x|] == x;
  }

  /** `Hex2Int(h[0:2]) & 0x80` looks at the first bit. */
  lemma TopBit(h: string)
    requires IsHex(h) && |h| >= 2
    ensures HexVal(h[0..2]) / 128 % 2 == Bit(HexBits(h)[0])
  {
    hide HexBits, HexVal, Val, Pow2;
    var x := HexBits(h[0..2]);
    HexBitsSlice(h, 0, 2);
    HexBitsVal(h[0..2]);
    HeadVal(x);
    SmallPow2();
    Euclid(Val(x), 128, Bit(x[0]), Val(x[1..]));
  }

  lemma SmallPow2()
    ensures Pow2(7) == 128
  {
  }

  const R128_HEX := "00000000000000000000000000000087"

  lemma R128Is()
    ensures IsHex(R128_HEX) && |R128_HEX| == 32 && HexVal(R128_HEX) == Val(R128)
  {
    var low := [true, false, false, false, false, true, true, true];
    ValConcat(Zeros(120), low);
    ValZeros(120);
    assert low == DigitBits(8) + DigitBits(7);
    ValConcat(DigitBits(8), DigitBits(7));
    DigitBitsVal(8);
    DigitBitsVal(7);
    assert Pow2(4) == 16;
    var z := seq(30, _ => '0');
    assert R128_HEX == z + "87";
    LeadingZeros(30, "87");
    assert "87"[..1] == "8" && "8"[..0] == "";
  }

  lemma XorCommutes(a: Bits, b: Bits)
    requires |a| == |b|
    ensures XorBits(a, b) == XorBits(b, a)
  {
  }

  // ---- the tool's code ----

  /** `hexlify` of a bit string. */
  function LowerHex(x: Bits): (s: string)
    requires |x| % 4 == 0
    ensures IsHex(s) && |s| == |x| / 4
  {
    if |x| == 0 then ""
    else
      var n := |x| - 4;
      ValBound(x[n..]);
      assert Pow2(4) == 16;
      LowerHex(x[..n]) + [LowerDigit(Val(x[n..]))]
  }

  lemma LowerDigitBits(x: Bits)
    requires |x| == 4
    ensures Val(x) < 16 && HexBits([LowerDigit(Val(x))]) == x
  {
    ValBound(x);
    assert Pow2(4) == 16;
    DigitBitsVal(Val(x));
    ValInjective(DigitBits(Val(x)), x);
    var s := [LowerDigit(Val(x))];
    assert s[..0] == [];
  }

  lemma {:induction false} LowerHexBits(x: Bits)
    requires |x| % 4 == 0
    ensures HexBits(LowerHex(x)) == x
  {
    hide HexBits, Val, IsHex, LowerHex;
    LowerHexStep(x);
    if |x| > 0 {
      var n := |x| - 4;
      var head, tail := x[..n], x[n..];
      LowerHexBits(head);
      LowerDigitBits(tail);
      HexBitsConcat(LowerHex(head), [LowerDigit(Val(tail))]);
      assert x == head + tail;
    }
  }

  lemma LowerHexStep(x: Bits)
    requires |x| % 4 == 0
    ensures |x| == 0 ==> HexBits(LowerHex(x)) == x
    ensures |x| > 0 ==>
              var n := |x| - 4;
              n >= 0 && n % 4 == 0 && Val(x[n..]) < 16 && LowerHex(x) == LowerHex(x[..n]) + [LowerDigit(Val(x[n..]))]
  {
    hide Val;
    if |x| > 0 {
      ValBound(x[|x| - 4..]);
      assert Pow2(4) == 16;
    }
  }

  /** A slice of Python that starts at `from`, which may be negative. */
  function SliceFrom(s: string, from: int): string {
    if from >= |s| then "" else if from >= 0 then s[from..] else if |s| + from >= 0 then s[|s| + from..] else s
  }

  /** The tool's block count, `int(((len - 1) / 32) + 1)`; it is 0 for the empty message. */
  function BlockCount(len: nat): int {
    ((len as int - 1) as real / 32.0 + 1.0).Floor
  }

  lemma BlockCountIs(len: nat)
    ensures BlockCount(len) == (len + 31) / 32
    ensures len > 0 ==> BlockCount(len) == Blocks(4 * len)
  {
    var n := (len + 31) / 32;
    var x := (len as int - 1) as real / 32.0 + 1.0;
    assert x == (len + 31) as real / 32.0;
    assert n as real <= x < n as real + 1.0;
    if len > 0 {
      Euclid(4 * len + BLOCK - 1, BLOCK, n, 4 * ((len + 31) % 32) + 3);
    }
  }

  /** Block `i` of a message in digits. */
  function HexBlock(message: string, i: nat): (b: string)
    requires 32 * (i + 1) <= |message|
    ensures |b| == 32
  {
    message[i * 32..i * 32 + 32]
  }

  lemma HexBlockBits(message: string, i: nat)
    requires IsHex(message) && 32 * (i + 1) <= |message|
    ensures IsHex(HexBlock(message, i)) && HexBits(HexBlock(message, i)) == BlockAt(HexBits(message), i)
  {
    hide HexBits, IsHex;
    BlockFrom(message, i, i * 32, i * 32 + 32);
  }

  lemma BlockFrom(message: string, i: nat, a: nat, b: nat)
    requires IsHex(message) && a == 32 * i && b == a + 32 && b <= |message|
    ensures IsHex(message[a..b]) && HexBits(message[a..b]) == BlockAt(HexBits(message), i)
  {
    hide HexBits, IsHex;
    HexBitsSlice(message, a, b);
    var from, to := 4 * a, 4 * b;
    assert from == BLOCK * i && to == BLOCK * (i + 1);
  }

  // ---- the tool's last block ----

  /** The last block in digits, complete or not. */
  function LastDigits(message: string): string {
    SliceFrom(message, (BlockCount(|message|) - 1) * 32)
  }

  /** An incomplete block with the padding number behind it, which has two digits at least. */
  function PaddedDigits(last: string): (r: string)
    requires IsHex(last) && |last| <= 32
    ensures IsHex(r)
  {
    if |last| < 32 then last + IntToHex(Pow2((32 - |last|) * 4 - 1), 2) else last
  }

  /** The digits that are unpacked for the cipher. */
  function KeyedDigits(key: nat, last: string, c: nat): (r: string)
    requires IsHex(last) && |last| <= 32
    ensures IsHex(r)
  {
    IntToHex(Xor(Xor(key, HexVal(PaddedDigits(last))), c), 32)
  }

  function SubkeyFor(ciph: Cipher, digits: nat): (k: Bits)
    ensures |k| == BLOCK
  {
    if digits == 32 then Subkey1(ciph) else Subkey2(ciph)
  }

  function ToolBlock(ciph: Cipher, message: string): (r: string)
    requires IsHex(message)
    ensures IsHex(r)
  {
    LastDigitsAre(message);
    KeyedDigits(Val(SubkeyFor(ciph, |LastDigits(message)|)), LastDigits(message),
                Val(Chain(ciph, HexBits(message), Blocks(4 * |message|) - 1)))
  }

  /** One digit is missing from the last block, and it does not begin with a zero. */
  predicate Refused(message: string) {
    |message| % 32 == 31 && message[|message| - 31] != '0'
  }

  /** No digit is missing, or more than one, or the last block is all zeros. */
  predicate Standard(message: string) {
    |message| % 32 == 31 ==> forall i :: |message| - 31 <= i < |message| ==> message[i] == '0'
  }

  predicate AllZeros(s: string) {
    forall i :: 0 <= i < |s| ==> s[i] == '0'
  }

  /** The last slice begins where the loop ended, and a negative start leaves the empty message empty. */
  lemma LastDigitsAre(message: string)
    requires IsHex(message)
    ensures var last, i := LastDigits(message), Blocks(4 * |message|) - 1;
            && 32 * i <= |message| && IsHex(last) && HexBits(last) == Rest(HexBits(message), i) && |last| <= 32
            && (|last| == 31 <==> |message| % 32 == 31)
            && (|last| == 31 ==> last == message[|message| - 31..])
  {
    hide *;
    var n, i := BlockCount(|message|), Blocks(4 * |message|) - 1;
    BlockCounts(|message|);
    LastDigitsIs(message, n);
    LastSlice(message, n, i);
  }

  lemma LastDigitsIs(message: string, n: int)
    requires n == BlockCount(|message|)
    ensures SliceFrom(message, (n - 1) * 32) == LastDigits(message)
  {
  }

  lemma BlockCounts(len: nat)
    ensures var n := BlockCount(len);
            n == (len + 31) / 32 && Blocks(4 * len) - 1 == if n == 0 then 0 else n - 1
  {
    hide BlockCount, Blocks;
    BlockCountIs(len);
    OneBlock(len);
  }

  lemma LastSlice(message: string, n: int, i: nat)
    requires IsHex(message) && n == (|message| + 31) / 32 && i == if n == 0 then 0 else n - 1
    ensures var last := SliceFrom(message, (n - 1) * 32);
            && 32 * i <= |message| && IsHex(last) && HexBits(last) == Rest(HexBits(message), i) && |last| <= 32
            && (|last| == 31 <==> |message| % 32 == 31)
            && (|last| == 31 ==> last == message[|message| - 31..])
  {
    hide HexBits;
    SliceLength(message, n, i);
    HexBitsSlice(message, 32 * i, |message|);
    assert message[32 * i..|message|] == SliceFrom(message, (n - 1) * 32);
  }

  lemma SliceLength(message: string, n: int, i: nat)
    requires n == (|message| + 31) / 32 && i == if n == 0 then 0 else n - 1
    ensures 32 * i <= |message| <= 32 * i + 32 && (|message| == 32 * i + 31 <==> |message| % 32 == 31)
    ensures SliceFrom(message, (n - 1) * 32) == message[32 * i..]
  {
    if |message| % 32 == 0 {
      assert |message| == 32 * (|message| / 32);
    }
  }

  lemma OneBlock(len: nat)
    ensures Blocks(4 * len) == if len == 0 then 1 else (len + 31) / 32
  {
    BlockCountIs(len);
  }

  // ---- exclusive or on numbers ----

  lemma {:induction false} XorZero(a: nat)
    ensures Xor(a, 0) == a
  {
    if a > 0 {
      XorZero(a / 2);
    }
  }

  lemma XorStep(a: nat, b: nat)
    ensures Xor(a, b) / 2 == Xor(a / 2, b / 2) && Xor(a, b) % 2 == Bit(a % 2 != b % 2)
  {
  }

  /** A short number does not reach the digits above it. */
  lemma {:induction false} XorBound(a: nat, b: nat, n: nat)
    requires b < Pow2(n)
    ensures Xor(a, b) < Pow2(n) <==> a < Pow2(n)
  {
    if n == 0 {
      XorZero(a);
    } else {
      XorStep(a, b);
      XorBound(a / 2, b / 2, n - 1);
    }
  }

  lemma {:induction false} XorCancel(a: nat, b: nat, c: nat)
    ensures Xor(a, c) == Xor(b, c) <==> a == b
    decreases a + b + c
  {
    if a + b + c > 0 {
      XorStep(a, c);
      XorStep(b, c);
      XorCancel(a / 2, b / 2, c / 2);
    }
  }

  lemma {:induction false} XorSwap(a: nat, b: nat)
    ensures Xor(a, b) == Xor(b, a)
    decreases a + b
  {
    if a + b > 0 {
      XorStep(a, b);
      XorStep(b, a);
      XorSwap(a / 2, b / 2);
    }
  }

  /** The exclusive or with subkey and chaining value keeps lengths up to a block, and tells numbers apart. */
  lemma KeyedNumbers(key: Bits, c: Bits, a: nat, b: nat)
    requires |key| == |c| == BLOCK
    ensures Xor(Xor(Val(key), a), Val(c)) < Pow2(BLOCK) <==> a < Pow2(BLOCK)
    ensures Xor(Xor(Val(key), a), Val(c)) == Xor(Xor(Val(key), b), Val(c)) <==> a == b
  {
    hide Val, Xor, Pow2;
    ValBound(key);
    ValBound(c);
    XorSwap(Val(key), a);
    XorSwap(Val(key), b);
    XorBound(a, Val(key), BLOCK);
    XorBound(Xor(Val(key), a), Val(c), BLOCK);
    XorCancel(a, b, Val(key));
    XorCancel(Xor(Val(key), a), Xor(Val(key), b), Val(c));
  }

  /** The number of the block that the standard has. */
  lemma StandardNumber(key: Bits, last: Bits, c: Bits)
    requires |key| == |c| == BLOCK && |last| <= BLOCK
    ensures Val(XorBits(c, XorBits(key, Padded(last)))) == Xor(Xor(Val(key), Val(Padded(last))), Val(c))
  {
    hide Val, Xor, XorBits, Padded;
    var k := XorBits(key, Padded(last));
    ValXor(key, Padded(last));
    ValXor(c, k);
    XorSwap(Val(c), Val(k));
  }

  /** Two blocks are one if their numbers are, and the digits of a number fill a block if it is short
      enough. */
  lemma DigitsOfNumber(v: nat, x: Bits)
    requires |x| == BLOCK
    ensures |IntToHex(v, 32)| == 32 <==> v < Pow2(BLOCK)
    ensures |IntToHex(v, 32)| == 32 ==> (HexBits(IntToHex(v, 32)) == x <==> v == Val(x))
  {
    hide HexBits, HexVal, IntToHex, Val, Pow2;
    IntToHexLength(v, 32, 32);
    IntToHexVal(v, 32);
    HexBitsVal(IntToHex(v, 32));
    if v == Val(x) && |IntToHex(v, 32)| == 32 {
      SameBits(IntToHex(v, 32), x);
    }
  }

  // ---- the padding of the last block ----

  /** The number of an incomplete block with its padding is the standard's, unless one digit is missing. */
  lemma PaddedNumber(last: string)
    requires IsHex(last) && |last| <= 32 && |last| != 31
    ensures HexVal(PaddedDigits(last)) == Val(Padded(HexBits(last)))
  {
    hide HexBits, HexVal, IntToHex, Pow2, Padded, Val;
    HexBitsVal(PaddedDigits(last));
    if |last| < 32 {
      PaddedHex(last, IntToHex(Pow2((32 - |last|) * 4 - 1), 2));
    } else {
      WholeBlock(HexBits(last));
    }
  }

  /** With one digit missing the tool writes two, 0 and 8, and the standard one. */
  lemma OneDigitMissing(last: string)
    requires IsHex(last) && |last| == 31
    ensures HexVal(PaddedDigits(last)) == 256 * HexVal(last) + 8
    ensures Val(Padded(HexBits(last))) == 16 * HexVal(last) + 8
  {
    hide HexBits, HexVal, Val, IntToHex;
    assert Pow2(3) == 8 && (32 - |last|) * 4 - 1 == 3;
    ZeroEight();
    TwoDigits(last, IntToHex(8, 2));
    var tail := [true] + Zeros(3);
    assert Padded(HexBits(last)) == HexBits(last) + tail;
    ValConcat(HexBits(last), tail);
    HexBitsVal(last);
    EightBits();
    assert Pow2(4) == 16;
  }

  lemma ZeroEight()
    ensures HexVal(IntToHex(8, 2)) == 8 && |IntToHex(8, 2)| == 2
  {
    IntToHexVal(8, 2);
    IntToHexLength(8, 2, 2);
    assert Pow2(8) == 256;
  }

  lemma EightBits()
    ensures Val([true] + Zeros(3)) == 8
  {
    DigitBitsVal(8);
    assert [true] + Zeros(3) == DigitBits(8);
  }

  lemma TwoDigits(s: string, t: string)
    requires IsHex(s) && IsHex(t) && |t| == 2
    ensures HexVal(s + t) == 256 * HexVal(s) + HexVal(t)
  {
    hide HexVal;
    HexSplit(s + t, |s|);
    assert (s + t)[..|s|] == s && (s + t)[|s|..] == t;
    assert Pow2(4 * 2) == 256;
  }

  lemma {:induction false} ZeroNumber(s: string)
    requires IsHex(s)
    ensures HexVal(s) == 0 <==> AllZeros(s)
  {
    if |s| > 0 {
      var n := |s| - 1;
      ZeroNumber(s[..n]);
      assert s == s[..n] + [s[n]];
      assert DigitVal(s[n]) == 0 <==> s[n] == '0';
      assert AllZeros(s) <==> AllZeros(s[..n]) && s[n] == '0';
    }
  }

  /** A leading zero is the same as one digit less. */
  lemma LeadingDigit(s: string)
    requires IsHex(s) && |s| > 0
    ensures HexVal(s) < Pow2(4 * (|s| - 1)) <==> s[0] == '0'
  {
    hide HexVal, Pow2;
    HexSplit(s, 1);
    HexBound(s[1..]);
    OneDigitVal(s[..1]);
    var p := Pow2(4 * (|s| - 1));
    if DigitVal(s[0]) > 0 {
      Scale(1, DigitVal(s[0]), p);
    }
  }

  lemma OneDigitVal(s: string)
    requires IsHex(s) && |s| == 1
    ensures HexVal(s) == DigitVal(s[0]) && (DigitVal(s[0]) == 0 <==> s[0] == '0')
  {
    assert s[..0] == "";
  }

  /** What the tool unpacks for the cipher is the standard's block unless the last block lacks one digit
      and is not all zeros; it cannot be unpacked if that block does not begin with a zero. */
  lemma KeyedDigitsAre(key: Bits, last: string, c: Bits)
    requires |key| == |c| == BLOCK && IsHex(last) && |last| <= 32
    ensures var r := KeyedDigits(Val(key), last, Val(c));
            && (|r| == 32 <==> |last| == 31 ==> last[0] == '0')
            && (|r| == 32 && HexBits(r) == XorBits(c, XorBits(key, Padded(HexBits(last))))
                <==> (|last| == 31 ==> AllZeros(last)))
  {
    hide HexBits, HexVal, Val, IntToHex, Xor, XorBits, Padded, Pow2, PaddedDigits;
    var tool, standard := HexVal(PaddedDigits(last)), Val(Padded(HexBits(last)));
    StandardNumber(key, HexBits(last), c);
    KeyedNumbers(key, c, tool, standard);
    DigitsOfNumber(Xor(Xor(Val(key), tool), Val(c)), XorBits(c, XorBits(key, Padded(HexBits(last)))));
    ValBound(Padded(HexBits(last)));
    if |last| == 31 {
      OneDigitMissing(last);
      ZeroNumber(last);
      LeadingDigit(last);
      RoomForTwo(HexVal(last));
    } else {
      PaddedNumber(last);
    }
  }

  lemma RoomForTwo(v: nat)
    ensures 256 * v + 8 < Pow2(BLOCK) <==> v < Pow2(120)
  {
    hide Pow2;
    PowSum(8, 120);
    EightPow();
  }

  lemma EightPow()
    ensures Pow2(8) == 256
  {
    assert Pow2(4) == 16;
  }

  lemma {:induction false} PowSum(a: nat, b: nat)
    ensures Pow2(a + b) == Pow2(a) * Pow2(b)
  {
    if a > 0 {
      PowSum(a - 1, b);
    }
  }

  /** For every message of hexadecimal digits, the block that is given to the cipher last is that of the
      standard exactly when the message does not lack one digit to whole blocks, or its last 31 digits are
      zeros; and there is no such block exactly when the first of them is not a zero. */
  lemma ToolBlockIs(ciph: Cipher, message: string)
    requires IsHex(message)
    ensures |ToolBlock(ciph, message)| == 32 <==> !Refused(message)
    ensures |ToolBlock(ciph, message)| == 32 && HexBits(ToolBlock(ciph, message)) == FinalInput(ciph, HexBits(message))
       <==> Standard(message)
  {
    hide *;
    LastDigitsAre(message);
    var last, i := LastDigits(message), Blocks(4 * |message|) - 1;
    var c := Chain(ciph, HexBits(message), i);
    KeyedDigitsAre(SubkeyFor(ciph, |last|), last, c);
    LastDigitsTell(message);
    BothBlocks(ciph, message);
  }

  /** The two last blocks from the same parts. */
  lemma BothBlocks(ciph: Cipher, message: string)
    requires IsHex(message) && IsHex(LastDigits(message)) && |LastDigits(message)| <= 32
    requires 32 * (Blocks(4 * |message|) - 1) <= |message|
    requires HexBits(LastDigits(message)) == Rest(HexBits(message), Blocks(4 * |message|) - 1)
    ensures var last, c := LastDigits(message), Chain(ciph, HexBits(message), Blocks(4 * |message|) - 1);
            && ToolBlock(ciph, message) == KeyedDigits(Val(SubkeyFor(ciph, |last|)), last, Val(c))
            && FinalInput(ciph, HexBits(message)) == XorBits(c, XorBits(SubkeyFor(ciph, |last|), Padded(HexBits(last))))
  {
    hide HexBits, IsHex, Val, XorBits, KeyedDigits, Padded, Chain, Subkey1, Subkey2, Blocks, LastDigits, Rest;
  }

  lemma LastDigitsTell(message: string)
    requires IsHex(message)
    ensures var last := LastDigits(message);
            && (Refused(message) <==> |last| == 31 && last[0] != '0')
            && (Standard(message) <==> (|last| == 31 ==> AllZeros(last)))
  {
    hide LastDigits, HexBits, Rest, Blocks, IsHex;
    LastDigitsAre(message);
    var last := LastDigits(message);
    if |last| == 31 {
      assert forall i :: 0 <= i < 31 ==> last[i] == message[|message| - 31 + i];
      assert forall i :: |message| - 31 <= i < |message| ==> message[i] == last[i - (|message| - 31)];
    }
  }

  /** Different blocks have different ciphertexts. */
  ghost predicate OneToOne(ciph: Cipher) {
    forall x, y :: |x| == |y| == BLOCK && ciph(x) == ciph(y) ==> x == y
  }

  /** Thirty zeros and a one: the tool enciphers another block than the standard. */
  lemma OneDigitMissingFails(ciph: Cipher)
    ensures var message := seq(30, _ => '0') + "1";
            && IsHex(message) && !Standard(message) && !Refused(message) && |ToolBlock(ciph, message)| == 32
            && HexBits(ToolBlock(ciph, message)) != FinalInput(ciph, HexBits(message))
  {
    var message := seq(30, _ => '0') + "1";
    ThirtyOne(seq(30, _ => '0'), "1");
    hide *;
    ToolBlockIs(ciph, message);
  }

  lemma ThirtyOne(a: string, b: string)
    requires |a| + |b| == 31 && (forall i :: 0 <= i < |a| ==> a[i] == '0') && |b| == 1 && b[0] == '1'
    ensures IsHex(a + b) && IsHex(b + a)
    ensures !Standard(a + b) && !Refused(a + b) && Refused(b + a)
  {
    assert (a + b)[30] == '1' && (a + b)[0] == '0' && (b + a)[0] == '1';
    assert |a + b| - 31 <= 30 < |a + b|;
  }

  /** A one and thirty zeros: there is no block that the tool could encipher. */
  lemma OneDigitMissingIsRefused(ciph: Cipher)
    ensures var message := "1" + seq(30, _ => '0'); IsHex(message) && |ToolBlock(ciph, message)| != 32
  {
    var message := "1" + seq(30, _ => '0');
    ThirtyOne(seq(30, _ => '0'), "1");
    hide *;
    ToolBlockIs(ciph, message);
  }

  /** The CMAC object of the tool, for one key: hexadecimal strings throughout. */
  class AesPrf {
    const ciph: Cipher
    var k1: string
    var k2: string

    constructor (ciph: Cipher)
      ensures this.ciph == ciph && k1 == "" && k2 == ""
    {
      this.ciph, k1, k2 := ciph, "", "";
    }

    /** One block through the cipher, unpacked and packed again. */
    method Encrypt(block: string) returns (r: string)
      requires IsHex(block) && |block| == 32
      ensures IsHex(r) && |r| == 32 && HexBits(r) == ciph(HexBits(block))
    {
      var x := ciph(HexBits(block));
      r := LowerHex(x);
      LowerHexBits(x);
    }

    /** The subkeys are those of the standard; the second one may be stored with fewer than 32 digits. */
    method GenSubkeys()
      modifies this
      ensures IsHex(k1) && |k1| == 32 && HexBits(k1) == Subkey1(ciph)
      ensures IsHex(k2) && HexVal(k2) == Val(Subkey2(ciph))
    {
      hide HexBits, HexVal, IntToHex, Val;
      var zero := seq(32, _ => '0');
      ZeroBlock(zero);
      var l := Encrypt(zero);
      var t := IntToHex(2 * HexVal(l), 32);
      if |t| > 0x20 {
        t := t[1..];
      }
      DoubleHex(l, 32, t);
      if HexVal(l[0..2]) / 128 % 2 == 0 {
        k1 := t;
      } else {
        k1 := IntToHex(Xor(HexVal(t), HexVal(R128_HEX)), 32);
      }
      SameBits(k1, Doubled(HexBits(l)));
      t := IntToHex(2 * HexVal(k1), 2);
      if |t| > 0x20 {
        t := t[1..];
      }
      DoubleHex(k1, 2, t);
      if HexVal(k1[0..2]) / 128 % 2 == 0 {
        k2 := t;
      } else {
        k2 := IntToHex(Xor(HexVal(t), HexVal(R128_HEX)), 32);
      }
    }

    /** The MAC of a message of hexadecimal digits, whole bytes or not. It is that of the standard for every
        `Standard` message, and for a one-to-one cipher for no other. `unhexlify` refuses an odd number of
        digits, which is what the last block has for a `Refused` message. */
    method CmacGeneration(message: string) returns (mac: Option<string>)
      requires IsHex(message)
      modifies this
      ensures mac.None? <==> Refused(message)
      ensures mac.Some? ==> IsHex(mac.value) && |mac.value| == 32
      ensures mac.Some? ==> HexBits(mac.value) == ciph(HexBits(ToolBlock(ciph, message)))
      ensures Standard(message) ==> mac.Some? && HexBits(mac.value) == Mac(ciph, HexBits(message))
      ensures OneToOne(ciph) ==>
                (mac.Some? && HexBits(mac.value) == Mac(ciph, HexBits(message)) <==> Standard(message))
    {
      hide *;
      GenSubkeys();
      var n := BlockCount(|message|);
      BlockCountIs(|message|);
      var c, i := Chained(message, n);
      OneBlock(|message|);
      var last := SliceFrom(message, (n - 1) * 32);
      LastDigitsAre(message);
      LastDigitsIs(message, n);
      var block := Keyed(last, c);
      ToolBlockFrom(ciph, message, last, c, block);
      ToolBlockIs(ciph, message);
      MacOfBlock(ciph, message);
      if |block| != 32 {
        return None;
      }
      var r := Encrypt(block);
      return Some(r);
    }

    /** The block loop: all blocks but the last. */
    method Chained(message: string, n: int) returns (c: string, i: nat)
      requires IsHex(message) && n <= (|message| + 31) / 32
      ensures i == if n <= 0 then 0 else n - 1
      ensures IsHex(c) && |c| == 32 && 32 * i <= |message|
      ensures HexBits(c) == Chain(ciph, HexBits(message), i)
    {
      hide *;
      c := seq(32, _ => '0');
      ZeroBlock(c);
      EmptyChain(ciph, HexBits(message));
      i := 0;
      while i < n - 1
        invariant 0 <= i && (i == 0 || i <= n - 1)
        invariant IsHex(c) && |c| == 32 && 32 * i <= |message|
        invariant HexBits(c) == Chain(ciph, HexBits(message), i)
      {
        var block := HexBlock(message, i);
        HexBlockBits(message, i);
        ChainStep(ciph, HexBits(message), i);
        var mixed := Mixed(block, c);
        c := Encrypt(mixed);
        i := i + 1;
      }
    }

    /** Exclusive or of two blocks as numbers, back to 32 digits. */
    method Mixed(a: string, b: string) returns (r: string)
      requires IsHex(a) && |a| == 32 && IsHex(b) && |b| == 32
      ensures IsHex(r) && |r| == 32 && HexBits(r) == XorBits(HexBits(b), HexBits(a))
    {
      hide HexBits, HexVal, IntToHex, Val, XorBits;
      r := IntToHex(Xor(HexVal(a), HexVal(b)), 32);
      HexBitsVal(a);
      HexBitsVal(b);
      ValXor(HexBits(a), HexBits(b));
      NumberBits(XorBits(HexBits(a), HexBits(b)), 32);
      XorCommutes(HexBits(a), HexBits(b));
    }

    /** The last block, padded if need be, with its subkey and the chaining value, as one number. */
    method Keyed(last: string, c: string) returns (r: string)
      requires IsHex(last) && |last| <= 32 && IsHex(c)
      requires IsHex(k1) && |k1| == 32 && HexBits(k1) == Subkey1(ciph)
      requires IsHex(k2) && HexVal(k2) == Val(Subkey2(ciph))
      ensures r == KeyedDigits(Val(SubkeyFor(ciph, |last|)), last, HexVal(c))
    {
      hide HexBits, HexVal, IntToHex, Val, Xor, Subkey1, Subkey2, Pow2;
      HexBitsVal(k1);
      var ki, padded := k1, last;
      if |last| < 32 {
        ki := k2;
        padded := last + IntToHex(Pow2((32 - |last|) * 4 - 1), 2);
      }
      assert padded == PaddedDigits(last);
      r := IntToHex(Xor(Xor(HexVal(ki), HexVal(padded)), HexVal(c)), 32);
    }
  }

  lemma ToolBlockFrom(ciph: Cipher, message: string, last: string, c: string, block: string)
    requires IsHex(message) && IsHex(c) && IsHex(last) && last == LastDigits(message) && |last| <= 32
    requires 32 * (Blocks(4 * |message|) - 1) <= |message|
    requires HexBits(c) == Chain(ciph, HexBits(message), Blocks(4 * |message|) - 1)
    requires block == KeyedDigits(Val(SubkeyFor(ciph, |last|)), last, HexVal(c))
    ensures block == ToolBlock(ciph, message)
  {
    hide HexBits, HexVal, Val, KeyedDigits, SubkeyFor, LastDigits, Chain, Blocks;
    HexBitsVal(c);
  }

  lemma MacOfBlock(ciph: Cipher, message: string)
    requires IsHex(message)
    ensures Mac(ciph, HexBits(message)) == ciph(FinalInput(ciph, HexBits(message)))
    ensures OneToOne(ciph) && |ToolBlock(ciph, message)| == 32
              && ciph(HexBits(ToolBlock(ciph, message))) == Mac(ciph, HexBits(message)) ==>
            HexBits(ToolBlock(ciph, message)) == FinalInput(ciph, HexBits(message))
  {
    hide HexBits, ToolBlock, FinalInput;
  }

  lemma WholeBlock(last: Bits)
    requires |last| == BLOCK
    ensures Padded(last) == last
  {
  }

  lemma PaddedHex(last: string, padding: string)
    requires IsHex(last) && |last| < 31 && padding == IntToHex(Pow2((32 - |last|) * 4 - 1), 2)
    ensures IsHex(last + padding) && |last + padding| == 32 && HexBits(last + padding) == Padded(HexBits(last))
  {
    hide HexBits, IntToHex, Zeros, Pow2;
    PaddingBits(32 - |last|);
    HexBitsConcat(last, padding);
    assert 4 * (32 - |last|) - 1 == BLOCK - 4 * |last| - 1;
  }

  lemma EmptyChain(ciph: Cipher, m: Bits)
    ensures Chain(ciph, m, 0) == Zeros(BLOCK)
  {
  }

  lemma ZeroBlock(zero: string)
    requires zero == seq(32, _ => '0')
    ensures IsHex(zero) && |zero| == 32 && HexBits(zero) == Zeros(BLOCK)
  {
    hide HexBits;
    LeadingZeros(32, "");
    assert zero + "" == zero;
    ValZeros(BLOCK);
    SameBits(zero, Zeros(BLOCK));
  }

  /** What the two branches of the subkey generation compute. */
  lemma DoubleHex(h: string, width: nat, t: string)
    requires IsHex(h) && |h| == 32 && width <= 32
    requires var t0 := IntToHex(2 * HexVal(h), width); t == if |t0| > 32 then t0[1..] else t0
    ensures IsHex(t) && IsHex(R128_HEX)
    ensures var top := HexVal(h[0..2]) / 128 % 2;
            && (top == 0 ==> HexVal(t) == Val(Doubled(HexBits(h))) && (width == 32 ==> |t| == 32))
            && (top != 0 ==> var k := IntToHex(Xor(HexVal(t), HexVal(R128_HEX)), 32);
                             |k| == 32 && HexVal(k) == Val(Doubled(HexBits(h))))
  {
    hide HexBits, HexVal, IntToHex, Val, XorBits;
    var x := HexBits(h);
    var t' := ShiftHex(h, width);
    TopBit(h);
    R128Is();
    if x[0] {
      ValXor(x[1..] + [false], R128);
      NumberBits(XorBits(x[1..] + [false], R128), 32);
      IntToHexVal(Xor(HexVal(t), HexVal(R128_HEX)), 32);
    }
  }

  /** The padding is a one and zeros, in as many digits as are missing. */
  lemma PaddingBits(k: nat)
    requires 2 <= k <= 32
    ensures var p := IntToHex(Pow2(k * 4 - 1), 2);
            |p| == k && HexBits(p) == [true] + Zeros(4 * k - 1)
  {
    hide HexBits, HexVal, IntToHex, Val, Pow2, Zeros;
    var v, x := Pow2(k * 4 - 1), [true] + Zeros(4 * k - 1);
    HeadVal(x);
    assert x[1..] == Zeros(4 * k - 1);
    DoublePow(4 * k - 1);
    PowAbove(0, 4 * k - 1);
    ValZeros(4 * k - 1);
    IntToHexVal(v, 2);
    IntToHexLength(v, 2, k);
    if k > 2 {
      IntToHexLength(v, 2, k - 1);
      PowAbove(4 * (k - 1), 4 * k - 1);
    }
    SameBits(IntToHex(v, 2), x);
  }

  lemma {:induction false} PowAbove(a: nat, b: nat)
    requires a <= b
    ensures Pow2(a) <= Pow2(b)
    decreases b - a
  {
    if a < b {
      PowAbove(a, b - 1);
    }
  }

  lemma ChainStep(ciph: Cipher, m: Bits, i: nat)
    requires BLOCK * (i + 1) <= |m|
    ensures Chain(ciph, m, i + 1) == ciph(XorBits(Chain(ciph, m, i), BlockAt(m, i)))
  {
  }

  // ---- key derivation ----

  /** Blocks of a feedback-mode derivation: each is the MAC of the one before it and the fixed input. */
  function Feedback(ciph: Cipher, iv: Bits, fixedInput: Bits, n: nat): (k: Bits)
    ensures n > 0 ==> |k| == BLOCK
  {
    if n == 0 then iv else Mac(ciph, Feedback(ciph, iv, fixedInput, n - 1) + fixedInput)
  }

  function Derived(ciph: Cipher, iv: Bits, fixedInput: Bits, n: nat): (r: Bits)
    ensures |r| == BLOCK * n
  {
    if n == 0 then [] else Derived(ciph, iv, fixedInput, n - 1) + Feedback(ciph, iv, fixedInput, n)
  }

  /** The first message starts with the initial value, the others with a MAC, which is a whole block. */
  predicate DerivationRefused(iv: string, fixedInput: string, loops: nat) {
    (loops > 0 && Refused(iv + fixedInput)) || (loops > 1 && Refused(fixedInput))
  }

  predicate DerivationStandard(iv: string, fixedInput: string, loops: nat) {
    (loops > 0 ==> Standard(iv + fixedInput)) && (loops > 1 ==> Standard(fixedInput))
  }

  /** The tool's key derivation. Its fixed input need not be whole bytes: a label may be cut after an odd
      number of digits. */
  class KeyDerivation {
    const prf: AesPrf
    const labelHex: string
    const padding: string
    const context: string
    const length: string
    const iv: string
    const loops: nat
    var ki: string
    var dataOut: string

    constructor (prf: AesPrf, labelHex: string, padding: string, context: string, length: string, iv: string,
        loops: nat)
      ensures this.prf == prf && this.labelHex == labelHex && this.padding == padding && this.context == context
      ensures this.length == length && this.iv == iv && this.loops == loops
    {
      this.prf, this.labelHex, this.padding, this.context := prf, labelHex, padding, context;
      this.length, this.iv, this.loops, ki, dataOut := length, iv, loops, "", "";
    }

    function FixedInput(): string {
      labelHex + padding + context + length
    }

    lemma DataInIs(dataIn: string)
      requires dataIn == ki + labelHex + padding + context + length
      ensures dataIn == ki + FixedInput()
    {
    }

    /** Fails exactly when one of its messages is refused. The output is that of the standard's MAC when all
        messages are `Standard`, and for a one-to-one cipher only then. */
    method ComputeDerivations() returns (r: Option<string>)
      requires IsHex(iv) && IsHex(FixedInput())
      modifies this, prf
      ensures r.None? <==> DerivationRefused(iv, FixedInput(), loops)
      ensures r.Some? ==> r.value == dataOut && IsHex(r.value) && |r.value| == 32 * loops
      ensures DerivationStandard(iv, FixedInput(), loops) ==>
                r.Some? && HexBits(r.value) == Derived(prf.ciph, HexBits(iv), HexBits(FixedInput()), loops)
      ensures OneToOne(prf.ciph) ==>
                (r.Some? && HexBits(r.value) == Derived(prf.ciph, HexBits(iv), HexBits(FixedInput()), loops)
                 <==> DerivationStandard(iv, FixedInput(), loops))
    {
      hide *;
      dataOut := "";
      ki := iv;
      ghost var ciph, f := prf.ciph, FixedInput();
      NothingDerived(ciph, iv, f);
      var i := 0;
      while i < loops
        invariant 0 <= i <= loops && IsHex(ki) && IsHex(dataOut) && |dataOut| == 32 * i
        invariant if i == 0 then ki == iv else |ki| == 32
        invariant !DerivationRefused(iv, f, i)
        invariant DerivationStandard(iv, f, i) ==> SameSoFar(ciph, iv, f, i, ki, dataOut)
        invariant OneToOne(ciph) && !DerivationStandard(iv, f, i) ==>
                    HexBits(dataOut) != Derived(ciph, HexBits(iv), HexBits(f), i)
      {
        ghost var was, out := ki, dataOut;
        IsHexConcat(ki, f);
        NextMessage(iv, f, ki, i);
        var dataIn := ki + labelHex + padding + context + length;
        DataInIs(dataIn);
        var mac := prf.CmacGeneration(dataIn);
        if mac == None {
          MoreIsRefused(iv, f, i + 1, loops);
          return None;
        }
        ki := mac.value;
        IsHexConcat(dataOut, ki);
        dataOut := dataOut + ki;
        DerivedSoFar(ciph, iv, f, i, was, out, ki);
        i := i + 1;
      }
      SameAtEnd(ciph, iv, f, loops, ki, dataOut);
      r := Some(dataOut);
    }
  }

  /** The derivation so far is that of the standard's MAC. */
  predicate SameSoFar(ciph: Cipher, iv: string, f: string, n: nat, ki: string, dataOut: string) {
    && IsHex(iv) && IsHex(f) && IsHex(ki) && IsHex(dataOut)
    && HexBits(ki) == Feedback(ciph, HexBits(iv), HexBits(f), n)
    && HexBits(dataOut) == Derived(ciph, HexBits(iv), HexBits(f), n)
  }

  lemma IsHexConcat(s: string, t: string)
    requires IsHex(s) && IsHex(t)
    ensures IsHex(s + t)
  {
  }

  /** A whole block in front changes nothing about a message's end. */
  lemma BlockInFront(k: string, f: string)
    requires |k| == 32
    ensures Refused(k + f) == Refused(f) && Standard(k + f) == Standard(f)
  {
    var m := k + f;
    assert |m| % 32 == |f| % 32;
    if |f| % 32 == 31 {
      assert m[|m| - 31] == f[|f| - 31];
      assert forall i :: |m| - 31 <= i < |m| ==> m[i] == f[i - 32];
      assert forall i :: |f| - 31 <= i < |f| ==> f[i] == m[i + 32];
    }
  }

  lemma NextMessage(iv: string, f: string, ki: string, i: nat)
    requires if i == 0 then ki == iv else |ki| == 32
    ensures DerivationRefused(iv, f, i + 1) <==> DerivationRefused(iv, f, i) || Refused(ki + f)
    ensures DerivationStandard(iv, f, i + 1) <==> DerivationStandard(iv, f, i) && Standard(ki + f)
  {
    hide Refused, Standard;
    if i > 0 {
      BlockInFront(ki, f);
    }
  }

  lemma MoreIsRefused(iv: string, f: string, i: nat, n: nat)
    requires i <= n && DerivationRefused(iv, f, i)
    ensures DerivationRefused(iv, f, n) && !DerivationStandard(iv, f, n)
  {
    hide Refused, Standard;
    RefusedIsNotStandard(iv + f);
    RefusedIsNotStandard(f);
  }

  lemma RefusedIsNotStandard(m: string)
    ensures Refused(m) ==> !Standard(m)
  {
  }

  lemma NothingDerived(ciph: Cipher, iv: string, f: string)
    requires IsHex(iv) && IsHex(f)
    ensures IsHex("") && SameSoFar(ciph, iv, f, 0, iv, "")
    ensures DerivationStandard(iv, f, 0) && !DerivationRefused(iv, f, 0)
  {
  }

  /** One more block of the derivation. */
  lemma DerivedSoFar(ciph: Cipher, iv: string, f: string, i: nat, was: string, out: string, ki: string)
    requires IsHex(iv) && IsHex(f) && IsHex(was) && IsHex(out) && |out| == 32 * i && IsHex(ki) && |ki| == 32
    requires if i == 0 then was == iv else |was| == 32
    requires IsHex(was + f) && IsHex(out + ki)
    requires DerivationStandard(iv, f, i) ==> SameSoFar(ciph, iv, f, i, was, out)
    requires OneToOne(ciph) && !DerivationStandard(iv, f, i) ==>
               HexBits(out) != Derived(ciph, HexBits(iv), HexBits(f), i)
    requires Standard(was + f) ==> HexBits(ki) == Mac(ciph, HexBits(was + f))
    requires OneToOne(ciph) ==> (HexBits(ki) == Mac(ciph, HexBits(was + f)) <==> Standard(was + f))
    ensures DerivationStandard(iv, f, i + 1) ==> SameSoFar(ciph, iv, f, i + 1, ki, out + ki)
    ensures OneToOne(ciph) && !DerivationStandard(iv, f, i + 1) ==>
              HexBits(out + ki) != Derived(ciph, HexBits(iv), HexBits(f), i + 1)
  {
    hide HexBits, Mac, IsHex, Standard, DerivationStandard, OneToOne;
    NextMessage(iv, f, was, i);
    HexBitsConcat(was, f);
    HexBitsConcat(out, ki);
    var d, b := Derived(ciph, HexBits(iv), HexBits(f), i), Feedback(ciph, HexBits(iv), HexBits(f), i + 1);
    assert Derived(ciph, HexBits(iv), HexBits(f), i + 1) == d + b;
    SplitEqual(HexBits(out), HexBits(ki), d, b);
  }

  lemma SplitEqual(a: Bits, b: Bits, c: Bits, d: Bits)
    requires |a| == |c|
    ensures a + b == c + d <==> a == c && b == d
  {
    if a + b == c + d {
      assert a == (a + b)[..|a|] && b == (a + b)[|a|..];
      assert c == (c + d)[..|a|] && d == (c + d)[|a|..];
    }
  }

  lemma SameAtEnd(ciph: Cipher, iv: string, f: string, n: nat, ki: string, dataOut: string)
    requires IsHex(iv) && IsHex(f) && IsHex(dataOut)
    requires DerivationStandard(iv, f, n) ==> SameSoFar(ciph, iv, f, n, ki, dataOut)
    ensures DerivationStandard(iv, f, n) ==> HexBits(dataOut) == Derived(ciph, HexBits(iv), HexBits(f), n)
  {
  }
}
