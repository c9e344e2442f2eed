/** The secure-boot image: the entropy slot, and how the predicted on-device image relates to what the
    signing tool writes and the device keeps. */
module BootImage {
  import opened Arith
  import opened Cmac

  type Byte = b: int | 0 <= b < 256

  datatype Result<T> = Ok(value: T) | Failed

  const SLOT := 32

  /** The bytes of `extra_entropy_replaced_by_xtask_`. */
  const EXTRA_ENTROPY_MARKER: seq<Byte> :=
    [0x65, 0x78, 0x74, 0x72, 0x61, 0x5f, 0x65, 0x6e, 0x74, 0x72, 0x6f, 0x70, 0x79, 0x5f, 0x72, 0x65,
     0x70, 0x6c, 0x61, 0x63, 0x65, 0x64, 0x5f, 0x62, 0x79, 0x5f, 0x78, 0x74, 0x61, 0x73, 0x6b, 0x5f]

  const DEFAULT_EXTRA_ENTROPY: seq<Byte> :=
    [0x00, 0x00, 0x00, 0x00, 0x00, 0x19, 0xd6, 0x68, 0x9c, 0x08, 0x5a, 0xe1, 0x65, 0x83, 0x1e, 0x93,
     0x4f, 0xf7, 0x63, 0xae, 0x46, 0xa2, 0xa6, 0xc1, 0x72, 0xb3, 0xf1, 0xb6, 0x0a, 0x8c, 0xe2, 0x6f]

  const SIZE_VECTOR := 20
  const AES_BLOCK := 16
  const CMAC_SIZE := 16
  const SRAM_SIZE := 0x1_0000
  const RAW_MAX_SIZE := SRAM_SIZE - CMAC_SIZE
  const TOOL_LIMIT := 0x2_0000

  // ---- the entropy slot ----

  predicate MarkerAt(s: seq<Byte>, i: int) {
    0 <= i && i + SLOT <= |s| && s[i..i + SLOT] == EXTRA_ENTROPY_MARKER
  }

  /** The image with other bytes in a slot. */
  function WithSlot(s: seq<Byte>, at: nat, slot: seq<Byte>): (r: seq<Byte>)
    requires at + |slot| <= |s|
    ensures |r| == |s|
  {
    s[..at] + slot + s[at + |slot|..]
  }

  lemma SlotByte(s: seq<Byte>, at: nat, slot: seq<Byte>, i: nat)
    requires at + |slot| <= |s| && i < |s|
    ensures WithSlot(s, at, slot)[i] == if at <= i < at + |slot| then slot[i - at] else s[i]
  {
  }

  ghost predicate OnlyMarker(s: seq<Byte>, at: int) {
    MarkerAt(s, at) && forall i :: MarkerAt(s, i) ==> i == at
  }

  /** All positions of the marker, in order. */
  method FindMarkers(bytes: array<Byte>) returns (positions: seq<nat>)
    ensures forall i :: i in positions <==> MarkerAt(bytes[..], i)
    ensures forall j, k :: 0 <= j < k < |positions| ==> positions[j] < positions[k]
  {
    ghost var s := bytes[..];
    positions := [];
    var i := 0;
    while i + SLOT <= bytes.Length
      invariant 0 <= i
      invariant forall k :: 0 <= k < |positions| ==> positions[k] < i && MarkerAt(s, positions[k])
      invariant forall p :: 0 <= p < i && MarkerAt(s, p) ==> p in positions
      invariant forall j, k :: 0 <= j < k < |positions| ==> positions[j] < positions[k]
    {
      assert s[i..i + SLOT] == bytes[i..i + SLOT];
      if bytes[i..i + SLOT] == EXTRA_ENTROPY_MARKER {
        positions := positions + [i];
      }
      i := i + 1;
    }
  }

  method CopyInto(bytes: array<Byte>, at: nat, slot: seq<Byte>)
    requires at + |slot| <= bytes.Length
    modifies bytes
    ensures bytes[..] == WithSlot(old(bytes[..]), at, slot)
  {
    var k := 0;
    while k < |slot|
      invariant 0 <= k <= |slot|
      invariant forall i :: 0 <= i < bytes.Length ==>
                  bytes[i] == if at <= i < at + k then slot[i - at] else old(bytes[i])
    {
      bytes[at + k] := slot[k];
      k := k + 1;
    }
  }

  lemma OneMarker(s: seq<Byte>, positions: seq<nat>)
    requires forall i :: i in positions <==> MarkerAt(s, i)
    requires forall j, k :: 0 <= j < k < |positions| ==> positions[j] < positions[k]
    ensures |positions| == 1 <==> exists at :: OnlyMarker(s, at)
    ensures |positions| == 1 ==> OnlyMarker(s, positions[0])
  {
    if |positions| == 1 {
      assert OnlyMarker(s, positions[0]);
    } else if |positions| > 1 {
      assert positions[0] in positions && positions[1] in positions;
    } else {
      assert forall i :: i !in positions;
    }
  }

  /** Replace the one marker with the entropy; it panics unless there is exactly one marker and the
      entropy has its length. */
  method SetExtraEntropy(bytes: array<Byte>, entropy: seq<Byte>) returns (r: Result<nat>)
    modifies bytes
    ensures r.Ok? <==> (exists at :: OnlyMarker(old(bytes[..]), at)) && |entropy| == SLOT
    ensures r.Ok? ==> OnlyMarker(old(bytes[..]), r.value) && bytes[..] == WithSlot(old(bytes[..]), r.value, entropy)
    ensures r.Failed? ==> bytes[..] == old(bytes[..])
  {
    var positions := FindMarkers(bytes);
    OneMarker(bytes[..], positions);
    if |positions| != 1 || |entropy| != SLOT {
      return Failed;
    }
    CopyInto(bytes, positions[0], entropy);
    return Ok(positions[0]);
  }

  /** Put the public entropy into the slot of a historical image. No marker is left anywhere. */
  method NormalizeHistorical(bytes: array<Byte>) returns (r: Result<nat>)
    modifies bytes
    ensures r.Ok? <==> exists at :: OnlyMarker(old(bytes[..]), at)
    ensures r.Ok? ==>
              OnlyMarker(old(bytes[..]), r.value)
              && bytes[..] == WithSlot(old(bytes[..]), r.value, DEFAULT_EXTRA_ENTROPY)
    ensures r.Ok? ==> forall i :: !MarkerAt(bytes[..], i)
    ensures r.Failed? ==> bytes[..] == old(bytes[..])
  {
    var positions := FindMarkers(bytes);
    OneMarker(bytes[..], positions);
    if |positions| != 1 {
      return Failed;
    }
    CopyInto(bytes, positions[0], DEFAULT_EXTRA_ENTROPY);
    NormalizedHasNoMarker(old(bytes[..]), positions[0]);
    return Ok(positions[0]);
  }

  /** The public entropy cannot be part of a new marker: not the start of its end, because it begins
      with a zero, and not the end of its start, because its only `e` is not followed by an `x`. */
  lemma NormalizedHasNoMarker(s: seq<Byte>, at: int)
    requires OnlyMarker(s, at)
    ensures forall i :: !MarkerAt(WithSlot(s, at, DEFAULT_EXTRA_ENTROPY), i)
  {
    forall i
      ensures !MarkerAt(WithSlot(s, at, DEFAULT_EXTRA_ENTROPY), i)
    {
      NoMarkerAt(s, at, i);
    }
  }

  lemma NoMarkerAt(s: seq<Byte>, at: int, i: int)
    requires OnlyMarker(s, at)
    ensures !MarkerAt(WithSlot(s, at, DEFAULT_EXTRA_ENTROPY), i)
  {
    hide WithSlot;
    EntropyLength();
    if 0 <= i && i + SLOT <= |s| {
      var w := WithSlot(s, at, DEFAULT_EXTRA_ENTROPY)[i..i + SLOT];
      if i + SLOT <= at || at + SLOT <= i {
        WindowOutside(s, at, DEFAULT_EXTRA_ENTROPY, i);
        assert !MarkerAt(s, i);
      } else if i <= at {
        WindowByte(s, at, DEFAULT_EXTRA_ENTROPY, i, at - i);
        ZeroInWindow(w, at - i);
      } else {
        WindowByte(s, at, DEFAULT_EXTRA_ENTROPY, i, 0);
        if i + 1 < at + SLOT {
          WindowByte(s, at, DEFAULT_EXTRA_ENTROPY, i, 1);
        }
        StartInEntropy(w, i - at);
      }
    }
  }

  lemma EntropyLength()
    ensures |DEFAULT_EXTRA_ENTROPY| == SLOT && |EXTRA_ENTROPY_MARKER| == SLOT
  {
  }

  /** What a window onto the image shows of the slot. */
  lemma WindowByte(s: seq<Byte>, at: nat, slot: seq<Byte>, i: nat, k: nat)
    requires at + |slot| <= |s| && |slot| == SLOT && i + SLOT <= |s| && k < SLOT && at <= i + k < at + SLOT
    ensures WithSlot(s, at, slot)[i..i + SLOT][k] == slot[i + k - at]
  {
    SlotByte(s, at, slot, i + k);
  }

  lemma WindowOutside(s: seq<Byte>, at: nat, slot: seq<Byte>, i: nat)
    requires at + |slot| <= |s| && |slot| == SLOT && i + SLOT <= |s| && (i + SLOT <= at || at + SLOT <= i)
    ensures WithSlot(s, at, slot)[i..i + SLOT] == s[i..i + SLOT]
  {
    forall j | i <= j < i + SLOT
      ensures WithSlot(s, at, slot)[j] == s[j]
    {
      SlotByte(s, at, slot, j);
    }
  }

  lemma ZeroInWindow(w: seq<Byte>, k: nat)
    requires |w| == SLOT && k < SLOT && w[k] == DEFAULT_EXTRA_ENTROPY[0]
    ensures w != EXTRA_ENTROPY_MARKER
  {
    NoZeroInMarker(k);
  }

  lemma StartInEntropy(w: seq<Byte>, d: nat)
    requires |w| == SLOT && 0 < d < SLOT && w[0] == DEFAULT_EXTRA_ENTROPY[d]
               && (d + 1 < SLOT ==> w[1] == DEFAULT_EXTRA_ENTROPY[d + 1])
    ensures w != EXTRA_ENTROPY_MARKER
  {
    NoStartInEntropy(d);
  }

  lemma NoZeroInMarker(k: nat)
    requires k < SLOT
    ensures EXTRA_ENTROPY_MARKER[k] != DEFAULT_EXTRA_ENTROPY[0]
  {
  }

  lemma NoStartInEntropy(d: nat)
    requires 0 < d < SLOT
    ensures DEFAULT_EXTRA_ENTROPY[d] != EXTRA_ENTROPY_MARKER[0]
            || (d + 1 < SLOT && DEFAULT_EXTRA_ENTROPY[d + 1] != EXTRA_ENTROPY_MARKER[1])
  {
  }

  // ---- the on-device image ----

  /** Padded to an AES block, plus a CMAC. */
  function SecureBootSize(rawSize: nat): nat {
    (rawSize + AES_BLOCK - 1) / AES_BLOCK * AES_BLOCK + CMAC_SIZE
  }

  /** An image fits exactly up to the limit that the build passes on. */
  lemma FitsUpToRawMax(rawSize: nat)
    ensures SecureBootSize(rawSize) <= SRAM_SIZE <==> rawSize <= RAW_MAX_SIZE
    ensures SecureBootSize(rawSize) <= SRAM_SIZE ==> SecureBootSize(rawSize) <= TOOL_LIMIT
  {
  }

  function LittleEndian(v: nat): (r: seq<Byte>)
    ensures |r| == 4
  {
    [v % 0x100, v / 0x100 % 0x100, v / 0x1_0000 % 0x100, v / 0x100_0000 % 0x100]
  }

  /** What the processor reads: the lowest byte comes first. */
  function WordAt(s: seq<Byte>, at: nat): nat
    requires at + 4 <= |s|
  {
    (s[at] as nat) + 0x100 * (s[at + 1] as nat) + 0x1_0000 * (s[at + 2] as nat) + 0x100_0000 * (s[at + 3] as nat)
  }

  lemma LittleEndianReads(v: nat)
    requires v < 0x1_0000_0000
    ensures WordAt(LittleEndian(v), 0) == v
  {
    var one, two := v / 0x100, v / 0x1_0000;
    Euclid(v, 0x1_0000, one / 0x100, one % 0x100 * 0x100 + v % 0x100);
    Euclid(v, 0x100_0000, two / 0x100, two % 0x100 * 0x1_0000 + v % 0x1_0000);
    Euclid(v % 0x1_0000, 0x100, one % 0x100, v % 0x100);
  }

  function ZeroBytes(n: nat): seq<Byte> {
    seq(n, _ => 0)
  }

  /** The image that is expected in SRAM: public entropy, the total size in the sixth vector, zeros from
      the end of the raw image on. */
  function Expected(raw: seq<Byte>, slot: nat): (r: seq<Byte>)
    requires slot + SLOT <= |raw| && SIZE_VECTOR + 4 <= |raw|
    ensures |r| == SecureBootSize(|raw|)
  {
    WithSlot(WithSlot(raw, slot, DEFAULT_EXTRA_ENTROPY), SIZE_VECTOR, LittleEndian(SecureBootSize(|raw|)))
    + ZeroBytes(SecureBootSize(|raw|) - |raw|)
  }

  /** The expected image byte by byte. The size lies over the entropy where they meet. */
  lemma ExpectedByte(raw: seq<Byte>, slot: nat, i: nat)
    requires slot + SLOT <= |raw| && i < SecureBootSize(|raw|) < 0x1_0000_0000
    ensures var b := Expected(raw, slot);
            && WordAt(b, 20) == SecureBootSize(|raw|)
            && (20 <= i < 24
                || b[i] == if slot <= i < slot + 32 then DEFAULT_EXTRA_ENTROPY[i - slot]
                           else if i < |raw| then raw[i] else 0)
  {
    hide LittleEndian, WithSlot, SecureBootSize;
    var total := SecureBootSize(|raw|);
    var inner := WithSlot(raw, slot, DEFAULT_EXTRA_ENTROPY);
    LittleEndianReads(total);
    SlotByte(inner, SIZE_VECTOR, LittleEndian(total), 20);
    SlotByte(inner, SIZE_VECTOR, LittleEndian(total), 21);
    SlotByte(inner, SIZE_VECTOR, LittleEndian(total), 22);
    SlotByte(inner, SIZE_VECTOR, LittleEndian(total), 23);
    if i < |raw| {
      SlotByte(raw, slot, DEFAULT_EXTRA_ENTROPY, i);
      SlotByte(inner, SIZE_VECTOR, LittleEndian(total), i);
    }
  }

  /** It panics when the image does not fit in SRAM, or when a slice is out of range. */
  method OnDeviceImage(raw: seq<Byte>, slot: nat) returns (r: Result<seq<Byte>>)
    ensures r.Ok? <==> |raw| <= RAW_MAX_SIZE && slot + SLOT <= |raw|
    ensures r.Ok? ==> r.value == Expected(raw, slot)
  {
    var size := SecureBootSize(|raw|);
    FitsUpToRawMax(|raw|);
    if size > SRAM_SIZE || slot + SLOT > |raw| || SIZE_VECTOR + 4 > |raw| {
      return Failed;
    }
    var sram := raw;
    sram := sram[..slot] + DEFAULT_EXTRA_ENTROPY + sram[slot + SLOT..];
    sram := sram[..SIZE_VECTOR] + LittleEndian(size) + sram[SIZE_VECTOR + 4..];
    sram := sram + ZeroBytes(size - |sram|);
    return Ok(sram);
  }

  /** The prediction does not depend on the entropy that was put into the slot. */
  lemma EntropyDoesNotMatter(raw: seq<Byte>, slot: nat, one: seq<Byte>, two: seq<Byte>)
    requires slot + SLOT <= |raw| && |one| == |two| == SLOT
    ensures Expected(WithSlot(raw, slot, one), slot) == Expected(WithSlot(raw, slot, two), slot) == Expected(raw, slot)
  {
    SlotTwice(raw, slot, one, DEFAULT_EXTRA_ENTROPY);
    SlotTwice(raw, slot, two, DEFAULT_EXTRA_ENTROPY);
  }

  lemma SlotTwice(s: seq<Byte>, at: nat, one: seq<Byte>, two: seq<Byte>)
    requires at + |one| <= |s| && |one| == |two|
    ensures WithSlot(WithSlot(s, at, one), at, two) == WithSlot(s, at, two)
  {
  }

  // ---- the signing tool ----

  /** A byte as two digits and back. */
  function ByteHex(b: Byte): string {
    [LowerDigit(b / 16), LowerDigit(b % 16)]
  }

  /** `hexlify` and `unhexlify`. */
  function Hexlify(s: seq<Byte>): string {
    if |s| == 0 then "" else ByteHex(s[0]) + Hexlify(s[1..])
  }

  function Unhexlify(h: string): seq<Byte>
    requires IsHex(h) && |h| % 2 == 0
  {
    if |h| == 0 then [] else [16 * DigitVal(h[0]) + DigitVal(h[1])] + Unhexlify(h[2..])
  }

  lemma {:induction false} HexRoundTrip(s: seq<Byte>)
    ensures IsHex(Hexlify(s)) && |Hexlify(s)| == 2 * |s| && Unhexlify(Hexlify(s)) == s
  {
    if |s| > 0 {
      HexRoundTrip(s[1..]);
      assert Hexlify(s)[2..] == Hexlify(s[1..]);
    }
  }

  lemma {:induction false} HexConcat(s: seq<Byte>, t: seq<Byte>)
    ensures Hexlify(s + t) == Hexlify(s) + Hexlify(t)
  {
    if |s| == 0 {
      assert s + t == t;
    } else {
      assert (s + t)[1..] == s[1..] + t;
      HexConcat(s[1..], t);
    }
  }

  /** The value of a big-endian number's digit pairs, last pair first. */
  lemma VectorHex(v: nat)
    requires v < 0x1_0000_0000
    ensures var h := IntToHex(v, 8);
            && |h| == 8 && IsHex(h[6..8] + h[4..6] + h[2..4] + h[0..2])
            && Unhexlify(h[6..8] + h[4..6] + h[2..4] + h[0..2]) == LittleEndian(v)
  {
    hide IntToHex, Unhexlify;
    var h := IntToHex(v, 8);
    ThirtyTwoBits();
    IntToHexVal(v, 8);
    IntToHexLength(v, 8, 8);
    var a, b, c, d := 16 * DigitVal(h[6]) + DigitVal(h[7]), 16 * DigitVal(h[4]) + DigitVal(h[5]),
                      16 * DigitVal(h[2]) + DigitVal(h[3]), 16 * DigitVal(h[0]) + DigitVal(h[1]);
    EightDigits(h);
    assert v == a + 0x100 * b + 0x1_0000 * c + 0x100_0000 * d;
    Euclid(v, 0x100, b + 0x100 * c + 0x1_0000 * d, a);
    Euclid(v, 0x1_0000, c + 0x100 * d, a + 0x100 * b);
    Euclid(v, 0x100_0000, d, a + 0x100 * b + 0x1_0000 * c);
    Euclid(v / 0x100, 0x100, c + 0x100 * d, b);
    Euclid(v / 0x1_0000, 0x100, d, c);
    Euclid(d, 0x100, 0, d);
    var r := h[6..8] + h[4..6] + h[2..4] + h[0..2];
    assert r[0] == h[6] && r[1] == h[7] && r[2] == h[4] && r[3] == h[5] && r[4] == h[2] && r[5] == h[3] && r[6] == h[0]
        && r[7] == h[1];
    FourPairs(r);
  }

  lemma ThirtyTwoBits()
    ensures Pow2(32) == 0x1_0000_0000
  {
    Pow16(0);
    Pow16(1);
    Pow16(2);
    Pow16(3);
    Pow16(4);
    Pow16(5);
    Pow16(6);
    Pow16(7);
  }

  lemma EightDigits(h: string)
    requires IsHex(h) && |h| == 8
    ensures HexVal(h) == 16 * DigitVal(h[6]) + DigitVal(h[7]) + 0x100 * (16 * DigitVal(h[4]) + DigitVal(h[5]))
                         + 0x1_0000 * (16 * DigitVal(h[2]) + DigitVal(h[3]))
                         + 0x100_0000 * (16 * DigitVal(h[0]) + DigitVal(h[1]))
  {
    HexPair(h, 8);
    HexPair(h, 6);
    HexPair(h, 4);
    HexPair(h, 2);
    assert h[..8] == h && h[..0] == "";
  }

  lemma HexPair(h: string, n: nat)
    requires IsHex(h) && 2 <= n <= |h|
    ensures HexVal(h[..n]) == 0x100 * HexVal(h[..n - 2]) + 16 * DigitVal(h[n - 2]) + DigitVal(h[n - 1])
  {
    assert h[..n][..n - 1] == h[..n - 1] && h[..n - 1][..n - 2] == h[..n - 2];
  }

  lemma FourPairs(r: string)
    requires IsHex(r) && |r| == 8
    ensures Unhexlify(r) == [16 * DigitVal(r[0]) + DigitVal(r[1]), 16 * DigitVal(r[2]) + DigitVal(r[3]),
                             16 * DigitVal(r[4]) + DigitVal(r[5]), 16 * DigitVal(r[6]) + DigitVal(r[7])]
  {
    assert r[2..][2..] == r[4..] && r[4..][2..] == r[6..] && r[6..][2..] == "";
    assert Unhexlify(r[6..]) == [16 * DigitVal(r[6]) + DigitVal(r[7])];
    assert Unhexlify(r[4..]) == [16 * DigitVal(r[4]) + DigitVal(r[5])] + Unhexlify(r[6..]);
  }

  lemma {:induction false} UnhexConcat(a: string, b: string)
    requires IsHex(a) && IsHex(b) && |a| % 2 == 0 && |b| % 2 == 0
    ensures IsHex(a + b) && Unhexlify(a + b) == Unhexlify(a) + Unhexlify(b)
  {
    if |a| == 0 {
      assert a + b == b;
    } else {
      UnhexStep(a);
      UnhexConcat(a[2..], b);
      assert a + b == a[..2] + (a[2..] + b);
      UnhexStep(a + b);
      assert (a + b)[2..] == a[2..] + b;
    }
  }

  lemma UnhexStep(h: string)
    requires IsHex(h) && |h| % 2 == 0 && |h| > 0
    ensures |h| >= 2 && IsHex(h[2..]) && |h[2..]| % 2 == 0
    ensures Unhexlify(h) == [16 * DigitVal(h[0]) + DigitVal(h[1])] + Unhexlify(h[2..])
  {
  }

  lemma HexSliceOf(s: seq<Byte>, i: nat)
    requires i <= |s|
    ensures |Hexlify(s)| == 2 * |s| && Hexlify(s)[..2 * i] == Hexlify(s[..i]) && Hexlify(s)[2 * i..] == Hexlify(s[i..])
  {
    assert s == s[..i] + s[i..];
    HexConcat(s[..i], s[i..]);
    HexRoundTrip(s);
    HexRoundTrip(s[..i]);
  }

  /** A Python slice up to or from a position, which does not fail beyond the end. */
  function UpTo<T>(s: seq<T>, n: nat): seq<T> {
    if n <= |s| then s[..n] else s
  }

  function From<T>(s: seq<T>, n: nat): seq<T> {
    if n <= |s| then s[n..] else []
  }

  /** The image with its sixth vector set; one that is too short for the vector grows. */
  function WithVector(s: seq<Byte>, v: nat): (r: seq<Byte>)
    ensures |r| == (if |s| >= SIZE_VECTOR + 4 then |s| else if |s| >= SIZE_VECTOR then SIZE_VECTOR + 4 else |s| + 4)
    ensures |s| >= SIZE_VECTOR + 4 ==> r == WithSlot(s, SIZE_VECTOR, LittleEndian(v))
  {
    UpTo(s, SIZE_VECTOR) + LittleEndian(v) + From(s, SIZE_VECTOR + 4)
  }

  /** The size vector, written by cutting the image's digits apart, lands in the image's bytes 20 to 23. */
  lemma VectorWritten(s: seq<Byte>, v: nat)
    requires v < 0x1_0000_0000
    ensures var hex, h := Hexlify(s), IntToHex(v, 8);
            && |h| == 8
            && var patched := UpTo(hex, 40) + (h[6..8] + h[4..6] + h[2..4] + h[0..2]) + From(hex, 48);
               IsHex(patched) && |patched| % 2 == 0 && Unhexlify(patched) == WithVector(s, v)
  {
    hide IntToHex, Unhexlify, Hexlify, LittleEndian, IsHex;
    var hex, h := Hexlify(s), IntToHex(v, 8);
    HexEnds(s, 20);
    HexEnds(s, 24);
    VectorHex(v);
    var mid := h[6..8] + h[4..6] + h[2..4] + h[0..2];
    HexRoundTrip(UpTo(s, 20));
    HexRoundTrip(From(s, 24));
    UnhexConcat(UpTo(hex, 40), mid);
    UnhexConcat(UpTo(hex, 40) + mid, From(hex, 48));
  }

  lemma HexEnds(s: seq<Byte>, i: nat)
    ensures UpTo(Hexlify(s), 2 * i) == Hexlify(UpTo(s, i)) && From(Hexlify(s), 2 * i) == Hexlify(From(s, i))
  {
    hide Hexlify;
    HexRoundTrip(s);
    if i <= |s| {
      HexSliceOf(s, i);
    } else {
      NoHex();
    }
  }

  lemma NoHex()
    ensures Hexlify([]) == ""
  {
  }

  /** Encryption that keeps the length, and a 16-byte MAC. */
  type Encryption = f: seq<int> -> seq<int> | forall x :: |f(x)| == |x| witness (x: seq<int>) => x
  type Authentication = f: seq<int> -> seq<int> | forall x :: |f(x)| == CMAC_SIZE
    witness (x: seq<int>) => seq(CMAC_SIZE, _ => 0)

  /** A way back from the ciphertext. */
  ghost predicate Undoes(decrypt: seq<int> -> seq<int>, encrypt: Encryption) {
    forall x: seq<int> :: decrypt(encrypt(x)) == x
  }

  lemma SameParts<T>(a: seq<T>, b: seq<T>, c: seq<T>, d: seq<T>)
    requires a + b == c + d && |b| == |d|
    ensures a == c && b == d
  {
    assert (a + b)[..|a|] == a && (c + d)[..|c|] == c;
    assert (a + b)[|a|..] == b && (c + d)[|c|..] == d;
  }

  /** The signing tool on its CMAC path. */
  class CipherTool {
    const encrypt: Encryption
    const cmac: Authentication
    var bootstrap: seq<Byte>
    var vector6: nat
    var ciphered: seq<int>

    constructor (encrypt: Encryption, cmac: Authentication)
      ensures this.encrypt == encrypt && this.cmac == cmac
    {
      this.encrypt, this.cmac, bootstrap, vector6, ciphered := encrypt, cmac, [], 0, [];
    }

    /** Ciphertext and tag of a plaintext. */
    function Signed(plain: seq<Byte>): (r: seq<int>)
      ensures |r| == |plain| + CMAC_SIZE
    {
      encrypt(plain) + cmac(encrypt(plain))
    }

    /** What the device can do with a bundle: the tag at its end is that of all that comes before, which
        decrypts to the plaintext. */
    lemma SignedOpens(decrypt: seq<int> -> seq<int>, plain: seq<Byte>, body: seq<int>, tag: seq<int>)
      requires Undoes(decrypt, encrypt)
      requires Signed(plain) == body + tag && |tag| == CMAC_SIZE
      ensures tag == cmac(body) && decrypt(body) == plain
    {
      hide Undoes;
      SignedParts(plain, body, tag);
      Undone(decrypt, plain);
    }

    lemma Undone(decrypt: seq<int> -> seq<int>, plain: seq<Byte>)
      requires Undoes(decrypt, encrypt)
      ensures decrypt(encrypt(plain)) == plain
    {
    }

    lemma SignedParts(plain: seq<Byte>, body: seq<int>, tag: seq<int>)
      requires Signed(plain) == body + tag && |tag| == CMAC_SIZE
      ensures body == encrypt(plain) && tag == cmac(body)
    {
      SameParts(encrypt(plain), cmac(encrypt(plain)), body, tag);
    }

    /** Put image and signature size into the sixth vector, and encrypt, which fails unless the image is
        whole AES blocks then. */
    method UpdateSizesVectors(signatureSize: nat) returns (r: Update)
      modifies this
      ensures r.Exceeds? <==> |old(bootstrap)| + signatureSize > TOOL_LIMIT
      ensures r.Exceeds? ==> bootstrap == old(bootstrap)
      ensures !r.Exceeds? ==> vector6 == |old(bootstrap)| + signatureSize
      ensures !r.Exceeds? ==> bootstrap == WithVector(old(bootstrap), vector6)
      ensures !r.Exceeds? ==> (r.Updated? <==> |bootstrap| % AES_BLOCK == 0)
      ensures r.Updated? ==> ciphered + cmac(ciphered) == Signed(bootstrap)
    {
      hide IntToHex, Hexlify, Unhexlify, LittleEndian;
      if |bootstrap| + signatureSize > TOOL_LIMIT {
        return Exceeds;
      }
      vector6 := signatureSize + |bootstrap|;
      var hex := Hexlify(bootstrap);
      var vector := IntToHex(vector6, 8);
      VectorWritten(bootstrap, vector6);
      hex := UpTo(hex, 40) + (vector[6..8] + vector[4..6] + vector[2..4] + vector[0..2]) + From(hex, 48);
      bootstrap := Unhexlify(hex);
      if |bootstrap| % AES_BLOCK != 0 {
        return Unaligned;
      }
      ciphered := encrypt(bootstrap);
      return Updated;
    }

    method CmacTag() returns (bundle: Result<seq<int>>)
      modifies this
      ensures bundle.Ok? ==> bootstrap == WithVector(old(bootstrap), |old(bootstrap)| + CMAC_SIZE)
      ensures bundle.Ok? <==>
              |old(bootstrap)| + CMAC_SIZE <= TOOL_LIMIT
              && |WithVector(old(bootstrap), |old(bootstrap)| + CMAC_SIZE)| % AES_BLOCK == 0
      ensures bundle.Ok? ==> bundle.value == Signed(bootstrap)
    {
      hide WithVector, Signed;
      var r := UpdateSizesVectors(CMAC_SIZE);
      if r != Updated {
        return Failed;
      }
      return Ok(ciphered + cmac(ciphered));
    }

    /** Pad with random bytes to an AES block, if need be, and sign. It fails exactly when the image exceeds
        the limit or is too short for the vectors. What is written has the size that the build predicted,
        and says so in its sixth vector. */
    method CipherBootstrap(raw: seq<Byte>, random: seq<Byte>) returns (bundle: Result<seq<int>>, ghost plain: seq<Byte>)
      requires |random| == (AES_BLOCK - |raw| % AES_BLOCK) % AES_BLOCK
      modifies this
      ensures bundle.Ok? <==> AES_BLOCK < |raw| && SecureBootSize(|raw|) <= TOOL_LIMIT
      ensures bundle.Ok? ==>
                bundle.value == Signed(plain) && |bundle.value| == SecureBootSize(|raw|)
                && SignedForm(raw, plain)
    {
      hide WithVector, Signed, SignedForm;
      var padded := raw;
      if |raw| % AES_BLOCK != 0 {
        padded := raw + random;
      }
      PaddedLength(|raw|);
      PaddedWithVector(raw, random, padded);
      bootstrap := padded;
      bundle := CmacTag();
      plain := bootstrap;
    }
  }

  datatype Update = Updated | Exceeds | Unaligned

  lemma PaddedWithVector(raw: seq<Byte>, random: seq<Byte>, padded: seq<Byte>)
    requires |random| == (AES_BLOCK - |raw| % AES_BLOCK) % AES_BLOCK && padded == raw + random
    requires |padded| + CMAC_SIZE == SecureBootSize(|raw|)
    ensures var plain := WithVector(padded, |padded| + CMAC_SIZE);
            && (|plain| % AES_BLOCK == 0 <==> AES_BLOCK < |raw|)
            && (AES_BLOCK < |raw| ==> SignedForm(raw, plain))
  {
    hide LittleEndian;
    assert |padded| % AES_BLOCK == 0;
    var plain := WithVector(padded, |padded| + CMAC_SIZE);
    if AES_BLOCK < |raw| {
      assert |padded| >= 32;
      forall i | 0 <= i < |raw| && !(SIZE_VECTOR <= i < SIZE_VECTOR + 4)
        ensures plain[i] == raw[i]
      {
        SlotByte(padded, SIZE_VECTOR, LittleEndian(|padded| + CMAC_SIZE), i);
      }
    } else {
      assert |padded| == 0 || |padded| == 16;
    }
  }

  /** The plaintext that is signed for a raw image: as long as predicted without its tag, with the
      predicted size in its sixth vector, and otherwise the image and any padding. */
  predicate SignedForm(raw: seq<Byte>, plain: seq<Byte>) {
    && |plain| + CMAC_SIZE == SecureBootSize(|raw|)
    && |raw| <= |plain| && SIZE_VECTOR + 4 <= |plain|
    && plain[SIZE_VECTOR..SIZE_VECTOR + 4] == LittleEndian(SecureBootSize(|raw|))
    && forall i :: 0 <= i < |raw| && !(SIZE_VECTOR <= i < SIZE_VECTOR + 4) ==> plain[i] == raw[i]
  }

  /** An image that reaches beyond the vectors is kept but for the size. */
  lemma SignedImage(raw: seq<Byte>, plain: seq<Byte>)
    requires SignedForm(raw, plain) && SIZE_VECTOR + 4 <= |raw|
    ensures plain[..|raw|] == WithSlot(raw, SIZE_VECTOR, LittleEndian(SecureBootSize(|raw|)))
  {
    hide LittleEndian, SecureBootSize, WithSlot;
    var w := WithSlot(raw, SIZE_VECTOR, LittleEndian(SecureBootSize(|raw|)));
    forall i | 0 <= i < |raw|
      ensures plain[i] == w[i]
    {
      SlotByte(raw, SIZE_VECTOR, LittleEndian(SecureBootSize(|raw|)), i);
      if SIZE_VECTOR <= i < SIZE_VECTOR + 4 {
        assert plain[i] == plain[SIZE_VECTOR..SIZE_VECTOR + 4][i - SIZE_VECTOR];
      }
    }
  }

  lemma PaddedLength(n: nat)
    ensures (if n % AES_BLOCK == 0 then n else n + (AES_BLOCK - n % AES_BLOCK)) + CMAC_SIZE == SecureBootSize(n)
  {
    var q, r := n / AES_BLOCK, n % AES_BLOCK;
    if r == 0 {
      Euclid(n + AES_BLOCK - 1, AES_BLOCK, q, AES_BLOCK - 1);
    } else {
      Euclid(n + AES_BLOCK - 1, AES_BLOCK, q + 1, r - 1);
    }
  }

  /** What the device keeps of a decrypted image: its own entropy in the slot, and zeros from the end of
      the raw image to the end of what was loaded. */
  function OnDevice(plain: seq<Byte>, total: nat, rawSize: nat, slot: nat): seq<Byte>
    requires slot + SLOT <= rawSize <= |plain| && rawSize <= total
  {
    WithSlot(plain[..rawSize], slot, DEFAULT_EXTRA_ENTROPY) + ZeroBytes(total - rawSize)
  }

  /** Behind the vectors the slot leaves the size alone. Further down it does so only as far as the zeros
      that the public entropy begins with stand where the size has zeros too. */
  predicate SlotSparesSize(slot: nat, total: nat) {
    slot >= SIZE_VECTOR + 4 || slot == 23 || (slot == 22 && total < 0x1_0000) || (slot == 21 && total < 0x100)
  }

  /** The prediction is what the device keeps, whatever the tool padded with, for every image that fits,
      exactly when the slot spares the size. */
  lemma PredictionMatches(raw: seq<Byte>, slot: nat, plain: seq<Byte>)
    requires slot + SLOT <= |raw| <= RAW_MAX_SIZE && SignedForm(raw, plain)
    ensures OnDevice(plain, SecureBootSize(|raw|), |raw|, slot) == Expected(raw, slot)
       <==> SlotSparesSize(slot, SecureBootSize(|raw|))
  {
    hide LittleEndian, SecureBootSize, ZeroBytes;
    var total := SecureBootSize(|raw|);
    FitsUpToRawMax(|raw|);
    SizeIsPositive(|raw|);
    SignedImage(raw, plain);
    var size := LittleEndian(total);
    if slot >= SIZE_VECTOR + 4 {
      SlotsCommute(raw, SIZE_VECTOR, size, slot, DEFAULT_EXTRA_ENTROPY);
    } else {
      var device := WithSlot(WithSlot(raw, SIZE_VECTOR, size), slot, DEFAULT_EXTRA_ENTROPY);
      var build := WithSlot(WithSlot(raw, slot, DEFAULT_EXTRA_ENTROPY), SIZE_VECTOR, size);
      var rest := ZeroBytes(total - |raw|);
      assert OnDevice(plain, total, |raw|, slot) == device + rest && Expected(raw, slot) == build + rest;
      assert device + rest == build + rest <==> device == build by {
        assert (device + rest)[..|raw|] == device && (build + rest)[..|raw|] == build;
      }
      OverlappingSlots(raw, slot, size);
      SizeUnderSlot(slot, total);
    }
  }

  lemma SizeIsPositive(rawSize: nat)
    ensures SecureBootSize(rawSize) > 0
  {
  }

  /** The later write wins where two slots overlap. */
  lemma TwoSlotsByte(s: seq<Byte>, a: nat, one: seq<Byte>, b: nat, two: seq<Byte>, i: nat)
    requires a + |one| <= |s| && b + |two| <= |s| && i < |s|
    ensures WithSlot(WithSlot(s, a, one), b, two)[i]
         == if b <= i < b + |two| then two[i - b] else if a <= i < a + |one| then one[i - a] else s[i]
  {
    hide WithSlot;
    SlotByte(s, a, one, i);
    SlotByte(WithSlot(s, a, one), b, two, i);
  }

  /** What the entropy puts over byte `k` of the size. */
  function OverSize(slot: nat, k: nat): Byte
    requires slot <= SIZE_VECTOR + k < slot + SLOT
  {
    DEFAULT_EXTRA_ENTROPY[SIZE_VECTOR + k - slot]
  }

  /** The two orders of writing agree when the slots do where they overlap. */
  lemma OverlappingSlots(raw: seq<Byte>, slot: nat, size: seq<Byte>)
    requires |size| == 4 && slot < SIZE_VECTOR + 4 && slot + SLOT <= |raw|
    ensures WithSlot(WithSlot(raw, SIZE_VECTOR, size), slot, DEFAULT_EXTRA_ENTROPY)
         == WithSlot(WithSlot(raw, slot, DEFAULT_EXTRA_ENTROPY), SIZE_VECTOR, size)
       <==> forall k :: 0 <= k < 4 && slot <= SIZE_VECTOR + k ==> size[k] == OverSize(slot, k)
  {
    hide WithSlot;
    var device := WithSlot(WithSlot(raw, SIZE_VECTOR, size), slot, DEFAULT_EXTRA_ENTROPY);
    var build := WithSlot(WithSlot(raw, slot, DEFAULT_EXTRA_ENTROPY), SIZE_VECTOR, size);
    forall i | 0 <= i < |raw|
      ensures var k := i - SIZE_VECTOR;
              if 0 <= k < 4 && slot <= i then device[i] == OverSize(slot, k) && build[i] == size[k]
              else device[i] == build[i]
    {
      TwoSlotsByte(raw, SIZE_VECTOR, size, slot, DEFAULT_EXTRA_ENTROPY, i);
      TwoSlotsByte(raw, slot, DEFAULT_EXTRA_ENTROPY, SIZE_VECTOR, size, i);
    }
    if device == build {
      forall k | 0 <= k < 4 && slot <= SIZE_VECTOR + k
        ensures size[k] == OverSize(slot, k)
      {
        assert device[SIZE_VECTOR + k] == build[SIZE_VECTOR + k];
      }
    }
  }

  /** The entropy is zero in its first five bytes and nowhere else that can come to lie on the size. */
  lemma SizeUnderSlot(slot: nat, total: nat)
    requires slot < SIZE_VECTOR + 4 && 0 < total <= SRAM_SIZE
    ensures (forall k :: 0 <= k < 4 && slot <= SIZE_VECTOR + k ==> LittleEndian(total)[k] == OverSize(slot, k))
       <==> SlotSparesSize(slot, total)
  {
    hide LittleEndian;
    SizeBytes(total);
    forall k | 0 <= k < 4 && slot <= SIZE_VECTOR + k
      ensures OverSize(slot, k) == 0 <==> SIZE_VECTOR + k < slot + 5
    {
      EntropyByte(SIZE_VECTOR + k - slot);
    }
    var size := LittleEndian(total);
    if slot <= 18 {
      assert size[3] != OverSize(slot, 3);
    } else if slot <= 20 {
      assert OverSize(slot, 0) == OverSize(slot, 1) == OverSize(slot, 2) == 0;
    }
  }

  lemma SizeBytes(total: nat)
    requires 0 < total <= SRAM_SIZE
    ensures var size := LittleEndian(total);
            && size[3] == 0 && (size[2] == 0 <==> total < 0x1_0000)
            && (size[1] == size[2] == 0 <==> total < 0x100) && !(size[0] == size[1] == size[2] == 0)
  {
    Euclid(total, 0x100, total / 0x100, total % 0x100);
  }

  lemma EntropyByte(i: nat)
    requires i <= 23
    ensures DEFAULT_EXTRA_ENTROPY[i] == 0 <==> i < 5
  {
  }

  lemma SlotsCommute(s: seq<Byte>, i: nat, a: seq<Byte>, j: nat, b: seq<Byte>)
    requires i + |a| <= j && j + |b| <= |s|
    ensures WithSlot(WithSlot(s, i, a), j, b) == WithSlot(WithSlot(s, j, b), i, a)
  {
  }
}
