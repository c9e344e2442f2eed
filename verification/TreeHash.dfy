/** The byte stream that is hashed for a tree of files, which can be decoded in one way only, and the
    order of paths. */
module TreeHash {
  import opened Wrappers

  type Byte = b: int | 0 <= b < 256
  type Bytes = seq<Byte>

  const SLASH: Byte := 0x2f
  const BACKSLASH: Byte := 0x5c
  const DOT: Byte := 0x2e

  // ---- numbers as eight bytes ----

  function Pow256(n: nat): (p: nat)
    ensures p > 0
  {
    if n == 0 then 1 else 256 * Pow256(n - 1)
  }

  /** The lowest `k` bytes of a number, most significant first. */
  function BigEndian(n: nat, k: nat): (r: Bytes)
    ensures |r| == k
  {
    if k == 0 then [] else BigEndian(n / 256, k - 1) + [n % 256]
  }

  function Value(s: Bytes): nat {
    if |s| == 0 then 0 else 256 * Value(s[..|s| - 1]) + s[|s| - 1]
  }

  lemma {:induction false} ValueOfBigEndian(n: nat, k: nat)
    requires n < Pow256(k)
    ensures Value(BigEndian(n, k)) == n
  {
    if k > 0 {
      ValueOfBigEndian(n / 256, k - 1);
      assert BigEndian(n, k)[..k - 1] == BigEndian(n / 256, k - 1);
    }
  }

  // ---- the stream ----

  /** One file as it is hashed: the path and the content, each after its length. */
  type Record = (Bytes, Bytes)

  predicate Fits(r: Record) {
    |r.0| < Pow256(8) && |r.1| < Pow256(8)
  }

  function Framed(r: Record): Bytes {
    BigEndian(|r.0|, 8) + r.0 + BigEndian(|r.1|, 8) + r.1
  }

  function Stream(records: seq<Record>): Bytes {
    if |records| == 0 then [] else Framed(records[0]) + Stream(records[1..])
  }

  /** Read one length-prefixed string; the rest follows it. */
  function Chunk(s: Bytes): (r: Option<(Bytes, Bytes)>)
    ensures r.Some? ==> |r.value.1| + 8 <= |s|
  {
    if |s| < 8 then None
    else
      var n := Value(s[..8]);
      if |s| < 8 + n then None else Some((s[8..8 + n], s[8 + n..]))
  }

  function Decode(s: Bytes): Option<seq<Record>>
    decreases |s|
  {
    if |s| == 0 then Some([])
    else
      match Chunk(s)
      case None => None
      case Some((path, s1)) =>
        match Chunk(s1)
        case None => None
        case Some((content, s2)) =>
          match Decode(s2)
          case None => None
          case Some(rest) => Some([(path, content)] + rest)
  }

  lemma ChunkOf(a: Bytes, rest: Bytes)
    requires |a| < Pow256(8)
    ensures Chunk(BigEndian(|a|, 8) + a + rest) == Some((a, rest))
  {
    var s := BigEndian(|a|, 8) + a + rest;
    ValueOfBigEndian(|a|, 8);
    assert s[..8] == BigEndian(|a|, 8) && s[8..8 + |a|] == a && s[8 + |a|..] == rest;
  }

  /** Decoding gives back the list of paths and contents. */
  lemma {:induction false} DecodeStream(records: seq<Record>)
    requires forall i :: 0 <= i < |records| ==> Fits(records[i])
    ensures Decode(Stream(records)) == Some(records)
  {
    if |records| > 0 {
      hide Decode, Framed;
      DecodeStream(records[1..]);
      DecodeOne(records[0], Stream(records[1..]), records[1..]);
      assert records == [records[0]] + records[1..];
    }
  }

  lemma DecodeOne(r: Record, rest: Bytes, records: seq<Record>)
    requires Fits(r) && Decode(rest) == Some(records)
    ensures Decode(Framed(r) + rest) == Some([r] + records)
  {
    hide Chunk, BigEndian;
    var s1 := BigEndian(|r.1|, 8) + r.1 + rest;
    FramedParts(r, rest);
    ChunkOf(r.0, s1);
    ChunkOf(r.1, rest);
  }

  lemma FramedParts(r: Record, rest: Bytes)
    ensures Framed(r) + rest == BigEndian(|r.0|, 8) + r.0 + (BigEndian(|r.1|, 8) + r.1 + rest)
    ensures |Framed(r) + rest| > 0
  {
  }

  /** Two lists of files with one stream are one list. */
  lemma StreamIsInjective(a: seq<Record>, b: seq<Record>)
    requires forall i :: 0 <= i < |a| ==> Fits(a[i])
    requires forall i :: 0 <= i < |b| ==> Fits(b[i])
    requires Stream(a) == Stream(b)
    ensures a == b
  {
    DecodeStream(a);
    DecodeStream(b);
  }

  lemma {:induction false} StreamAppend(a: seq<Record>, r: Record)
    ensures Stream(a + [r]) == Stream(a) + Framed(r)
  {
    if |a| == 0 {
      assert a + [r] == [r] && [r][1..] == [];
    } else {
      StreamAppend(a[1..], r);
      assert (a + [r])[1..] == a[1..] + [r];
    }
  }

  // ---- paths and their order ----

  type Path = seq<Bytes>

  function Join(p: Path): Bytes {
    if |p| == 0 then [] else if |p| == 1 then p[0] else p[0] + [SLASH] + Join(p[1..])
  }

  /** The parts between slashes. */
  function Split(s: Bytes): (p: Path)
    ensures |p| > 0
  {
    if |s| == 0 then [[]]
    else if s[0] == SLASH then [[]] + Split(s[1..])
    else
      var rest := Split(s[1..]);
      [[s[0]] + rest[0]] + rest[1..]
  }

  /** A string is the join of its parts. */
  lemma {:induction false} JoinSplit(s: Bytes)
    ensures Join(Split(s)) == s
  {
    if |s| > 0 {
      JoinSplit(s[1..]);
      var rest := Split(s[1..]);
      if s[0] == SLASH {
        assert Split(s)[1..] == rest;
        assert [] + [SLASH] + Join(rest) == s;
      } else if |rest| > 1 {
        assert Split(s)[1..] == rest[1..];
        assert [s[0]] + rest[0] + [SLASH] + Join(rest[1..]) == [s[0]] + (rest[0] + [SLASH] + Join(rest[1..]));
      }
    }
  }

  predicate Below(a: Bytes, b: Bytes) {
    |b| > 0 && (|a| == 0 || a[0] < b[0] || (a[0] == b[0] && Below(a[1..], b[1..])))
  }

  /** Component by component; a path comes before everything below it. */
  predicate PathBelow(p: Path, q: Path) {
    |q| > 0 && (|p| == 0 || Below(p[0], q[0]) || (p[0] == q[0] && PathBelow(p[1..], q[1..])))
  }

  lemma {:induction false} BelowOrder(a: Bytes, b: Bytes, c: Bytes)
    ensures !Below(a, a)
    ensures Below(a, b) || a == b || Below(b, a)
    ensures Below(a, b) && Below(b, c) ==> Below(a, c)
  {
    if |a| > 0 {
      BelowOrder(a[1..], if |b| > 0 then b[1..] else b, if |c| > 0 then c[1..] else c);
      if |b| > 0 && a[0] == b[0] && a[1..] == b[1..] {
        assert a == [a[0]] + a[1..] && b == [b[0]] + b[1..];
      }
    }
  }

  lemma {:induction false} PathOrder(p: Path, q: Path, r: Path)
    ensures !PathBelow(p, p)
    ensures PathBelow(p, q) || p == q || PathBelow(q, p)
    ensures PathBelow(p, q) && PathBelow(q, r) ==> PathBelow(p, r)
  {
    if |p| > 0 {
      BelowOrder(p[0], if |q| > 0 then q[0] else [], if |r| > 0 then r[0] else []);
      PathOrder(p[1..], if |q| > 0 then q[1..] else q, if |r| > 0 then r[1..] else r);
      if |q| > 0 && p[0] == q[0] && p[1..] == q[1..] {
        assert p == [p[0]] + p[1..] && q == [q[0]] + q[1..];
      }
    }
  }

  /** The order is not that of the joined strings: `-` comes before `/`. */
  lemma OrderIsByComponent()
    ensures var p, q: Path := [[0x61], [0x62]], [[0x61, 0x2d]];
            PathBelow(p, q) && Below(Join(q), Join(p))
  {
    var p, q: Path := [[0x61], [0x62]], [[0x61, 0x2d]];
    assert p[1..] == [[0x62]];
    assert Join(p) == [0x61, 0x2f, 0x62] && Join(q) == [0x61, 0x2d];
    assert Join(p)[1..][0] == 0x2f && Join(q)[1..][0] == 0x2d;
    assert p[0][1..] == [] && q[0][1..][0] == 0x2d;
  }
}
