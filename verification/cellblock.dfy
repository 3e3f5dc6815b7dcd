/** The KeyValue cellblock codec: its printer (hrpc/mutate.go) and its parsers (hrpc/call.go, hrpc/scan.go). */
module Cellblock {
  import opened Bytes

  /** The number of uint32 values. */
  const M32: nat := 0x1_0000_0000

  // ----- Big-endian numbers

  /** The last `w` base-256 digits of `n`: a conversion to an unsigned type of `w` bytes, then PutUint. */
  function BigEndian(n: nat, w: nat): (s: Key)
    ensures |s| == w
  {
    if w == 0 then [] else BigEndian(n / 256, w - 1) + [n % 256]
  }

  function Uint(s: Key): nat {
    if s == [] then 0 else 256 * Uint(s[..|s| - 1]) + s[|s| - 1]
  }

  function Power256(w: nat): (p: nat)
    ensures p > 0
  {
    if w == 0 then 1 else 256 * Power256(w - 1)
  }

  lemma Powers()
    ensures Power256(1) == 0x100 && Power256(2) == 0x1_0000 && Power256(4) == M32
    ensures Power256(8) == 0x1_0000_0000_0000_0000
  {
    assert Power256(2) == 0x1_0000;
    assert Power256(4) == M32;
    assert Power256(6) == 0x1_0000_0000_0000;
  }

  lemma {:induction false} UintOfBigEndian(n: nat, w: nat)
    requires n < Power256(w)
    ensures Uint(BigEndian(n, w)) == n
  {
    if w > 0 {
      UintOfBigEndian(n / 256, w - 1);
      var s := BigEndian(n, w);
      assert s[..|s| - 1] == BigEndian(n / 256, w - 1);
    }
  }

  lemma {:induction false} BigEndianOfUint(s: Key)
    ensures BigEndian(Uint(s), |s|) == s && Uint(s) < Power256(|s|)
  {
    if s != [] {
      var t := s[..|s| - 1];
      BigEndianOfUint(t);
      assert Uint(s) / 256 == Uint(t) && Uint(s) % 256 == s[|s| - 1];
      assert s == t + [s[|s| - 1]];
    }
  }

  // ----- The printer

  datatype KeyValue = KeyValue(row: Key, family: Key, qualifier: Key, timestamp: nat, kind: Byte, value: Key)

  function KeyLength(kv: KeyValue): nat {
    2 + |kv.row| + 1 + |kv.family| + |kv.qualifier| + 8 + 1
  }

  function CellblockLen(kv: KeyValue): nat {
    4 + 4 + 4 + KeyLength(kv) + |kv.value|
  }

  /** The lengths and the timestamp fit the fields of a cellblock. */
  predicate Fits(kv: KeyValue) {
    && |kv.row| < 0x1_0000 && |kv.family| < 0x100 && CellblockLen(kv) < M32
    && kv.timestamp < 0x1_0000_0000_0000_0000
  }

  function Header(kv: KeyValue): (s: Key)
    ensures |s| == 14
  {
    BigEndian(8 + KeyLength(kv) + |kv.value|, 4) + BigEndian(KeyLength(kv), 4) + BigEndian(|kv.value|, 4) +
    BigEndian(|kv.row|, 2)
  }

  function Encode(kv: KeyValue): (s: Key)
    ensures |s| == CellblockLen(kv)
  {
    Header(kv) + kv.row + BigEndian(|kv.family|, 1) + kv.family + kv.qualifier + BigEndian(kv.timestamp, 8) +
    [kv.kind] + kv.value
  }

  function EncodeAll(kvs: seq<KeyValue>): Key {
    if kvs == [] then [] else EncodeAll(kvs[..|kvs| - 1]) + Encode(kvs[|kvs| - 1])
  }

  /** Writes `s` at `i`; what is written before it, after `base`, grows by `s`. */
  method PutAt(buf: array<Byte>, i: nat, s: Key, ghost base: Key, ghost done: Key) returns (next: nat)
    requires i + |s| <= buf.Length && buf[..i] == base + done
    modifies buf
    ensures next == i + |s| && buf[..next] == base + (done + s)
  {
    for k := 0 to |s|
      invariant buf[..i + k] == base + done + s[..k]
    {
      buf[i + k] := s[k];
      assert buf[..i + k + 1] == buf[..i + k] + [s[k]];
      assert s[..k + 1] == s[..k] + [s[k]];
    }
    assert s[..|s|] == s;
    assert base + done + s == base + (done + s);
    return i + |s|;
  }

  method PutHeader(buf: array<Byte>, i: nat, kv: KeyValue, ghost base: Key) returns (next: nat)
    requires i + 14 <= buf.Length && buf[..i] == base
    modifies buf
    ensures next == i + 14 && buf[..next] == base + Header(kv)
  {
    hide BigEndian;
    var keylength := 2 + |kv.row| + 1 + |kv.family| + |kv.qualifier| + 8 + 1;
    var valuelength := |kv.value|;
    var keyvaluelength := 4 + 4 + keylength + valuelength;
    assert buf[..i] == base + [];
    next := PutAt(buf, i, BigEndian(keyvaluelength, 4), base, []);
    ghost var done := [] + BigEndian(keyvaluelength, 4);
    next := PutAt(buf, next, BigEndian(keylength, 4), base, done);
    done := done + BigEndian(keylength, 4);
    next := PutAt(buf, next, BigEndian(valuelength, 4), base, done);
    done := done + BigEndian(valuelength, 4);
    next := PutAt(buf, next, BigEndian(|kv.row|, 2), base, done);
    assert done + BigEndian(|kv.row|, 2) == Header(kv);
  }

  method AppendCellblock(kv: KeyValue, cbs: Key) returns (out: Key)
    ensures out == cbs + Encode(kv)
  {
    hide BigEndian, Header;
    var buf := new Byte[|cbs| + CellblockLen(kv)](_ => 0);
    assert buf[..0] == [] + [];
    var i := PutAt(buf, 0, cbs, [], []);
    i := PutHeader(buf, i, kv, cbs);
    ghost var done := Header(kv);
    i := PutAt(buf, i, kv.row, cbs, done);
    done := done + kv.row;
    i := PutAt(buf, i, BigEndian(|kv.family|, 1), cbs, done);
    done := done + BigEndian(|kv.family|, 1);
    i := PutAt(buf, i, kv.family, cbs, done);
    done := done + kv.family;
    i := PutAt(buf, i, kv.qualifier, cbs, done);
    done := done + kv.qualifier;
    i := PutAt(buf, i, BigEndian(kv.timestamp, 8), cbs, done);
    done := done + BigEndian(kv.timestamp, 8);
    i := PutAt(buf, i, [kv.kind], cbs, done);
    done := done + [kv.kind];
    i := PutAt(buf, i, kv.value, cbs, done);
    return buf[..i];
  }

  // ----- The parser of one cell

  /** An error return, or Panic for a slice or an index out of range. */
  datatype Parsed = Cell(kv: KeyValue, read: nat) | TooShort | Lied | Panic

  function UintAt(b: Key, i: nat, w: nat): nat
    requires i + w <= |b|
  {
    Uint(b[i..i + w])
  }

  /** cellFromCellBlock by absolute offsets. */
  function Parse(b: Key): Parsed {
    if |b| < 4 || |b| < UintAt(b, 0, 4) + 4 then TooShort
    else if |b| < 14 || |b| < 15 + UintAt(b, 12, 2) then Panic
    else
      var row := UintAt(b, 12, 2);
      var family := b[14 + row];
      if |b| < 15 + row + family then Panic
      else if Wrap(8 + UintAt(b, 4, 4) + UintAt(b, 8, 4)) != UintAt(b, 0, 4) then Lied
      else ParseBody(b, row, family, UintAt(b, 8, 4))
  }

  /** The qualifier takes what the key length leaves over. */
  function ParseBody(b: Key, row: nat, family: nat, value: nat): Parsed
    requires |b| >= 15 + row + family
  {
    var q := 15 + row + family;
    var t := q + Wrap(UintAt(b, 4, 4) - row - family - 12);
    var end := t + 9 + value;
    if |b| < end then Panic
    else Cell(KeyValue(b[14..14 + row], b[15 + row..q], b[q..t], UintAt(b, t, 8), b[t + 8], b[t + 9..end]),
              Wrap(UintAt(b, 0, 4) + 4))
  }

  /** `b[:n]` and `b[n:]`, where `b` is what is left of `all` from `at` on; not ok is a panic. */
  method Take(b: Key, n: nat, ghost all: Key, ghost at: nat) returns (ok: bool, taken: Key, rest: Key)
    requires at <= |all| && b == all[at..]
    ensures ok <==> at + n <= |all|
    ensures ok ==> taken == all[at..at + n] && rest == all[at + n..]
  {
    if |b| < n { return false, [], []; }
    return true, b[..n], b[n..];
  }

  method CellFromCellBlock(buffer: Key) returns (r: Parsed)
    ensures r == Parse(buffer)
  {
    hide Uint, Wrap, ParseBody;
    var b := buffer;
    if |b| < 4 { return TooShort; }
    var kvLen := Uint(b[0..4]);
    if |b| < kvLen + 4 { return TooShort; }
    if |b| < 14 { return Panic; }
    var rowKeyLen: int := Uint(b[4..8]);
    var valueLen := Uint(b[8..12]);
    var keyLen: int := Uint(b[12..14]);
    b := b[14..];

    var ok, key, one, family;
    ok, key, b := Take(b, keyLen, buffer, 14);
    if !ok { return Panic; }
    ghost var at := 14 + keyLen;

    ok, one, b := Take(b, 1, buffer, at);
    if !ok { return Panic; }
    var familyLen: int := one[0];
    at := at + 1;

    ok, family, b := Take(b, familyLen, buffer, at);
    if !ok { return Panic; }

    var qualifierLen: int := Wrap(Wrap(rowKeyLen - keyLen) - familyLen);
    qualifierLen := Wrap(Wrap(Wrap(Wrap(qualifierLen - 2) - 1) - 8) - 1);
    QualifierLength(rowKeyLen, keyLen, familyLen, valueLen);
    if Wrap(4 + 4 + 2 + keyLen + 1 + familyLen + qualifierLen + 8 + 1 + valueLen) != kvLen { return Lied; }
    r := BodyFromCellBlock(b, kvLen, qualifierLen, valueLen, key, family, buffer);
  }

  /** The rest of cellFromCellBlock, after the length check. */
  method BodyFromCellBlock(
      rest: Key, kvLen: nat, qualifierLen: nat, valueLen: nat, key: Key, family: Key, ghost all: Key)
    returns (r: Parsed)
    requires |all| >= 15 + |key| + |family| && rest == all[15 + |key| + |family|..] && key == all[14..14 + |key|]
    requires family == all[15 + |key|..15 + |key| + |family|]
    requires kvLen == UintAt(all, 0, 4) && qualifierLen == Wrap(UintAt(all, 4, 4) - |key| - |family| - 12)
    ensures r == ParseBody(all, |key|, |family|, valueLen)
  {
    hide Uint, Wrap;
    ghost var at := 15 + |key| + |family|;
    var ok, b, qualifier, timestamp, cellType, value;
    ok, qualifier, b := Take(rest, qualifierLen, all, at);
    if !ok { return Panic; }
    at := at + qualifierLen;
    ok, timestamp, b := Take(b, 8, all, at);
    if !ok { return Panic; }
    ok, cellType, b := Take(b, 1, all, at + 8);
    if !ok { return Panic; }
    ok, value, b := Take(b, valueLen, all, at + 9);
    if !ok { return Panic; }
    return Cell(KeyValue(key, family, qualifier, Uint(timestamp), cellType[0], value), Wrap(kvLen + 4));
  }

  /** A conversion to uint32, which every uint32 operation ends in. */
  function Wrap(x: int): (w: nat)
    ensures w < M32
  {
    x % M32
  }

  lemma WrapSmall(x: nat)
    requires x < M32
    ensures Wrap(x) == x
  {
  }

  lemma WrapOnce(x: int, y: int)
    ensures Wrap(Wrap(x) + y) == Wrap(x + y)
  {
  }

  /** What the length check compares, wrap-around or not. */
  lemma QualifierLength(rowKeyLen: int, keyLen: int, familyLen: int, valueLen: int)
    ensures var q := Wrap(Wrap(rowKeyLen - keyLen) - familyLen);
      var q' := Wrap(Wrap(Wrap(Wrap(q - 2) - 1) - 8) - 1);
      && q' == Wrap(rowKeyLen - keyLen - familyLen - 12)
      && Wrap(4 + 4 + 2 + keyLen + 1 + familyLen + q' + 8 + 1 + valueLen) == Wrap(8 + rowKeyLen + valueLen)
  {
    hide Wrap;
    var n := rowKeyLen - keyLen;
    WrapOnce(n, -familyLen);
    WrapOnce(n - familyLen, -2);
    WrapOnce(n - familyLen - 2, -1);
    WrapOnce(n - familyLen - 3, -8);
    WrapOnce(n - familyLen - 11, -1);
    WrapOnce(n - familyLen - 12, 20 + keyLen + familyLen + valueLen);
  }

  // ----- Printing and parsing are inverse to each other

  lemma PartAt(pre: Key, part: Key, b: Key)
    requires pre + part <= b
    ensures b[|pre|..|pre| + |part|] == part && pre <= b
  {
    assert forall i :: 0 <= i < |part| ==> b[|pre| + i] == (pre + part)[|pre| + i] == part[i];
  }

  /** The header fields of a buffer that starts with a cell. */
  lemma HeaderFields(kv: KeyValue, b: Key)
    requires Fits(kv) && Encode(kv) <= b
    ensures |b| >= CellblockLen(kv)
    ensures UintAt(b, 0, 4) == CellblockLen(kv) - 4 && UintAt(b, 4, 4) == KeyLength(kv)
    ensures UintAt(b, 8, 4) == |kv.value| && UintAt(b, 12, 2) == |kv.row|
  {
    hide BigEndian, Uint, Power256;
    Powers();
    var total, key, value := BigEndian(CellblockLen(kv) - 4, 4), BigEndian(KeyLength(kv), 4), BigEndian(|kv.value|, 4);
    UintOfBigEndian(CellblockLen(kv) - 4, 4);
    UintOfBigEndian(KeyLength(kv), 4);
    UintOfBigEndian(|kv.value|, 4);
    UintOfBigEndian(|kv.row|, 2);
    assert Header(kv) <= Encode(kv);
    PartAt(total + key + value, BigEndian(|kv.row|, 2), b);
    PartAt(total + key, value, b);
    PartAt(total, key, b);
    PartAt([], total, b);
  }

  /** The fields after the header. */
  lemma BodyFields(kv: KeyValue, b: Key)
    requires Fits(kv) && Encode(kv) <= b
    ensures |b| >= CellblockLen(kv)
    ensures var q := 15 + |kv.row| + |kv.family|;
      var t := q + |kv.qualifier|;
      && b[14..14 + |kv.row|] == kv.row && b[14 + |kv.row|] == |kv.family| && b[15 + |kv.row|..q] == kv.family
      && b[q..t] == kv.qualifier && UintAt(b, t, 8) == kv.timestamp && b[t + 8] == kv.kind
      && b[t + 9..t + 9 + |kv.value|] == kv.value
  {
    hide Uint, Power256, BigEndian, Header;
    Powers();
    OneByte(|kv.family|);
    UintOfBigEndian(kv.timestamp, 8);
    var pre0 := Header(kv);
    var pre1 := pre0 + kv.row;
    var pre2 := pre1 + BigEndian(|kv.family|, 1);
    var pre3 := pre2 + kv.family;
    var pre4 := pre3 + kv.qualifier;
    var pre5 := pre4 + BigEndian(kv.timestamp, 8);
    PartAt(pre5 + [kv.kind], kv.value, b);
    PartAt(pre5, [kv.kind], b);
    PartAt(pre4, BigEndian(kv.timestamp, 8), b);
    PartAt(pre3, kv.qualifier, b);
    PartAt(pre2, kv.family, b);
    PartAt(pre1, BigEndian(|kv.family|, 1), b);
    PartAt(pre0, kv.row, b);
  }

  lemma OneByte(n: nat)
    requires n < 256
    ensures BigEndian(n, 1) == [n]
  {
    assert BigEndian(n / 256, 0) == [];
  }

  /** A buffer that starts with a cell is parsed to that cell, and to nothing more. */
  lemma ParseComplete(kv: KeyValue, b: Key)
    requires Fits(kv) && Encode(kv) <= b
    ensures Parse(b) == Cell(kv, CellblockLen(kv))
  {
    hide Encode, Uint, UintAt, Wrap;
    HeaderFields(kv, b);
    BodyFields(kv, b);
    WrapSmall(CellblockLen(kv) - 4);
    WrapSmall(|kv.qualifier|);
    WrapSmall(CellblockLen(kv));
  }

  lemma NoWrap(kvLen: nat, key: nat, value: nat, row: nat, family: nat, qualifier: nat)
    requires kvLen + 4 < M32 && key < M32 && value < M32 && kvLen == Wrap(8 + key + value)
    requires qualifier == Wrap(key - row - family - 12) && 24 + row + family + qualifier + value < M32
    ensures key == row + family + qualifier + 12 && kvLen == 8 + key + value && Wrap(kvLen + 4) == kvLen + 4
  {
    assert 0 <= key - row - family - 12 + M32;
    assert qualifier == key - row - family - 12 || qualifier == key - row - family - 12 + M32;
  }

  /** The lengths of an accepted cell are what the header says, without wrap-around. */
  lemma ParseLengths(b: Key)
    requires |b| < M32 && Parse(b).Cell?
    ensures var r := Parse(b);
      && Fits(r.kv) && r.read == CellblockLen(r.kv) <= |b|
      && UintAt(b, 0, 4) == CellblockLen(r.kv) - 4 && UintAt(b, 4, 4) == KeyLength(r.kv)
      && UintAt(b, 8, 4) == |r.kv.value| && UintAt(b, 12, 2) == |r.kv.row|
  {
    hide Uint, Power256, BigEndian, Wrap;
    Powers();
    BigEndianOfUint(b[0..4]);
    BigEndianOfUint(b[4..8]);
    BigEndianOfUint(b[8..12]);
    BigEndianOfUint(b[12..14]);
    var row := UintAt(b, 12, 2);
    var qualifier := Wrap(UintAt(b, 4, 4) - row - b[14 + row] - 12);
    NoWrap(UintAt(b, 0, 4), UintAt(b, 4, 4), UintAt(b, 8, 4), row, b[14 + row], qualifier);
    var t := 15 + row + b[14 + row] + qualifier;
    BigEndianOfUint(b[t..t + 8]);
  }

  lemma HeaderSound(b: Key)
    requires |b| < M32 && Parse(b).Cell?
    ensures b[..14] == Header(Parse(b).kv)
  {
    hide Uint, Power256, BigEndian, Parse;
    ParseLengths(b);
    BigEndianOfUint(b[0..4]);
    BigEndianOfUint(b[4..8]);
    BigEndianOfUint(b[8..12]);
    BigEndianOfUint(b[12..14]);
  }

  lemma ParsedSlices(b: Key)
    requires |b| < M32 && Parse(b).Cell?
    ensures var kv := Parse(b).kv;
      var f, q := 14 + |kv.row|, 15 + |kv.row| + |kv.family|;
      var t := q + |kv.qualifier|;
      && CellblockLen(kv) == t + 9 + |kv.value| <= |b|
      && kv.row == b[14..f] && |kv.family| == b[f] && kv.family == b[f + 1..q] && kv.qualifier == b[q..t]
      && kv.timestamp == Uint(b[t..t + 8]) && kv.kind == b[t + 8] && kv.value == b[t + 9..t + 9 + |kv.value|]
  {
    hide Uint, Wrap, Fits;
    ParseLengths(b);
  }

  /** A cell that is accepted from a buffer shorter than 2^32 prints to the bytes that were read. */
  lemma ParseSound(b: Key)
    requires |b| < M32 && Parse(b).Cell?
    ensures var r := Parse(b); Fits(r.kv) && r.read == CellblockLen(r.kv) <= |b| && b[..r.read] == Encode(r.kv)
  {
    hide Uint, Power256, BigEndian, Header, Parse;
    ParseLengths(b);
    ParsedSlices(b);
    HeaderSound(b);
    var kv := Parse(b).kv;
    var f, q := 14 + |kv.row|, 15 + |kv.row| + |kv.family|;
    var t := q + |kv.qualifier|;
    OneByte(|kv.family|);
    BigEndianOfUint(b[t..t + 8]);
    Slices(b, f, q, t, t + 9 + |kv.value|);
  }

  lemma Slices(b: Key, f: nat, q: nat, t: nat, end: nat)
    requires 14 <= f < q <= t && t + 9 <= end <= |b|
    ensures b[..end] == b[..14] + b[14..f] + [b[f]] + b[f + 1..q] + b[q..t] + b[t..t + 8] + [b[t + 8]] + b[t + 9..end]
  {
    assert b[..f] == b[..14] + b[14..f];
    assert b[..f + 1] == b[..f] + [b[f]];
    assert b[..q] == b[..f + 1] + b[f + 1..q];
    assert b[..t] == b[..q] + b[q..t];
    assert b[..t + 8] == b[..t] + b[t..t + 8];
    assert b[..t + 9] == b[..t + 8] + [b[t + 8]];
    assert b[..end] == b[..t + 9] + b[t + 9..end];
  }

  /** No cell is the beginning of another: what follows cannot change how a cell is read. */
  lemma EncodePrefixFree(a: KeyValue, c: KeyValue, b: Key)
    requires Fits(a) && Fits(c) && Encode(a) <= b && Encode(c) <= b
    ensures a == c
  {
    ParseComplete(a, b);
    ParseComplete(c, b);
  }

  /** A cell that is cut short is an error, whatever is missing, and never a panic. */
  lemma TruncatedCellIsTooShort(kv: KeyValue, n: nat)
    requires Fits(kv) && n < CellblockLen(kv)
    ensures Parse(Encode(kv)[..n]) == TooShort
  {
    hide Encode;
    var b := Encode(kv);
    HeaderFields(kv, b);
    if n >= 4 { assert b[..n][0..4] == b[0..4]; }
  }

  // ----- The format, by example

  /** A number in one byte, the others being zero. */
  lemma {:induction false} SmallNumber(n: nat, w: nat)
    requires n < 256 && w > 0
    ensures BigEndian(n, w) == seq(w - 1, _ => 0) + [n]
  {
    if w == 1 {
      OneByte(n);
    } else {
      SmallNumber(0, w - 1);
      assert seq(w - 2, _ => 0) + [0] == seq(w - 1, _ => 0);
    }
  }

  /** The most significant byte comes first. */
  lemma BigEndianExample()
    ensures BigEndian(0x0102, 2) == [1, 2] && Uint([1, 2]) == 0x0102
  {
    OneByte(1);
    assert BigEndian(0x0102, 2) == BigEndian(1, 1) + [2];
    assert [1, 2][..1] == [1] && [1][..0] == [];
  }

  /** Row "key", family "cf", qualifier "q", timestamp 42, type 4 and value "value", byte by byte. */
  lemma CellExample()
    ensures Encode(KeyValue([107, 101, 121], [99, 102], [113], 42, 4, [118, 97, 108, 117, 101])) ==
      [0, 0, 0, 31, 0, 0, 0, 18, 0, 0, 0, 5, 0, 3, 107, 101, 121, 2, 99, 102, 113, 0, 0, 0, 0, 0, 0, 0, 42, 4,
       118, 97, 108, 117, 101]
  {
    hide BigEndian;
    SmallNumber(31, 4);
    SmallNumber(18, 4);
    SmallNumber(5, 4);
    SmallNumber(3, 2);
    SmallNumber(2, 1);
    SmallNumber(42, 8);
  }
}
