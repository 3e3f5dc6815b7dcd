/** Byte strings and the lexicographic order that Go's `bytes.Compare` implements. */
module Bytes {

  type Byte = b: int | 0 <= b < 256

  type Key = seq<Byte>

  datatype Option<+T> = None | Some(value: T)

  /** `bytes.Compare(a, b) < 0`. */
  predicate Less(a: Key, b: Key) {
    b != [] && (a == [] || a[0] < b[0] || (a[0] == b[0] && Less(a[1..], b[1..])))
  }

  /** `bytes.Compare(a, b) <= 0`. */
  predicate AtMost(a: Key, b: Key) {
    a == b || Less(a, b)
  }

  /** The sign of `bytes.Compare(a, b)`. */
  function Sign(a: Key, b: Key): int {
    if a == b then 0 else if Less(a, b) then -1 else 1
  }

  lemma {:induction false} LessIrreflexive(a: Key)
    ensures !Less(a, a)
  {
    if a != [] { LessIrreflexive(a[1..]); }
  }

  lemma {:induction false} LessTransitive(a: Key, b: Key, c: Key)
    requires Less(a, b) && Less(b, c)
    ensures Less(a, c)
  {
    if a != [] && a[0] == b[0] == c[0] { LessTransitive(a[1..], b[1..], c[1..]); }
  }

  lemma {:induction false} LessTotal(a: Key, b: Key)
    ensures Less(a, b) || a == b || Less(b, a)
  {
    if a != [] && b != [] && a[0] == b[0] {
      LessTotal(a[1..], b[1..]);
      assert a == [a[0]] + a[1..] && b == [b[0]] + b[1..];
    }
  }

  lemma LessAsymmetric(a: Key, b: Key)
    requires Less(a, b)
    ensures a != b && !Less(b, a)
  {
    LessIrreflexive(a);
    if Less(b, a) { LessTransitive(a, b, a); }
  }

  /** Dropping a common prefix does not change the order. */
  lemma {:induction false} LessAfterPrefix(a: Key, b: Key, i: nat)
    requires i <= |a| && i <= |b| && a[..i] == b[..i]
    ensures Less(a, b) == Less(a[i..], b[i..])
  {
    if i == 0 {
      assert a[0..] == a && b[0..] == b;
    } else {
      assert a[0] == a[..i][0] == b[..i][0] == b[0];
      assert a[1..][..i - 1] == a[..i][1..] == b[..i][1..] == b[1..][..i - 1];
      LessAfterPrefix(a[1..], b[1..], i - 1);
      assert a[1..][i - 1..] == a[i..] && b[1..][i - 1..] == b[i..];
      LessIrreflexive([a[0]]);
    }
  }

  /** Two strings that differ at `i` after agreeing before it are ordered by that byte. */
  lemma LessAtDifference(a: Key, b: Key, i: nat)
    requires i < |a| && i < |b| && a[..i] == b[..i] && a[i] != b[i]
    ensures Less(a, b) == (a[i] < b[i])
    ensures a != b
  {
    LessAfterPrefix(a, b, i);
  }

  /** A proper prefix is smaller. */
  lemma PrefixLess(a: Key, b: Key)
    requires a < b
    ensures Less(a, b)
  {
    assert b[..|a|] == a[..|a|] == a;
    LessAfterPrefix(a, b, |a|);
  }

  /** Sums of byte-string lengths, for buffers handed over in pieces. */
  function Concat(parts: seq<Key>): Key {
    if parts == [] then [] else parts[0] + Concat(parts[1..])
  }

  lemma {:induction false} ConcatAppend(a: seq<Key>, b: seq<Key>)
    ensures Concat(a + b) == Concat(a) + Concat(b)
  {
    if a == [] {
      assert a + b == b;
    } else {
      assert (a + b)[1..] == a[1..] + b;
      ConcatAppend(a[1..], b);
    }
  }
}
