/** Region names and the comparator that orders them (region/info.go). */
module RegionName {
  import opened Bytes

  const COMMA: Byte := 44

  /** `table,start_key,timestamp[.MD5.]`; only the start key may hold commas. */
  datatype Parts = Parts(table: Key, start: Key, suffix: Key)

  predicate ValidParts(p: Parts) {
    COMMA !in p.table && COMMA !in p.suffix
  }

  function Join(p: Parts): Key {
    p.table + [COMMA] + p.start + [COMMA] + p.suffix
  }

  /** Lexicographic order on (table, start key, suffix), as a sign. */
  function Order(p: Parts, q: Parts): int {
    if p.table != q.table then Sign(p.table, q.table)
    else if p.start != q.start then Sign(p.start, q.start)
    else Sign(p.suffix, q.suffix)
  }

  datatype Outcome = Value(v: int) | Panic

  function SignOf(v: int): int {
    if v < 0 then -1 else if v == 0 then 0 else 1
  }

  /** The names agree on every byte up to and including the first comma of `a`. */
  predicate SameTable(a: Key, b: Key) {
    forall i :: 0 <= i < |a| && i < |b| && COMMA !in a[..i] ==> a[i] == b[i]
  }

  /** A name from which a table, a start key and a suffix can be read: it holds two commas. */
  predicate Splittable(a: Key) {
    exists i, j :: 0 <= i < j < |a| && a[i] == COMMA && a[j] == COMMA
  }

  /** The index of the last comma after `offset`, or none, in which case the source panics. */
  method FindCommaFromEnd(b: Key, offset: nat) returns (r: Option<nat>)
    ensures r.Some? ==> offset < r.value < |b| && b[r.value] == COMMA && COMMA !in b[r.value + 1..]
    ensures r.None? ==> forall j :: offset < j < |b| ==> b[j] != COMMA
  {
    var i := |b| - 1;
    while i > offset
      invariant i < |b|
      invariant forall j :: offset < j < |b| && i < j ==> b[j] != COMMA
    {
      if b[i] == COMMA { return Some(i); }
      i := i - 1;
    }
    return None;
  }

  method Compare(a: Key, b: Key) returns (r: Outcome)
    ensures r.Panic? <==> SameTable(a, b) && !(Splittable(a) && Splittable(b))
    ensures forall p, q :: ValidParts(p) && ValidParts(q) && a == Join(p) && b == Join(q) ==>
      r.Value? && SignOf(r.v) == Order(p, q)
  {
    var length := if |a| < |b| then |a| else |b|;
    var i := 0;
    while i < length
      invariant 0 <= i <= length
      invariant a[..i] == b[..i] && COMMA !in a[..i]
    {
      var ai: int, bi: int := a[i], b[i];
      if ai != bi {
        forall p, q | ValidParts(p) && ValidParts(q) && a == Join(p) && b == Join(q)
          ensures Order(p, q) == if ai == COMMA then -1 else if bi == COMMA then 1 else SignOf(ai - bi)
        {
          TablesDiffer(p, q, i);
        }
        if ai == COMMA {
          return Value(-1001);
        } else if bi == COMMA {
          return Value(1001);
        }
        return Value(ai - bi);
      }
      if ai == COMMA { break; }
      i := i + 1;
    }
    TableEndReached(a, b, i);

    var aComma := FindCommaFromEnd(a, i);
    var bComma := FindCommaFromEnd(b, i);
    if aComma.None? || bComma.None? {
      NotSplittable(if aComma.None? then a else b, i);
      forall p | ValidParts(p) && Join(p) in {a, b} ensures Splittable(Join(p)) { JoinAt(p); }
      return Panic;
    }
    var v := CompareKeys(a, b, i, aComma.value, bComma.value);
    PartsUnique(a, PartsAt(a, i, aComma.value));
    PartsUnique(b, PartsAt(b, i, bComma.value));
    return Value(v);
  }

  /** The reading of a name whose first and last commas are at `first` and `last`. */
  ghost function PartsAt(a: Key, first: nat, last: nat): (p: Parts)
    requires Readable(a, first, last)
    ensures ValidParts(p) && Join(p) == a
  {
    Parts(a[..first], a[first + 1..last], a[last + 1..])
  }

  /** The part of Compare after the table names have compared equal. */
  method CompareKeys(a: Key, b: Key, k: nat, ac: nat, bc: nat) returns (v: int)
    requires Readable(a, k, ac) && Readable(b, k, bc) && a[..k] == b[..k]
    ensures SignOf(v) == Order(PartsAt(a, k, ac), PartsAt(b, k, bc))
  {
    var length := if |a| < |b| then |a| else |b|;
    var i := k + 1;
    var firstComma := if ac < bc then ac else bc;
    while i < firstComma
      invariant k + 1 <= i <= firstComma
      invariant a[..i] == b[..i]
    {
      var ai: int, bi: int := a[i], b[i];
      if ai != bi {
        StartsDiffer(a, b, k, ac, bc, i);
        return ai - bi;
      }
      i := i + 1;
    }
    if ac < bc {
      ShorterStart(a, b, k, ac, bc);
      return -1002;
    } else if bc < ac {
      ShorterStart(b, a, k, bc, ac);
      return 1002;
    }
    while i < length
      invariant ac <= i <= length
      invariant a[..i] == b[..i]
    {
      var ai: int, bi: int := a[i], b[i];
      if ai != bi {
        SuffixesDiffer(a, b, k, ac, i);
        return ai - bi;
      }
      i := i + 1;
    }
    SuffixPrefix(a, b, k, ac);
    return |a| - |b|;
  }

  // ----- Steps of the proof of Compare

  lemma JoinAt(p: Parts)
    requires ValidParts(p)
    ensures Join(p)[..|p.table|] == p.table && Join(p)[|p.table|] == COMMA
    ensures Join(p)[|p.table| + 1..|p.table| + 1 + |p.start|] == p.start
    ensures Join(p)[|p.table| + 1 + |p.start|] == COMMA
    ensures Join(p)[|p.table| + |p.start| + 2..] == p.suffix
    ensures |Join(p)| == |p.table| + |p.start| + |p.suffix| + 2
    ensures Splittable(Join(p))
    ensures forall k :: 0 <= k < |p.table| ==> Join(p)[k] != COMMA
    ensures forall k :: |p.table| + |p.start| + 1 < k < |Join(p)| ==> Join(p)[k] != COMMA
  {
    var n := Join(p);
    assert forall k :: 0 <= k < |p.table| ==> n[k] == p.table[k];
    assert forall k :: |p.table| + |p.start| + 1 < k < |n| ==> n[k] == p.suffix[k - |p.table| - |p.start| - 2];
    assert n[|p.table|] == COMMA && n[|p.table| + 1 + |p.start|] == COMMA;
  }

  /** A name has only one reading. */
  lemma PartsUnique(a: Key, p: Parts)
    requires ValidParts(p) && a == Join(p)
    ensures forall q :: ValidParts(q) && a == Join(q) ==> q == p
  {
    forall q | ValidParts(q) && a == Join(q)
      ensures q == p
    {
      JoinAt(p);
      JoinAt(q);
      assert |p.table| == |q.table|;
      assert |p.suffix| == |q.suffix|;
    }
  }

  lemma TablesDiffer(p: Parts, q: Parts, i: nat)
    requires ValidParts(p) && ValidParts(q)
    requires i < |Join(p)| && i < |Join(q)| && Join(p)[..i] == Join(q)[..i] && COMMA !in Join(p)[..i]
    requires Join(p)[i] != Join(q)[i]
    ensures Order(p, q) == if Join(p)[i] == COMMA then -1 else if Join(q)[i] == COMMA then 1
                           else if Join(p)[i] < Join(q)[i] then -1 else 1
  {
    hide Less;
    var a, b := Join(p), Join(q);
    JoinAt(p);
    JoinAt(q);
    assert forall k :: 0 <= k < i ==> a[..i][k] == a[k] && b[..i][k] == b[k];
    assert i <= |p.table| && i <= |q.table|;
    assert p.table[..i] == a[..i] == b[..i] == q.table[..i];
    if a[i] == COMMA {
      assert p.table < q.table;
      PrefixLess(p.table, q.table);
    } else if b[i] == COMMA {
      assert q.table < p.table;
      PrefixLess(q.table, p.table);
      LessAsymmetric(q.table, p.table);
    } else {
      assert i < |p.table| && i < |q.table|;
      assert p.table[i] == a[i] && q.table[i] == b[i];
      LessAtDifference(p.table, q.table, i);
    }
  }

  lemma TableEndReached(a: Key, b: Key, i: nat)
    requires i <= |a| && i <= |b| && a[..i] == b[..i] && COMMA !in a[..i]
    requires i == |a| || i == |b| || a[i] == b[i] == COMMA
    ensures SameTable(a, b)
  {
    forall j | 0 <= j < |a| && j < |b| && COMMA !in a[..j]
      ensures a[j] == b[j]
    {
      assert forall k :: 0 <= k < j ==> a[..j][k] == a[k];
      if j < i {
        assert a[j] == a[..i][j] == b[..i][j];
      }
    }
  }

  lemma NotSplittable(a: Key, i: nat)
    requires i <= |a| && COMMA !in a[..i] && forall j :: i < j < |a| ==> a[j] != COMMA
    ensures !Splittable(a)
  {
    assert forall k :: 0 <= k < i ==> a[..i][k] == a[k];
  }

  /** Two names with commas in the right places for PartsAt. */
  ghost predicate Readable(a: Key, k: nat, c: nat) {
    k < c < |a| && a[k] == COMMA && a[c] == COMMA && COMMA !in a[..k] && COMMA !in a[c + 1..]
  }

  lemma SlicesAgree(a: Key, b: Key, n: nat, i: nat, j: nat)
    requires i <= j <= n <= |a| && n <= |b| && a[..n] == b[..n]
    ensures a[i..j] == b[i..j]
  {
    assert a[i..j] == a[..n][i..j] && b[i..j] == b[..n][i..j];
  }

  lemma StartsDiffer(a: Key, b: Key, k: nat, ac: nat, bc: nat, i: nat)
    requires Readable(a, k, ac) && Readable(b, k, bc)
    requires k < i < ac && i < bc && a[..i] == b[..i] && a[i] != b[i]
    ensures Order(PartsAt(a, k, ac), PartsAt(b, k, bc)) == if a[i] < b[i] then -1 else 1
  {
    hide Less;
    var x, y := a[k + 1..ac], b[k + 1..bc];
    SlicesAgree(a, b, i, 0, k);
    SlicesAgree(a, b, i, k + 1, i);
    assert x[..i - k - 1] == a[k + 1..i] && y[..i - k - 1] == b[k + 1..i];
    assert x[i - k - 1] == a[i] && y[i - k - 1] == b[i];
    LessAtDifference(x, y, i - k - 1);
  }

  lemma ShorterStart(a: Key, b: Key, k: nat, ac: nat, bc: nat)
    requires Readable(a, k, ac) && Readable(b, k, bc) && ac < bc && a[..ac] == b[..ac]
    ensures Order(PartsAt(a, k, ac), PartsAt(b, k, bc)) == -1
    ensures Order(PartsAt(b, k, bc), PartsAt(a, k, ac)) == 1
  {
    hide Less;
    var x, y := a[k + 1..ac], b[k + 1..bc];
    SlicesAgree(a, b, ac, 0, k);
    SlicesAgree(a, b, ac, k + 1, ac);
    assert y[..|x|] == b[k + 1..ac];
    PrefixLess(x, y);
    LessAsymmetric(x, y);
  }

  lemma SuffixesDiffer(a: Key, b: Key, k: nat, c: nat, i: nat)
    requires Readable(a, k, c) && Readable(b, k, c) && c <= i < |a| && i < |b| && a[..i] == b[..i] && a[i] != b[i]
    ensures Order(PartsAt(a, k, c), PartsAt(b, k, c)) == if a[i] < b[i] then -1 else 1
  {
    hide Less;
    assert i > c;
    var x, y := a[c + 1..], b[c + 1..];
    SlicesAgree(a, b, i, 0, k);
    SlicesAgree(a, b, i, k + 1, c);
    SlicesAgree(a, b, i, c + 1, i);
    assert x[..i - c - 1] == a[c + 1..i] && y[..i - c - 1] == b[c + 1..i];
    assert x[i - c - 1] == a[i] && y[i - c - 1] == b[i];
    LessAtDifference(x, y, i - c - 1);
  }

  lemma SuffixPrefix(a: Key, b: Key, k: nat, c: nat)
    requires Readable(a, k, c) && Readable(b, k, c)
    requires var n := if |a| < |b| then |a| else |b|; a[..n] == b[..n]
    ensures Order(PartsAt(a, k, c), PartsAt(b, k, c)) == SignOf(|a| - |b|)
  {
    hide Less;
    var n := if |a| < |b| then |a| else |b|;
    var x, y := a[c + 1..], b[c + 1..];
    SlicesAgree(a, b, n, 0, k);
    SlicesAgree(a, b, n, k + 1, c);
    SlicesAgree(a, b, n, c + 1, n);
    assert x[..n - c - 1] == a[c + 1..n] && y[..n - c - 1] == b[c + 1..n];
    if |a| < |b| {
      PrefixLess(x, y);
    } else if |b| < |a| {
      PrefixLess(y, x);
      LessAsymmetric(y, x);
    }
  }

  // ----- Compare orders names strictly and totally

  lemma OrderAntisymmetric(p: Parts, q: Parts)
    ensures Order(p, q) == -Order(q, p)
    ensures Order(p, q) == 0 <==> p == q
  {
    SignAntisymmetric(p.table, q.table);
    SignAntisymmetric(p.start, q.start);
    SignAntisymmetric(p.suffix, q.suffix);
  }

  lemma SignAntisymmetric(a: Key, b: Key)
    ensures Sign(a, b) == -Sign(b, a)
  {
    LessTotal(a, b);
    if Less(a, b) { LessAsymmetric(a, b); } else if Less(b, a) { LessAsymmetric(b, a); }
  }

  lemma OrderTransitive(p: Parts, q: Parts, r: Parts)
    requires Order(p, q) < 0 && Order(q, r) < 0
    ensures Order(p, r) < 0
  {
    if p.table != q.table && q.table != r.table {
      LessTransitive(p.table, q.table, r.table);
      LessIrreflexive(p.table);
    } else if p.table == q.table == r.table {
      if p.start != q.start && q.start != r.start {
        LessTransitive(p.start, q.start, r.start);
        LessIrreflexive(p.start);
      } else if p.start == q.start == r.start {
        LessTransitive(p.suffix, q.suffix, r.suffix);
        LessIrreflexive(p.suffix);
      }
    }
  }
}
