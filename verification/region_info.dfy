/** Region descriptors and their mutable state (region/info.go). */
module RegionInfo {
  import opened Bytes
  import opened RegionName

  const COLON: Byte := 58

  /** math.MaxInt16, the longest row HBase accepts in its meta table. */
  const MAX_ROW_LENGTH: nat := 32767

  /** The immutable fields of an info. A region whose stop key is empty is the last of its table. */
  datatype Region = Region(id: nat, namespace: Option<Key>, table: Key, name: Key, start: Key, stop: Key)

  /** A namespace as `bytes.Equal` sees it: nil and empty are the same. */
  function NamespaceBytes(r: Region): Key {
    if r.namespace.Some? then r.namespace.value else []
  }

  function FullyQualifiedTable(r: Region): Key {
    if r.namespace.None? then r.table else r.namespace.value + [COLON] + r.table
  }

  /** What follows the last comma of a region's name. */
  function Suffix(r: Region): Key {
    var n := |FullyQualifiedTable(r)| + |r.start| + 2;
    if n <= |r.name| then r.name[n..] else []
  }

  function PartsOf(r: Region): Parts {
    Parts(FullyQualifiedTable(r), r.start, Suffix(r))
  }

  /** What HBase guarantees of every region it lists in meta. */
  predicate WellFormed(r: Region) {
    && (r.namespace.Some? ==> r.namespace.value != [] && COLON !in r.namespace.value && COMMA !in r.namespace.value)
    && COLON !in r.table && COMMA !in r.table
    && r.name == Join(PartsOf(r)) && |r.name| <= MAX_ROW_LENGTH
    && COMMA !in Suffix(r) && Suffix(r) != [] && Suffix(r)[0] < COLON
    && (r.stop == [] || Less(r.start, r.stop))
  }

  /** The half-open key range of a region. */
  predicate Contains(r: Region, k: Key) {
    AtMost(r.start, k) && (r.stop == [] || Less(k, r.stop))
  }

  predicate IsRegionOverlap(a: Region, b: Region) {
    && NamespaceBytes(a) == NamespaceBytes(b)
    && a.table == b.table
    && (b.stop == [] || Less(a.start, b.stop))
    && (a.stop == [] || Less(b.start, a.stop))
  }

  lemma WellFormedParts(r: Region)
    requires WellFormed(r)
    ensures ValidParts(PartsOf(r)) && r.name == Join(PartsOf(r)) && COMMA !in FullyQualifiedTable(r)
    ensures |FullyQualifiedTable(r)| + |r.start| + 3 <= MAX_ROW_LENGTH
  {
    assert |r.name| == |FullyQualifiedTable(r)| + |r.start| + |Suffix(r)| + 2;
  }

  /** A fully qualified name determines the namespace and the table. */
  lemma SameFullyQualifiedTable(a: Region, b: Region)
    requires WellFormed(a) && WellFormed(b)
    ensures FullyQualifiedTable(a) == FullyQualifiedTable(b)
       <==> NamespaceBytes(a) == NamespaceBytes(b) && a.table == b.table
  {
    ColonPosition(a);
    ColonPosition(b);
    if FullyQualifiedTable(a) == FullyQualifiedTable(b) && a.namespace.Some? {
      var f, n := FullyQualifiedTable(a), |a.namespace.value|;
      assert b.namespace.Some? && |b.namespace.value| == n;
      assert a.namespace.value == f[..n] == b.namespace.value;
      assert a.table == f[n + 1..] == b.table;
    }
  }

  lemma ColonPosition(a: Region)
    requires WellFormed(a)
    ensures a.namespace.None? ==> COLON !in FullyQualifiedTable(a)
    ensures a.namespace.Some? ==>
      var f, n := FullyQualifiedTable(a), |a.namespace.value|;
      n < |f| && f[n] == COLON && forall k :: 0 <= k < n ==> f[k] != COLON
  {
    if a.namespace.Some? {
      var f, n := FullyQualifiedTable(a), |a.namespace.value|;
      assert forall k :: 0 <= k < n ==> f[k] == a.namespace.value[k];
    }
  }

  /** Overlap is what its name says: the two regions serve a common key of one table. */
  lemma OverlapMeansSharedKey(a: Region, b: Region)
    requires WellFormed(a) && WellFormed(b)
    ensures IsRegionOverlap(a, b) <==>
      FullyQualifiedTable(a) == FullyQualifiedTable(b) && exists k :: Contains(a, k) && Contains(b, k)
  {
    SameFullyQualifiedTable(a, b);
    if IsRegionOverlap(a, b) {
      LessTotal(a.start, b.start);
      if AtMost(a.start, b.start) {
        assert Contains(a, b.start) && Contains(b, b.start);
      } else {
        assert Contains(a, a.start) && Contains(b, a.start);
      }
    }
    if k :| Contains(a, k) && Contains(b, k) {
      if b.stop != [] && a.start != k { LessTransitive(a.start, k, b.stop); }
      if a.stop != [] && b.start != k { LessTransitive(b.start, k, a.stop); }
    }
  }

  /** The identity of a region client. */
  type ClientId = nat

  /** The identity of the channel created each time a region becomes unavailable. */
  type Channel = nat

  /** The mutable fields of an info: its client and, while it is unavailable, the channel waiters read. */
  datatype Status = Status(client: Option<ClientId>, available: Option<Channel>, dead: bool)

  /** `MarkUnavailable`, given the channel it would create. */
  function Unavailable(s: Status, ch: Channel): Status {
    if s.available.None? then s.(available := Some(ch)) else s
  }

  /** A pointer to an info, and the fields the info never changes. */
  datatype Info = Info(ref: nat, region: Region)
}
