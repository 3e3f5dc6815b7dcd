/**
 The key -> region cache (caches.go) and the lookup that uses it (rpc.go). The B-tree is a
 sequence kept in the order of Compare; its enumerators move over that sequence.
 */
module RegionCache {
  import opened Bytes
  import opened RegionName
  import opened RegionInfo
  import opened Sequences

  // ----- What a cache holds

  /** The order of the tree. */
  predicate Before(a: Info, b: Info) {
    Order(PartsOf(a.region), PartsOf(b.region)) < 0
  }

  predicate Apart(a: Info, b: Info) {
    !IsRegionOverlap(a.region, b.region)
  }

  predicate Good(e: Info) {
    WellFormed(e.region)
  }

  /** Entries are well formed, in strict order, and no two regions of a table share a key. */
  ghost predicate CacheInv(es: seq<Info>) {
    Ordered(es) && Pairwise(es, Apart)
  }

  ghost predicate Ordered(es: seq<Info>) {
    All(es, Good) && Pairwise(es, Before)
  }

  function Overlapping(reg: Region): Info -> bool {
    (e: Info) => IsRegionOverlap(e.region, reg)
  }

  function NotOverlapping(reg: Region): Info -> bool {
    (e: Info) => !IsRegionOverlap(e.region, reg)
  }

  function NotCalled(name: Key): Info -> bool {
    (e: Info) => e.region.name != name
  }

  /** The linear filter that getOverlaps has to agree with. */
  function Overlaps(es: seq<Info>, reg: Region): seq<Info> {
    Filter(es, Overlapping(reg))
  }

  predicate HasName(es: seq<Info>, name: Key) {
    exists i :: 0 <= i < |es| && es[i].region.name == name
  }

  predicate AllAtMostAsYoung(os: seq<Info>, id: nat) {
    forall i :: 0 <= i < |os| ==> os[i].region.id <= id
  }

  predicate Replaces(es: seq<Info>, e: Info) {
    !HasName(es, e.region.name) && AllAtMostAsYoung(Overlaps(es, e.region), e.region.id)
  }

  /** The cache after `put(e)`. */
  function AfterPut(es: seq<Info>, e: Info): seq<Info> {
    if Replaces(es, e) then Insert(Filter(es, NotOverlapping(e.region)), e, Before) else es
  }

  /** The cache after `del` of a region called `name`. */
  function AfterDel(es: seq<Info>, name: Key): seq<Info> {
    Filter(es, NotCalled(name))
  }

  // ----- Order facts

  lemma NamesOrder(a: Region, b: Region)
    requires WellFormed(a) && WellFormed(b)
    ensures Order(PartsOf(a), PartsOf(b)) == 0 <==> a.name == b.name
  {
    WellFormedParts(a);
    WellFormedParts(b);
    OrderAntisymmetric(PartsOf(a), PartsOf(b));
    PartsUnique(a.name, PartsOf(a));
  }

  /** In a cache, a region of the same table further right starts at or after the other's stop. */
  lemma DisjointInOrder(es: seq<Info>, i: nat, j: nat)
    requires CacheInv(es) && i < j < |es|
    requires FullyQualifiedTable(es[i].region) == FullyQualifiedTable(es[j].region)
    ensures es[i].region.stop != [] && AtMost(es[i].region.stop, es[j].region.start)
    ensures Less(es[i].region.start, es[j].region.start)
  {
    var a, b := es[i].region, es[j].region;
    SameFullyQualifiedTable(a, b);
    assert Order(PartsOf(a), PartsOf(b)) < 0;
    assert !IsRegionOverlap(a, b);
    LessTotal(a.start, b.start);
    if b.stop != [] && a.start != b.start { LessTransitive(a.start, b.start, b.stop); }
    assert b.stop == [] || Less(a.start, b.stop);
    LessTotal(a.stop, b.start);
  }

  // ----- The tree

  /** The enumerator of the B-tree: `hit` is false only after a Seek that missed; EOF is sticky. */
  class Enumerator {
    const items: seq<Info>
    var pos: nat
    var hit: bool
    var eof: bool

    ghost predicate Valid()
      reads this
    {
      pos <= |items| && (hit && !eof ==> pos < |items|)
    }

    constructor (items: seq<Info>, pos: nat, hit: bool)
      requires pos <= |items| && (hit ==> pos < |items|)
      ensures Valid() && this.items == items && this.pos == pos && this.hit == hit && !eof
    {
      this.items, this.pos, this.hit, this.eof := items, pos, hit, false;
    }

    /** Returns the current item and moves right. */
    method Next() returns (v: Option<Info>)
      requires Valid()
      modifies this
      ensures Valid()
      ensures old(eof) || old(pos) == |items| ==> v.None? && eof && pos == old(pos)
      ensures !old(eof) && old(pos) < |items| ==>
        v == Some(items[old(pos)]) && pos == old(pos) + 1 && eof == (pos == |items|)
    {
      if eof { return None; }
      if pos >= |items| {
        eof := true;
        return None;
      }
      v := Some(items[pos]);
      hit := true;
      pos := pos + 1;
      if pos == |items| { eof := true; }
    }

    /** Returns the current item, or the one before it after a missed Seek, and moves left. */
    method Prev() returns (v: Option<Info>)
      requires Valid()
      modifies this
      ensures Valid()
      ensures old(eof) ==> v.None? && eof && pos == old(pos)
      ensures !old(eof) && !old(hit) && old(pos) == 0 ==> v.None? && eof
      ensures !old(eof) && !old(hit) && old(pos) > 0 ==>
        v == Some(items[old(pos) - 1]) && eof == (old(pos) == 1) && (old(pos) > 1 ==> pos == old(pos) - 2)
      ensures !old(eof) && old(hit) ==>
        v == Some(items[old(pos)]) && eof == (old(pos) == 0) && (old(pos) > 0 ==> pos == old(pos) - 1)
    {
      if eof { return None; }
      if !hit {
        if pos == 0 {
          eof := true;
          return None;
        }
        pos := pos - 1;
      }
      v := Some(items[pos]);
      hit := true;
      if pos == 0 { eof := true; } else { pos := pos - 1; }
    }
  }

  datatype Found = Hit(info: Info) | Missing | Fatal

  /** The parts of the key that createRegionSearchKey builds. */
  function SearchParts(table: Key, key: Key): Parts
    requires |table| + 3 <= MAX_ROW_LENGTH
  {
    var n := MAX_ROW_LENGTH - |table| - 3;
    Parts(table, if |key| < n then key else key[..n], [COLON])
  }

  /** None when the table name leaves no room for a key: slicing the key then panics. */
  method CreateRegionSearchKey(table: Key, key: Key) returns (r: Option<Key>)
    ensures r.Some? <==> |table| + 3 <= MAX_ROW_LENGTH
    ensures r.Some? ==> r.value == Join(SearchParts(table, key)) && |r.value| <= MAX_ROW_LENGTH
  {
    var keylen := MAX_ROW_LENGTH - |table| - 3;
    if |key| < keylen { keylen := |key|; }
    if keylen < 0 { return None; }
    var metaKey: Key := [];
    metaKey := metaKey + table;
    metaKey := metaKey + [COMMA];
    metaKey := metaKey + key[..keylen];
    metaKey := metaKey + [COMMA];
    metaKey := metaKey + [COLON];
    assert key[..|key|] == key;
    return Some(metaKey);
  }

  /** Against a search key, only table and start key decide: truncation loses nothing. */
  lemma SearchOrder(r: Region, table: Key, key: Key)
    requires WellFormed(r) && |table| + 3 <= MAX_ROW_LENGTH
    ensures Order(PartsOf(r), SearchParts(table, key)) != 0
    ensures FullyQualifiedTable(r) == table ==>
      (Order(PartsOf(r), SearchParts(table, key)) < 0 <==> AtMost(r.start, key))
  {
    WellFormedParts(r);
    var p, q := PartsOf(r), SearchParts(table, key);
    assert Less(p.suffix, q.suffix);
    LessAsymmetric(p.suffix, q.suffix);
    SignAntisymmetric(p.table, q.table);
    SignAntisymmetric(p.start, q.start);
    if p.table == table { TruncatedKey(r.start, key, |q.start|); }
  }

  lemma TruncatedKey(start: Key, key: Key, n: nat)
    requires n <= |key| && (n == |key| || |start| <= n)
    ensures AtMost(start, key[..n]) <==> AtMost(start, key)
  {
    if n == |key| {
      assert key[..n] == key;
    } else {
      PrefixLess(key[..n], key);
      if AtMost(start, key[..n]) && start != key[..n] { LessTransitive(start, key[..n], key); }
      if AtMost(start, key) { ShortAtMostPrefix(start, key, n); }
    }
  }

  lemma {:induction false} ShortAtMostPrefix(start: Key, key: Key, n: nat)
    requires |start| <= n <= |key| && AtMost(start, key)
    ensures AtMost(start, key[..n])
  {
    if start != [] && start[0] == key[0] {
      assert start == [start[0]] + start[1..] && key == [key[0]] + key[1..];
      LessIrreflexive(start);
      ShortAtMostPrefix(start[1..], key[1..], n - 1);
      assert key[..n][1..] == key[1..][..n - 1];
      if start[1..] == key[..n][1..] { assert start == key[..n]; }
    }
  }

  class KeyRegionCache {
    var regions: seq<Info>
    /** The infos whose context this cache has cancelled, to make their establishers give up. */
    var dead: set<Info>

    ghost predicate Valid()
      reads this
    {
      CacheInv(regions)
    }

    constructor ()
      ensures Valid() && regions == [] && dead == {}
    {
      regions, dead := [], {};
    }

    /** Positions an enumerator at the first entry that does not sort before `key`. */
    method Seek(key: Key, ghost p: Parts) returns (e: Enumerator, ok: bool)
      requires Ordered(regions) && ValidParts(p) && key == Join(p)
      ensures fresh(e) && e.Valid() && e.items == regions && !e.eof && e.hit == ok
      ensures forall i :: 0 <= i < e.pos ==> Order(PartsOf(regions[i].region), p) < 0
      ensures forall i :: e.pos <= i < |regions| ==> Order(PartsOf(regions[i].region), p) >= 0
      ensures ok <==> e.pos < |regions| && Order(PartsOf(regions[e.pos].region), p) == 0
      ensures forall i :: e.pos <= i < |regions| && (i > e.pos || !ok) ==> Order(PartsOf(regions[i].region), p) > 0
      ensures ok <==> HasName(regions, key)
      ensures ok ==> regions[e.pos].region.name == key
    {
      hide Less, Join, WellFormed;
      var i := 0;
      var c := Value(-1);
      while i < |regions|
        invariant 0 <= i <= |regions|
        invariant forall j :: 0 <= j < i ==> Order(PartsOf(regions[j].region), p) < 0
        decreases |regions| - i
      {
        assert Good(regions[i]);
        WellFormedParts(regions[i].region);
        c := Compare(regions[i].region.name, key);
        assert SignOf(c.v) == Order(PartsOf(regions[i].region), p);
        if c.v >= 0 { break; }
        i := i + 1;
      }
      ok := i < |regions| && c.v == 0;
      SortedAfter(regions, p, i);
      e := new Enumerator(regions, i, ok);
    }

    /** The entry just before a search key. */
    method Get(key: Key, ghost p: Parts) returns (r: Found)
      requires Valid() && ValidParts(p) && key == Join(p)
      ensures r.Fatal? <==> HasName(regions, key)
      ensures r.Hit? ==> exists i: nat :: i < |regions| && IsPredecessor(regions, p, i) && r.info == regions[i]
      ensures r.Missing? ==> forall i :: 0 <= i < |regions| ==> Order(PartsOf(regions[i].region), p) >= 0
    {
      var e, ok := Seek(key, p);
      if ok { return Fatal; }
      ghost var n := e.pos;
      var v := e.Prev();
      if v.None? { return Missing; }
      assert IsPredecessor(regions, p, n - 1);
      return Hit(v.value);
    }

    /** An enumerator at the predecessor of the new region's start, or at the first entry. */
    method OverlapProbe(reg: Region) returns (e: Enumerator, fatal: bool, ghost n: nat)
      requires Valid() && WellFormed(reg) && regions != []
      ensures !fatal && fresh(e) && e.Valid() && e.items == regions && !e.eof
      ensures SeekPosition(regions, reg, n) && e.pos == (if n == 0 then 0 else n - 1) < |regions|
    {
      hide WellFormed, Order, IsRegionOverlap, Join;
      WellFormedParts(reg);
      var table := FullyQualifiedTable(reg);
      var key := CreateRegionSearchKey(table, reg.start);
      NoExactMatch(regions, table, reg.start);
      var ok;
      e, ok := Seek(key.value, SearchParts(table, reg.start));
      n := e.pos;
      fatal := ok;
      var v := e.Prev();
      v := e.Next();
      if v.None? {
        e := new Enumerator(regions, 0, true);
      }
    }

    method GetOverlaps(reg: Region) returns (r: Option<seq<Info>>)
      requires Valid() && WellFormed(reg)
      ensures r == Some(Overlaps(regions, reg))
    {
      hide WellFormed, IsRegionOverlap, SeekPosition, CacheInv, Filter;
      if |regions| == 0 {
        FilterNone(regions, Overlapping(reg));
        return Some([]);
      }
      var e, fatal, n := OverlapProbe(reg);
      ghost var first := e.pos;
      if fatal { return None; }
      var v := e.Next();
      if v.None? { return None; }
      NothingBefore(regions, reg, n);
      OverlapsFrom(regions, reg, first);
      var overlaps: seq<Info> := [];
      if IsRegionOverlap(v.value.region, reg) {
        overlaps := overlaps + [v.value];
      }
      ghost var i := first + 1;
      v := e.Next();
      while v.Some? && IsRegionOverlap(v.value.region, reg)
        invariant first < i <= |regions| && e.Valid() && e.items == regions && fresh(e)
        invariant v.Some? ==> i < |regions| && v.value == regions[i] && e.pos == i + 1 && e.eof == (e.pos == |regions|)
        invariant v.None? ==> i == |regions|
        invariant Overlaps(regions, reg) == overlaps + Overlaps(regions[i..], reg)
        decreases |regions| - i
      {
        OverlapsNext(regions[i..], reg);
        overlaps := overlaps + [v.value];
        assert regions[i..][1..] == regions[i + 1..];
        i := i + 1;
        v := e.Next();
      }
      NothingAfter(regions, reg, n, i);
      assert overlaps + [] == overlaps;
      return Some(overlaps);
    }

    method Delete(name: Key, ghost p: Parts) returns (success: bool)
      requires Ordered(regions) && ValidParts(p) && name == Join(p)
      modifies this`regions
      ensures regions == AfterDel(old(regions), name)
      ensures success == HasName(old(regions), name)
    {
      var e, ok := Seek(name, p);
      if ok {
        DeleteAt(regions, name, e.pos);
        regions := regions[..e.pos] + regions[e.pos + 1..];
      } else {
        FilterEvery(regions, NotCalled(name));
      }
      return ok;
    }

    method Put(reg: Info) returns (overlaps: seq<Info>, replaced: bool)
      requires Valid() && WellFormed(reg.region)
      modifies this
      ensures Valid() && regions == AfterPut(old(regions), reg)
      ensures replaced == Replaces(old(regions), reg)
      ensures !HasName(old(regions), reg.region.name) ==> overlaps == Overlaps(old(regions), reg.region)
      ensures HasName(old(regions), reg.region.name) ==>
        |overlaps| == 1 && overlaps[0] in old(regions) && overlaps[0].region.name == reg.region.name
      ensures dead == if replaced then old(dead) + (set o | o in overlaps) else old(dead)
      ensures replaced ==> reg in regions && forall o :: o in overlaps ==> o.region.id <= reg.region.id
      ensures !replaced ==> regions == old(regions)
      ensures replaced <==> !HasRival(old(regions), reg)
    {
      hide WellFormed, Order, IsRegionOverlap, Join, HasRival, Overlaps, AfterPut, Filter, Insert, HasName;
      WellFormedParts(reg.region);
      PutRefusedIff(regions, reg);
      var e, found := Seek(reg.region.name, PartsOf(reg.region));
      if found {
        assert regions[e.pos] in regions;
        return [regions[e.pos]], false;
      }
      var os := GetOverlaps(reg.region);
      overlaps := os.value;
      var younger := AnyYounger(overlaps, reg.region.id);
      if younger {
        return overlaps, false;
      }
      replaced := true;
      AfterPutInv(regions, reg);
      RankIs(regions, reg, Before, e.pos);
      InsertAt(regions, reg, e.pos);
      regions := regions[..e.pos] + [reg] + regions[e.pos..];
      EvictAll(reg, overlaps, old(regions));
    }

    /** The second half of put: the overlapped regions leave the tree, and their establishers are told. */
    method EvictAll(reg: Info, overlaps: seq<Info>, ghost before: seq<Info>)
      requires CacheInv(before) && WellFormed(reg.region) && Replaces(before, reg)
      requires overlaps == Overlaps(before, reg.region) && regions == Insert(before, reg, Before)
      modifies this
      ensures regions == AfterPut(before, reg)
      ensures dead == old(dead) + (set o | o in overlaps)
    {
      hide WellFormed, Order, IsRegionOverlap, Join, Filter, Rank;
      InsertOrdered(before, reg);
      InsertMembers(before, reg, Before);
      FilterMembers(before, Overlapping(reg.region));
      ghost var added := regions;
      for i := 0 to |overlaps|
        invariant Ordered(regions)
        invariant forall x :: x in regions <==> x in added && x !in overlaps[..i]
        invariant dead == old(dead) + (set o | o in overlaps[..i])
      {
        assert overlaps[..i + 1] == overlaps[..i] + [overlaps[i]];
        assert overlaps[i] in overlaps;
        Evict(overlaps[i], added);
      }
      assert overlaps[..|overlaps|] == overlaps;
      PutElements(before, reg);
      AfterPutInv(before, reg);
      NotOverlappingItself(before, reg);
      SameElementsSameCache(regions, AfterPut(before, reg));
    }

    method Evict(o: Info, ghost added: seq<Info>)
      requires Ordered(regions) && Ordered(added) && o in added && forall x :: x in regions ==> x in added
      modifies this
      ensures Ordered(regions)
      ensures forall x :: x in regions <==> x in old(regions) && x != o
      ensures dead == old(dead) + {o}
    {
      hide WellFormed, Order, IsRegionOverlap, Join;
      ghost var k :| 0 <= k < |added| && added[k] == o;
      assert Good(added[k]);
      WellFormedParts(o.region);
      AfterDelOrdered(regions, o.region.name);
      forall x | x in regions && x.region.name == o.region.name
        ensures x == o
      {
        NameUnique(added, x, o);
      }
      var _ := Delete(o.region.name, PartsOf(o.region));
      dead := dead + {o};
    }

    method Del(reg: Info) returns (success: bool)
      requires Valid() && WellFormed(reg.region)
      modifies this
      ensures Valid() && regions == AfterDel(old(regions), reg.region.name)
      ensures success == HasName(old(regions), reg.region.name)
      ensures dead == old(dead) + {reg}
    {
      WellFormedParts(reg.region);
      AfterDelInv(regions, reg.region.name);
      success := Delete(reg.region.name, PartsOf(reg.region));
      dead := dead + {reg};
    }
  }

  /** The client's view of its regions: the cache and the two regions kept outside it. */
  class Client {
    const masterClient: bool
    const metaRegion: Info
    const adminRegion: Info
    const cache: KeyRegionCache

    constructor (masterClient: bool, metaRegion: Info, adminRegion: Info)
      ensures fresh(cache) && cache.Valid() && cache.regions == []
    {
      this.masterClient, this.metaRegion, this.adminRegion := masterClient, metaRegion, adminRegion;
      cache := new KeyRegionCache();
    }

    /**
     The region that hosts `key`: exactly what a linear search of the cache finds. None stands for a
     crash, which needs a table name that cannot be a table name.
     */
    method GetRegionFromCache(table: Key, key: Key) returns (r: Found)
      requires cache.Valid() && COMMA !in table
      ensures masterClient ==> r == Hit(adminRegion)
      ensures !masterClient && table == META_TABLE ==> r == Hit(metaRegion)
      ensures !masterClient && table != META_TABLE ==>
        && (r.Fatal? <==> |table| + 3 > MAX_ROW_LENGTH)
        && (r.Hit? ==> r.info in cache.regions && Hosts(r.info.region, table, key))
        && (r.Missing? ==> forall e :: e in cache.regions ==> !Hosts(e.region, table, key))
    {
      if masterClient { return Hit(adminRegion); }
      if table == META_TABLE { return Hit(metaRegion); }
      var name := CreateRegionSearchKey(table, key);
      if name.None? { return Fatal; }
      hide WellFormed, Order, Join, CacheInv, IsPredecessor, SearchParts, Less;
      ghost var p := SearchParts(table, key);
      NoExactMatch(cache.regions, table, key);
      r := cache.Get(name.value, p);
      if r.Missing? {
        NoHost(cache.regions, table, key, 0);
        return Missing;
      }
      ghost var i: nat :| i < |cache.regions| && IsPredecessor(cache.regions, p, i) && r.info == cache.regions[i];
      PredecessorHosts(cache.regions, table, key, i);
      var reg := r.info.region;
      if FullyQualifiedTable(reg) != table {
        return Missing;
      }
      if reg.stop != [] && !Less(key, reg.stop) {
        return Missing;
      }
    }
  }

  /** "hbase:meta" */
  const META_TABLE: Key := [104, 98, 97, 115, 101, 58, 109, 101, 116, 97]

  predicate Hosts(r: Region, table: Key, key: Key) {
    FullyQualifiedTable(r) == table && Contains(r, key)
  }

  ghost predicate IsPredecessor(es: seq<Info>, p: Parts, i: nat) {
    && i < |es|
    && (forall j :: 0 <= j <= i ==> Order(PartsOf(es[j].region), p) < 0)
    && (forall j :: i < j < |es| ==> Order(PartsOf(es[j].region), p) > 0)
  }

  /** At most one cached region hosts a key. */
  lemma HostUnique(es: seq<Info>, table: Key, key: Key, a: Info, b: Info)
    requires CacheInv(es) && a in es && b in es
    requires Hosts(a.region, table, key) && Hosts(b.region, table, key)
    ensures a == b
  {
    var i :| 0 <= i < |es| && es[i] == a;
    var j :| 0 <= j < |es| && es[j] == b;
    OverlapMeansSharedKey(a.region, b.region);
    OverlapMeansSharedKey(b.region, a.region);
    assert Contains(a.region, key) && Contains(b.region, key);
  }

  /** Among the entries up to a predecessor, only the predecessor itself can host the key. */
  lemma NoHost(es: seq<Info>, table: Key, key: Key, n: nat)
    requires CacheInv(es) && n <= |es| && |table| + 3 <= MAX_ROW_LENGTH
    requires forall i :: 0 <= i < n ==> Order(PartsOf(es[i].region), SearchParts(table, key)) < 0
    requires forall i :: n <= i < |es| ==> Order(PartsOf(es[i].region), SearchParts(table, key)) >= 0
    ensures forall i :: 0 <= i < |es| && i != n - 1 ==> !Hosts(es[i].region, table, key)
    ensures forall e :: e in es && Hosts(e.region, table, key) ==> n > 0 && e == es[n - 1]
  {
    forall i | 0 <= i < |es| && i != n - 1
      ensures !Hosts(es[i].region, table, key)
    {
      SearchOrder(es[i].region, table, key);
      if i < n && FullyQualifiedTable(es[i].region) == table {
        EarlierStopsBefore(es, table, key, n, i);
      }
    }
  }

  /** If any region hosts the key, it is the predecessor of the search key. */
  lemma PredecessorHosts(es: seq<Info>, table: Key, key: Key, i: nat)
    requires CacheInv(es) && |table| + 3 <= MAX_ROW_LENGTH && IsPredecessor(es, SearchParts(table, key), i)
    ensures es[i] in es && (FullyQualifiedTable(es[i].region) == table ==> AtMost(es[i].region.start, key))
    ensures forall e :: e in es && Hosts(e.region, table, key) ==> e == es[i]
  {
    NoHost(es, table, key, i + 1);
    assert Good(es[i]);
    SearchOrder(es[i].region, table, key);
  }

  lemma EarlierStopsBefore(es: seq<Info>, table: Key, key: Key, n: nat, i: nat)
    requires CacheInv(es) && i + 1 < n <= |es| && |table| + 3 <= MAX_ROW_LENGTH
    requires Order(PartsOf(es[n - 1].region), SearchParts(table, key)) < 0
    requires FullyQualifiedTable(es[i].region) == table
    ensures es[i].region.stop != [] && AtMost(es[i].region.stop, key)
    ensures !Less(key, es[i].region.stop)
  {
    hide WellFormed;
    var a, b := es[i].region, es[n - 1].region;
    assert Good(es[n - 1]) && Before(es[i], es[n - 1]);
    SearchOrder(b, table, key);
    assert Order(PartsOf(a), PartsOf(b)) < 0;
    if FullyQualifiedTable(b) != table { LessAsymmetric(FullyQualifiedTable(b), table); }
    DisjointInOrder(es, i, n - 1);
    if a.stop != b.start && b.start != key { LessTransitive(a.stop, b.start, key); }
    if Less(key, a.stop) { LessAsymmetric(key, a.stop); LessIrreflexive(key); }
  }

  /** No region is called like a search key: its suffix would have to start with a colon. */
  lemma NoExactMatch(es: seq<Info>, table: Key, key: Key)
    requires All(es, Good) && COMMA !in table && |table| + 3 <= MAX_ROW_LENGTH
    ensures ValidParts(SearchParts(table, key))
    ensures !HasName(es, Join(SearchParts(table, key)))
  {
    var p := SearchParts(table, key);
    forall i | 0 <= i < |es|
      ensures es[i].region.name != Join(p)
    {
      WellFormedParts(es[i].region);
      PartsUnique(es[i].region.name, PartsOf(es[i].region));
    }
  }

  lemma SortedAfter(es: seq<Info>, p: Parts, i: nat)
    requires Ordered(es) && ValidParts(p) && i <= |es|
    requires forall j :: 0 <= j < i ==> Order(PartsOf(es[j].region), p) < 0
    requires i < |es| ==> Order(PartsOf(es[i].region), p) >= 0
    ensures forall j :: i <= j < |es| ==> Order(PartsOf(es[j].region), p) >= 0
    ensures forall j :: i < j < |es| ==> Order(PartsOf(es[j].region), p) > 0
    ensures HasName(es, Join(p)) <==> i < |es| && Order(PartsOf(es[i].region), p) == 0
  {
    hide Order, Less, WellFormed, Join, Suffix;
    forall j | i < j < |es|
      ensures Order(PartsOf(es[j].region), p) > 0
    {
      OrderAntisymmetric(PartsOf(es[i].region), p);
      OrderAntisymmetric(PartsOf(es[j].region), p);
      OrderAntisymmetric(PartsOf(es[i].region), PartsOf(es[j].region));
      if Order(p, PartsOf(es[i].region)) < 0 {
        OrderTransitive(p, PartsOf(es[i].region), PartsOf(es[j].region));
      }
    }
    forall j | 0 <= j < |es|
      ensures es[j].region.name == Join(p) <==> Order(PartsOf(es[j].region), p) == 0
    {
      WellFormedParts(es[j].region);
      PartsUnique(es[j].region.name, PartsOf(es[j].region));
      OrderAntisymmetric(PartsOf(es[j].region), p);
    }
  }

  // ----- getOverlaps: a predecessor probe and one contiguous run find them all

  lemma OverlapsFrom(es: seq<Info>, reg: Region, n: nat)
    requires n < |es| && forall j :: 0 <= j < n ==> !IsRegionOverlap(es[j].region, reg)
    ensures Overlaps(es, reg) ==
      (if IsRegionOverlap(es[n].region, reg) then [es[n]] else []) + Overlaps(es[n + 1..], reg)
  {
    assert es == es[..n] + es[n..];
    FilterSplit(es[..n], es[n..], Overlapping(reg));
    FilterNone(es[..n], Overlapping(reg));
    assert es[n..][1..] == es[n + 1..];
  }

  lemma OverlapsNext(es: seq<Info>, reg: Region)
    requires es != [] && IsRegionOverlap(es[0].region, reg)
    ensures Overlaps(es, reg) == [es[0]] + Overlaps(es[1..], reg)
  {
  }

  ghost predicate SeekPosition(es: seq<Info>, reg: Region, n: nat) {
    var t := FullyQualifiedTable(reg);
    && |t| + 3 <= MAX_ROW_LENGTH && n <= |es|
    && (forall i :: 0 <= i < n ==> Order(PartsOf(es[i].region), SearchParts(t, reg.start)) < 0)
    && (forall i :: n <= i < |es| ==> Order(PartsOf(es[i].region), SearchParts(t, reg.start)) >= 0)
  }

  lemma NothingBefore(es: seq<Info>, reg: Region, n: nat)
    requires CacheInv(es) && WellFormed(reg) && SeekPosition(es, reg, n)
    ensures forall i :: 0 <= i < n - 1 ==> !IsRegionOverlap(es[i].region, reg)
  {
    forall i | 0 <= i < n - 1
      ensures !IsRegionOverlap(es[i].region, reg)
    {
      SameFullyQualifiedTable(es[i].region, reg);
      if FullyQualifiedTable(es[i].region) == FullyQualifiedTable(reg) {
        EarlierStopsBefore(es, FullyQualifiedTable(reg), reg.start, n, i);
      }
    }
  }

  /** Right of the probe, the first entry that does not overlap ends the run for good. */
  lemma NothingAfter(es: seq<Info>, reg: Region, n: nat, i: nat)
    requires CacheInv(es) && WellFormed(reg) && SeekPosition(es, reg, n) && n <= i <= |es|
    requires i < |es| ==> !IsRegionOverlap(es[i].region, reg)
    ensures Overlaps(es[i..], reg) == []
  {
    forall j | 0 <= j < |es[i..]|
      ensures !Overlapping(reg)(es[i..][j])
    {
      RunEnds(es, reg, n, i, i + j);
    }
    FilterNone(es[i..], Overlapping(reg));
  }

  lemma RunEnds(es: seq<Info>, reg: Region, n: nat, i: nat, j: nat)
    requires CacheInv(es) && WellFormed(reg) && SeekPosition(es, reg, n) && n <= i <= j < |es|
    requires !IsRegionOverlap(es[i].region, reg)
    ensures !IsRegionOverlap(es[j].region, reg)
  {
    var a, b := es[i].region, es[j].region;
    var t := FullyQualifiedTable(reg);
    SameFullyQualifiedTable(a, reg);
    SameFullyQualifiedTable(b, reg);
    StartsAfter(es, reg, n, i);
    StartsAfter(es, reg, n, j);
    if i < j && FullyQualifiedTable(b) == t {
      SameTableBetween(es, reg, n, i, j);
      DisjointInOrder(es, i, j);
      if Less(b.start, reg.stop) { LessTransitive(a.start, b.start, reg.stop); }
    }
  }

  /** Between the probe and an entry of the table there is no other table. */
  lemma SameTableBetween(es: seq<Info>, reg: Region, n: nat, i: nat, j: nat)
    requires CacheInv(es) && SeekPosition(es, reg, n) && n <= i < j < |es|
    requires FullyQualifiedTable(es[j].region) == FullyQualifiedTable(reg)
    ensures FullyQualifiedTable(es[i].region) == FullyQualifiedTable(reg)
  {
    var a, b, p := PartsOf(es[i].region), PartsOf(es[j].region), SearchParts(FullyQualifiedTable(reg), reg.start);
    assert Before(es[i], es[j]);
    SignAntisymmetric(a.table, p.table);
  }

  /** An entry of the table right of the probe starts, and so stops, after the new region's start. */
  lemma StartsAfter(es: seq<Info>, reg: Region, n: nat, i: nat)
    requires CacheInv(es) && WellFormed(reg) && SeekPosition(es, reg, n) && n <= i < |es|
    ensures FullyQualifiedTable(es[i].region) == FullyQualifiedTable(reg) ==>
      Less(reg.start, es[i].region.start) && (es[i].region.stop == [] || Less(reg.start, es[i].region.stop))
  {
    var a := es[i].region;
    SearchOrder(a, FullyQualifiedTable(reg), reg.start);
    LessTotal(a.start, reg.start);
    if Less(reg.start, a.start) && a.stop != [] { LessTransitive(reg.start, a.start, a.stop); }
  }

  // ----- put and del keep the cache ordered and disjoint

  lemma InsertOrdered(es: seq<Info>, e: Info)
    requires Ordered(es) && WellFormed(e.region) && !HasName(es, e.region.name)
    ensures Ordered(Insert(es, e, Before))
  {
    forall x | x in es
      ensures Before(x, e) || Before(e, x)
    {
      NamesOrder(x.region, e.region);
      OrderAntisymmetric(PartsOf(x.region), PartsOf(e.region));
    }
    forall x, y | x in es && y in es && Before(e, x) && Before(x, y)
      ensures Before(e, y)
    {
      OrderTransitive(PartsOf(e.region), PartsOf(x.region), PartsOf(y.region));
    }
    InsertPairwise(es, e, Before);
    InsertMembers(es, e, Before);
    var r := Insert(es, e, Before);
    forall i | 0 <= i < |r|
      ensures Good(r[i])
    {
      assert r[i] in r;
    }
  }

  /** put keeps the invariant. */
  lemma AfterPutInv(es: seq<Info>, e: Info)
    requires CacheInv(es) && WellFormed(e.region)
    ensures CacheInv(AfterPut(es, e))
  {
    if Replaces(es, e) {
      var keep := NotOverlapping(e.region);
      var k := Filter(es, keep);
      FilterAll(es, keep, Good);
      FilterPairwise(es, keep, Before);
      FilterPairwise(es, keep, Apart);
      FilterMembers(es, keep);
      assert !HasName(k, e.region.name) by {
        assert forall i :: 0 <= i < |k| ==> k[i] in k;
      }
      InsertOrdered(k, e);
      InsertSymmetric(k, e, Before, Apart);
    }
  }

  /** A replacing put leaves exactly the old entries that do not overlap, and the new region. */
  lemma PutElements(es: seq<Info>, e: Info)
    requires Replaces(es, e)
    ensures forall x :: x in AfterPut(es, e) <==> x == e || (x in es && !IsRegionOverlap(x.region, e.region))
  {
    FilterMembers(es, NotOverlapping(e.region));
    InsertMembers(Filter(es, NotOverlapping(e.region)), e, Before);
  }

  /** The check of put that no overlapped region is younger. */
  method AnyYounger(overlaps: seq<Info>, id: nat) returns (younger: bool)
    ensures younger <==> !AllAtMostAsYoung(overlaps, id)
  {
    for i := 0 to |overlaps|
      invariant AllAtMostAsYoung(overlaps[..i], id)
    {
      if overlaps[i].region.id > id {
        return true;
      }
      assert overlaps[..i + 1] == overlaps[..i] + [overlaps[i]];
    }
    assert overlaps[..|overlaps|] == overlaps;
    return false;
  }

  lemma InsertAt(es: seq<Info>, e: Info, n: nat)
    requires n <= |es| && Rank(es, e, Before) == n
    ensures Insert(es, e, Before) == es[..n] + [e] + es[n..]
  {
  }

  /** A cached region has the name of the new one, or overlaps it and is younger. */
  ghost predicate HasRival(es: seq<Info>, e: Info) {
    exists x :: x in es && IsRival(x.region, e.region)
  }

  predicate IsRival(x: Region, r: Region) {
    x.name == r.name || (IsRegionOverlap(x, r) && x.id > r.id)
  }

  /** A region is refused if and only if it has a rival; otherwise it is cached, and what it replaces is not younger. */
  lemma PutRefusedIff(es: seq<Info>, e: Info)
    ensures Replaces(es, e) <==> !HasRival(es, e)
    ensures Replaces(es, e) <==>
      forall x :: x in es ==>
        x.region.name != e.region.name && (IsRegionOverlap(x.region, e.region) ==> x.region.id <= e.region.id)
    ensures if HasRival(es, e) then AfterPut(es, e) == es else e in AfterPut(es, e)
    ensures !HasRival(es, e) ==> forall o :: o in Overlaps(es, e.region) ==> o.region.id <= e.region.id
  {
    hide WellFormed, IsRegionOverlap, Filter, Insert;
    FilterMembers(es, Overlapping(e.region));
    var os := Overlaps(es, e.region);
    if x :| x in es && IsRival(x.region, e.region) {
      if x.region.name == e.region.name {
        var i :| 0 <= i < |es| && es[i] == x;
        assert HasName(es, e.region.name);
      } else {
        assert x in os;
        var i :| 0 <= i < |os| && os[i] == x;
        assert !AllAtMostAsYoung(os, e.region.id);
      }
    } else {
      assert forall x :: x in es ==> !IsRival(x.region, e.region);
      assert forall i :: 0 <= i < |es| ==> es[i] in es;
      assert !HasName(es, e.region.name);
      assert forall i :: 0 <= i < |os| ==> os[i] in os && os[i].region.id <= e.region.id;
      PutElements(es, e);
    }
  }

  /** A put never goes back in time: a key that is still hosted is hosted by a region that is at least as young. */
  lemma PutNeverGoesBack(es: seq<Info>, e: Info, table: Key, key: Key, a: Info, b: Info)
    requires CacheInv(es) && WellFormed(e.region) && a in es && b in AfterPut(es, e)
    requires Hosts(a.region, table, key) && Hosts(b.region, table, key)
    ensures b.region.id >= a.region.id
  {
    PutRefusedIff(es, e);
    if !Replaces(es, e) {
      HostUnique(es, table, key, a, b);
    } else {
      PutElements(es, e);
      if b == e {
        var i :| 0 <= i < |es| && es[i] == a;
        assert Good(a);
        OverlapMeansSharedKey(a.region, e.region);
        assert Contains(a.region, key) && Contains(e.region, key);
        FilterMembers(es, Overlapping(e.region));
        var os := Overlaps(es, e.region);
        assert a in os;
        var j :| 0 <= j < |os| && os[j] == a;
      } else {
        HostUnique(es, table, key, a, b);
      }
    }
  }

  /** Removing the entry that Seek found is removing the entry with the name. */
  lemma DeleteAt(es: seq<Info>, name: Key, n: nat)
    requires Ordered(es) && n < |es| && es[n].region.name == name
    ensures AfterDel(es, name) == es[..n] + es[n + 1..]
  {
    hide WellFormed, Order, Filter;
    forall i | 0 <= i < |es| && i != n
      ensures es[i].region.name != name
    {
      NamesOrder(es[i].region, es[n].region);
      NamesOrder(es[n].region, es[i].region);
      assert Before(es[i], es[n]) || Before(es[n], es[i]);
    }
    FilterAllButOne(es, NotCalled(name), n);
  }

  /** del keeps the invariant and removes exactly the entry with the name. */
  lemma AfterDelInv(es: seq<Info>, name: Key)
    requires CacheInv(es)
    ensures CacheInv(AfterDel(es, name))
    ensures forall x :: x in AfterDel(es, name) <==> x in es && x.region.name != name
  {
    AfterDelOrdered(es, name);
    FilterPairwise(es, NotCalled(name), Apart);
  }

  lemma AfterDelOrdered(es: seq<Info>, name: Key)
    requires Ordered(es)
    ensures Ordered(AfterDel(es, name))
    ensures forall x :: x in AfterDel(es, name) <==> x in es && x.region.name != name
  {
    FilterAll(es, NotCalled(name), Good);
    FilterPairwise(es, NotCalled(name), Before);
    FilterMembers(es, NotCalled(name));
  }

  /** Names identify entries. */
  lemma NameUnique(es: seq<Info>, a: Info, b: Info)
    requires Ordered(es) && a in es && b in es && a.region.name == b.region.name
    ensures a == b
  {
    var i :| 0 <= i < |es| && es[i] == a;
    var j :| 0 <= j < |es| && es[j] == b;
    NamesOrder(a.region, b.region);
    NamesOrder(b.region, a.region);
    assert i < j ==> Before(a, b);
    assert j < i ==> Before(b, a);
  }

  lemma SameElementsSameCache(a: seq<Info>, b: seq<Info>)
    requires Ordered(a) && Ordered(b) && forall x :: x in a <==> x in b
    ensures a == b
  {
    forall x, y | x in a && y in a && Before(x, y)
      ensures !Before(y, x)
    {
      OrderAntisymmetric(PartsOf(x.region), PartsOf(y.region));
    }
    OrderedUnique(a, b, Before);
  }

  lemma NotOverlappingItself(es: seq<Info>, reg: Info)
    requires !HasName(es, reg.region.name)
    ensures reg !in es
  {
    assert forall i :: 0 <= i < |es| ==> es[i].region.name != reg.region.name;
  }

  // ----- Whole runs

  datatype Op = OpPut(info: Info) | OpDel(name: Key)

  function Run(ops: seq<Op>): seq<Info> {
    if ops == [] then []
    else
      var es := Run(ops[..|ops| - 1]);
      match ops[|ops| - 1]
      case OpPut(e) => AfterPut(es, e)
      case OpDel(name) => AfterDel(es, name)
  }

  /** After any sequence of put and del from empty, the cache is ordered and its regions are disjoint. */
  lemma {:induction false} RunInv(ops: seq<Op>)
    requires forall op :: op in ops && op.OpPut? ==> WellFormed(op.info.region)
    ensures CacheInv(Run(ops))
  {
    if ops != [] {
      var n := |ops| - 1;
      assert forall op :: op in ops[..n] ==> op in ops;
      RunInv(ops[..n]);
      assert ops[n] in ops;
      match ops[n]
      case OpPut(e) => AfterPutInv(Run(ops[..n]), e);
      case OpDel(name) => AfterDelInv(Run(ops[..n]), name);
    }
  }
}
