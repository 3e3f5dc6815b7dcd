/** The two encodings of a mutation's values (hrpc/mutate.go): compact cellblocks and protobuf columns. */
module Mutation {
  import opened Bytes
  import opened Cellblock

  const PUT: Byte := 4
  const DELETE: Byte := 8
  const DELETE_FAMILY_VERSION: Byte := 10
  const DELETE_COLUMN: Byte := 12
  const DELETE_FAMILY: Byte := 14

  const MAX_TIMESTAMP: nat := 0xFFFF_FFFF_FFFF_FFFF
  const MAX_INT64: nat := 0x7FFF_FFFF_FFFF_FFFF

  /** Qualifiers to values. */
  type Columns = map<Key, Key>

  const EMPTY_QUALIFIER: Columns := map[[] := []]

  /** None is a nil map of qualifiers. */
  datatype Mutate = Mutate(
    key: Key, isDelete: bool, values: map<Key, Option<Columns>>, timestamp: nat, deleteOneVersion: bool)

  // ----- What a mutation means, independently of its encoding

  /** The qualifiers of a family: a delete of a whole family has the empty one. */
  function ColumnsOf(m: Mutate, v: Option<Columns>): Columns {
    if v.Some? then v.value else if m.isDelete then EMPTY_QUALIFIER else map[]
  }

  function KindOf(m: Mutate, v: Option<Columns>): Byte {
    if !m.isDelete then PUT
    else if v.None? || v.value == map[] then (if m.deleteOneVersion then DELETE_FAMILY_VERSION else DELETE_FAMILY)
    else if m.deleteOneVersion then DELETE else DELETE_COLUMN
  }

  function TimestampOf(m: Mutate): nat {
    if m.timestamp == MAX_TIMESTAMP then MAX_INT64 else m.timestamp
  }

  /** The cells of one family that have their qualifier in `qs`. */
  function FamilyCells(m: Mutate, f: Key, kind: Byte, v: Columns, qs: set<Key>): set<KeyValue> {
    set q | q in qs && q in v :: KeyValue(m.key, f, q, TimestampOf(m), kind, v[q])
  }

  /** The cells in the families `fs`, for some reading `cols` of the families' columns. */
  function CellsOf(m: Mutate, cols: map<Key, Columns>, fs: set<Key>): set<KeyValue>
    requires fs <= m.values.Keys == cols.Keys
  {
    set f, q | f in fs && q in cols[f] :: KeyValue(m.key, f, q, TimestampOf(m), KindOf(m, m.values[f]), cols[f][q])
  }

  function AllColumns(m: Mutate): map<Key, Columns> {
    map f | f in m.values :: ColumnsOf(m, m.values[f])
  }

  /** The cells that a mutation is about. */
  function Meaning(m: Mutate): set<KeyValue> {
    CellsOf(m, AllColumns(m), m.values.Keys)
  }

  /**
   A mutation is about a cell if and only if the cell is in its row, a family of it and a column of that family, with
   the value there; the type is 4 for a put, 8 or 12 for a delete of one or of all versions of a column, and 10 or 14
   for a delete of one or of all versions of a family; no timestamp is the greatest int64.
   */
  lemma MeaningExact(m: Mutate, kv: KeyValue)
    ensures kv in Meaning(m) <==>
      && kv.row == m.key && kv.family in m.values
      && (var v := m.values[kv.family];
          && (if v.Some? then kv.qualifier in v.value && kv.value == v.value[kv.qualifier]
              else m.isDelete && kv.qualifier == [] && kv.value == [])
          && (!m.isDelete ==> kv.kind == 4)
          && (m.isDelete && v.Some? ==> kv.kind == if m.deleteOneVersion then 8 else 12)
          && (m.isDelete && v.None? ==> kv.kind == if m.deleteOneVersion then 10 else 14))
      && kv.timestamp == if m.timestamp == 0xFFFF_FFFF_FFFF_FFFF then 0x7FFF_FFFF_FFFF_FFFF else m.timestamp
  {
    if kv.family in m.values && kv.qualifier in AllColumns(m)[kv.family] {
      var v := m.values[kv.family];
      assert v.Some? ==> v.value != map[];
    }
  }

  /** The delete types of the protobuf encoding stand for the same types of cells. */
  lemma DeleteTypesAre()
    ensures KindCode(None) == 4
    ensures KindCode(Some(DeleteOneVersion)) == 8 && KindCode(Some(DeleteMultipleVersions)) == 12
    ensures KindCode(Some(DeleteFamilyVersion)) == 10 && KindCode(Some(DeleteFamily)) == 14
  {
  }

  /** The list has exactly the elements of `s`, each once. */
  ghost predicate Lists(kvs: seq<KeyValue>, s: set<KeyValue>) {
    && (forall i :: 0 <= i < |kvs| ==> kvs[i] in s)
    && (forall kv :: kv in s ==> kv in kvs)
    && (forall i, j :: 0 <= i < j < |kvs| ==> kvs[i] != kvs[j])
  }

  /** Two lists of the same cells differ only in order. */
  lemma {:induction false} SameCells(a: seq<KeyValue>, b: seq<KeyValue>, s: set<KeyValue>)
    requires Lists(a, s) && Lists(b, s)
    ensures multiset(a) == multiset(b)
  {
    forall kv ensures multiset(a)[kv] == multiset(b)[kv] {
      OneOf(a, s, kv);
      OneOf(b, s, kv);
    }
  }

  lemma {:induction false} OneOf(a: seq<KeyValue>, s: set<KeyValue>, kv: KeyValue)
    requires Lists(a, s)
    ensures multiset(a)[kv] == if kv in s then 1 else 0
    decreases |a|
  {
    if a != [] {
      var n := |a| - 1;
      var rest, x := a[..n], a[n];
      assert a == rest + [x];
      assert forall y :: y in s - {x} ==> y in rest;
      OneOf(rest, s - {x}, kv);
    }
  }

  // ----- The length of a set of cells

  ghost function TotalLen(s: set<KeyValue>): nat {
    if s == {} then 0 else var x :| x in s; CellblockLen(x) + TotalLen(s - {x})
  }

  lemma {:induction false} TotalLenPick(s: set<KeyValue>, x: KeyValue)
    requires x in s
    ensures TotalLen(s) == CellblockLen(x) + TotalLen(s - {x})
    decreases s
  {
    var y :| y in s && TotalLen(s) == CellblockLen(y) + TotalLen(s - {y});
    if y != x {
      TotalLenPick(s - {y}, x);
      TotalLenPick(s - {x}, y);
      assert s - {y} - {x} == s - {x} - {y};
    }
  }

  lemma TotalLenAdd(s: set<KeyValue>, x: KeyValue)
    requires x !in s
    ensures TotalLen(s + {x}) == TotalLen(s) + CellblockLen(x)
  {
    TotalLenPick(s + {x}, x);
    assert s + {x} - {x} == s;
  }

  lemma {:induction false} TotalLenUnion(s: set<KeyValue>, t: set<KeyValue>)
    requires s !! t
    ensures TotalLen(s + t) == TotalLen(s) + TotalLen(t)
    decreases t
  {
    if t == {} {
      assert s + t == s;
    } else {
      var x :| x in t;
      TotalLenPick(t, x);
      TotalLenPick(s + t, x);
      TotalLenUnion(s, t - {x});
      assert s + t - {x} == s + (t - {x});
    }
  }

  lemma {:induction false} TotalLenOfList(kvs: seq<KeyValue>, s: set<KeyValue>)
    requires Lists(kvs, s)
    ensures |EncodeAll(kvs)| == TotalLen(s) && |kvs| == |s|
    decreases |kvs|
  {
    hide CellblockLen, Encode, TotalLen, EncodeAll;
    if kvs != [] {
      var n := |kvs| - 1;
      var rest, x := kvs[..n], kvs[n];
      assert kvs == rest + [x];
      assert forall y :: y in s - {x} ==> y in rest;
      TotalLenOfList(rest, s - {x});
      TotalLenPick(s, x);
      EncodeAllAdd(rest, x);
    } else {
      assert s == {};
      NothingToSum();
    }
  }

  lemma NothingToSum()
    ensures TotalLen({}) == 0 && EncodeAll([]) == []
  {
  }

  lemma TotalLenPositive(s: set<KeyValue>)
    requires s != {}
    ensures TotalLen(s) > 0
  {
  }

  lemma {:induction false} FamilyCellsCount(m: Mutate, f: Key, kind: Byte, v: Columns, qs: set<Key>)
    requires qs <= v.Keys
    ensures |FamilyCells(m, f, kind, v, qs)| == |qs|
    decreases qs
  {
    if qs == {} {
      assert FamilyCells(m, f, kind, v, qs) == {};
    } else {
      var q :| q in qs;
      FamilyCellsCount(m, f, kind, v, qs - {q});
      FamilyCellsStep(m, f, kind, v, qs - {q}, q);
      assert qs - {q} + {q} == qs;
    }
  }

  lemma FamilyCellsStep(m: Mutate, f: Key, kind: Byte, v: Columns, qs: set<Key>, q: Key)
    requires q in v && q !in qs
    ensures var kv := KeyValue(m.key, f, q, TimestampOf(m), kind, v[q]);
      && FamilyCells(m, f, kind, v, qs + {q}) == FamilyCells(m, f, kind, v, qs) + {kv}
      && kv !in FamilyCells(m, f, kind, v, qs)
  {
  }

  lemma CellsOfStep(m: Mutate, cols: map<Key, Columns>, fs: set<Key>, f: Key)
    requires fs + {f} <= m.values.Keys == cols.Keys && f !in fs
    ensures var more := FamilyCells(m, f, KindOf(m, m.values[f]), cols[f], cols[f].Keys);
      CellsOf(m, cols, fs) !! more && CellsOf(m, cols, fs + {f}) == CellsOf(m, cols, fs) + more
  {
    hide KindOf, TimestampOf;
  }

  // ----- Compact encoding

  /** The reading of the length loop, which does not look at the type of the mutation. */
  function CountedColumns(m: Mutate): map<Key, Columns> {
    map f | f in m.values :: if m.values[f].None? then EMPTY_QUALIFIER else m.values[f].value
  }

  /** A mutation that is not a delete with a family that has no columns map. */
  predicate HasNilColumns(m: Mutate) {
    !m.isDelete && exists f :: f in m.values && m.values[f].None?
  }

  /** Such mutations exist: a put with one family and no columns. */
  lemma NilColumnsExist()
    ensures HasNilColumns(Mutate([1], false, map[[2] := None], 0, false))
  {
    var m := Mutate([1], false, map[[2] := None], 0, false);
    assert [2] in m.values && m.values[[2]].None?;
  }

  /** Without such a family the two loops read the same cells; with one, the first reads more. */
  lemma CountedIsMore(m: Mutate)
    ensures var counted := CellsOf(m, CountedColumns(m), m.values.Keys);
      if HasNilColumns(m) then TotalLen(Meaning(m)) < TotalLen(counted) else Meaning(m) == counted
  {
    hide KindOf, TimestampOf;
    var counted := CellsOf(m, CountedColumns(m), m.values.Keys);
    if HasNilColumns(m) {
      var f :| f in m.values && m.values[f].None?;
      var extra := counted - Meaning(m);
      assert [] in CountedColumns(m)[f] && CountedColumns(m)[f][[]] == [] && AllColumns(m)[f] == map[];
      var kv := KeyValue(m.key, f, [], TimestampOf(m), KindOf(m, m.values[f]), []);
      assert kv in counted && kv !in Meaning(m);
      assert kv in extra;
      TotalLenPositive(extra);
      assert Meaning(m) <= counted;
      TotalLenUnion(Meaning(m), extra);
      assert Meaning(m) + extra == counted;
    } else {
      assert CountedColumns(m) == AllColumns(m);
    }
  }

  /** cellblocks, int32 count and uint32 size, or the length-mismatch panic. */
  datatype Compact = Compact(cbs: Key, count: int, size: nat) | Mismatch

  function Int32(n: nat): int {
    (n + 0x8000_0000) % M32 - 0x8000_0000
  }

  method FamilyLen(m: Mutate, family: Key, v: Columns, ghost kind: Byte) returns (n: nat)
    ensures n == TotalLen(FamilyCells(m, family, kind, v, v.Keys))
  {
    hide FamilyCells;
    var todo := v.Keys;
    n := 0;
    FamilyCellsCount(m, family, kind, v, {});
    assert v.Keys - todo == {};
    while todo != {}
      invariant todo <= v.Keys && n == TotalLen(FamilyCells(m, family, kind, v, v.Keys - todo))
    {
      var q :| q in todo;
      FamilyCellsStep(m, family, kind, v, v.Keys - todo, q);
      ghost var kv := KeyValue(m.key, family, q, TimestampOf(m), kind, v[q]);
      TotalLenAdd(FamilyCells(m, family, kind, v, v.Keys - todo), kv);
      assert v.Keys - todo + {q} == v.Keys - (todo - {q});
      n := n + 4 + 4 + 4 + (2 + |m.key| + 1 + |family| + |q| + 8 + 1) + |v[q]|;
      todo := todo - {q};
    }
    assert v.Keys - todo == v.Keys;
  }

  method AppendFamily(m: Mutate, family: Key, mt: Byte, ts: nat, v: Columns, cbs: Key, ghost kvs: seq<KeyValue>)
    returns (out: Key, ghost added: seq<KeyValue>)
    requires ts == TimestampOf(m) && cbs == EncodeAll(kvs)
    ensures out == EncodeAll(kvs + added) && Lists(added, FamilyCells(m, family, mt, v, v.Keys))
  {
    hide FamilyCells, Lists, EncodeAll;
    var todo := v.Keys;
    out, added := cbs, [];
    NoneListed(m, family, mt, v);
    assert v.Keys - todo == {};
    assert kvs + [] == kvs;
    while todo != {}
      invariant todo <= v.Keys && out == EncodeAll(kvs + added)
      invariant Lists(added, FamilyCells(m, family, mt, v, v.Keys - todo))
    {
      var q :| q in todo;
      ghost var kv := KeyValue(m.key, family, q, TimestampOf(m), mt, v[q]);
      FamilyCellsStep(m, family, mt, v, v.Keys - todo, q);
      ListsAdd(added, FamilyCells(m, family, mt, v, v.Keys - todo), kv);
      assert v.Keys - todo + {q} == v.Keys - (todo - {q});
      out := AppendCellblock(KeyValue(m.key, family, q, ts, mt, v[q]), out);
      EncodeAllAdd(kvs + added, kv);
      assert kvs + added + [kv] == kvs + (added + [kv]);
      added := added + [kv];
      todo := todo - {q};
    }
    assert v.Keys - todo == v.Keys;
  }

  lemma NoneListed(m: Mutate, f: Key, kind: Byte, v: Columns)
    ensures Lists([], FamilyCells(m, f, kind, v, {}))
  {
  }

  lemma ListsAdd(kvs: seq<KeyValue>, s: set<KeyValue>, kv: KeyValue)
    requires Lists(kvs, s) && kv !in s
    ensures Lists(kvs + [kv], s + {kv})
  {
  }

  lemma ListsConcat(a: seq<KeyValue>, s: set<KeyValue>, b: seq<KeyValue>, t: set<KeyValue>)
    requires Lists(a, s) && Lists(b, t) && s !! t
    ensures Lists(a + b, s + t)
  {
  }

  lemma EncodeAllAdd(kvs: seq<KeyValue>, kv: KeyValue)
    ensures EncodeAll(kvs + [kv]) == EncodeAll(kvs) + Encode(kv)
  {
    assert (kvs + [kv])[..|kvs|] == kvs;
  }

  /** The first loop: the length and the number of the cells it reads. */
  method CountCells(m: Mutate) returns (cbsLen: nat, count: nat)
    ensures var counted := CellsOf(m, CountedColumns(m), m.values.Keys);
      cbsLen == TotalLen(counted) && count == |counted|
  {
    hide CellsOf, FamilyCells, KindOf, TimestampOf, TotalLen;
    ghost var cols := CountedColumns(m);
    cbsLen, count := 0, 0;
    var todo := m.values.Keys;
    NoCells(m, cols);
    assert m.values.Keys - todo == {};
    while todo != {}
      invariant todo <= m.values.Keys
      invariant var s := CellsOf(m, cols, m.values.Keys - todo); cbsLen == TotalLen(s) && count == |s|
    {
      var family :| family in todo;
      var v := m.values[family];
      if v.None? {
        v := Some(EMPTY_QUALIFIER);
      }
      ghost var kind, fs := KindOf(m, m.values[family]), m.values.Keys - todo;
      count := count + |v.value|;
      var n := FamilyLen(m, family, v.value, kind);
      CellsOfStep(m, cols, fs, family);
      FamilyCellsCount(m, family, kind, v.value, v.value.Keys);
      TotalLenUnion(CellsOf(m, cols, fs), FamilyCells(m, family, kind, v.value, v.value.Keys));
      cbsLen := cbsLen + n;
      assert fs + {family} == m.values.Keys - (todo - {family});
      todo := todo - {family};
    }
    assert m.values.Keys - todo == m.values.Keys;
  }

  lemma NoCells(m: Mutate, cols: map<Key, Columns>)
    requires m.values.Keys == cols.Keys
    ensures CellsOf(m, cols, {}) == {} && Lists([], CellsOf(m, cols, {})) && TotalLen({}) == 0 && EncodeAll([]) == []
  {
  }

  /**
   Both loops go through the maps in an order of their own. The block is the encoding of the cells the
   mutation means, each once, and the reported numbers are theirs; the panic happens for nil columns only.
   */
  method ValuesToCellblocks(m: Mutate) returns (r: Compact, ghost kvs: seq<KeyValue>)
    ensures r.Mismatch? <==> HasNilColumns(m)
    ensures r.Compact? ==> Lists(kvs, Meaning(m)) && r == Compact(EncodeAll(kvs), Int32(|kvs|), Wrap(|EncodeAll(kvs)|))
  {
    hide CellsOf, FamilyCells, TotalLen, Lists, EncodeAll;
    ghost var cols := AllColumns(m);
    NoCells(m, cols);
    kvs := [];
    if |m.values| == 0 {
      assert m.values.Keys == {};
      return Compact([], 0, 0), kvs;
    }
    var cbsLen, count := CountCells(m);
    var cbs: Key := [];
    var ts := if m.timestamp == MAX_TIMESTAMP then MAX_INT64 else m.timestamp;
    var todo := m.values.Keys;
    assert m.values.Keys - todo == {};
    while todo != {}
      invariant todo <= m.values.Keys && cbs == EncodeAll(kvs)
      invariant Lists(kvs, CellsOf(m, cols, m.values.Keys - todo))
    {
      var family :| family in todo;
      var v := m.values[family];
      var mt: Byte;
      if m.isDelete {
        if v.None? || v.value == map[] {
          mt := if m.deleteOneVersion then DELETE_FAMILY_VERSION else DELETE_FAMILY;
          if v.None? {
            v := Some(EMPTY_QUALIFIER);
          }
        } else {
          mt := if m.deleteOneVersion then DELETE else DELETE_COLUMN;
        }
      } else {
        mt := PUT;
      }
      var columns := if v.Some? then v.value else map[];
      ghost var fs, added := m.values.Keys - todo, [];
      cbs, added := AppendFamily(m, family, mt, ts, columns, cbs, kvs);
      CellsOfStep(m, cols, fs, family);
      ListsConcat(kvs, CellsOf(m, cols, fs), added, FamilyCells(m, family, mt, columns, columns.Keys));
      kvs := kvs + added;
      assert fs + {family} == m.values.Keys - (todo - {family});
      todo := todo - {family};
    }
    assert m.values.Keys - todo == m.values.Keys;
    TotalLenOfList(kvs, Meaning(m));
    CountedIsMore(m);
    if |cbs| != cbsLen { return Mismatch, kvs; }
    return Compact(cbs, Int32(count), Wrap(|cbs|)), kvs;
  }

  // ----- Protobuf encoding

  datatype DeleteType = DeleteOneVersion | DeleteMultipleVersions | DeleteFamily | DeleteFamilyVersion

  datatype QualifierValue = QualifierValue(
    qualifier: Key, value: Key, timestamp: Option<nat>, deleteType: Option<DeleteType>)

  datatype ColumnValue = ColumnValue(family: Key, qualifierValues: seq<QualifierValue>)

  /** The KeyValue type that stands for a delete type; no delete type is a put. */
  function KindCode(dt: Option<DeleteType>): Byte {
    match dt
    case None => PUT
    case Some(DeleteOneVersion) => DELETE
    case Some(DeleteMultipleVersions) => DELETE_COLUMN
    case Some(DeleteFamily) => DELETE_FAMILY
    case Some(DeleteFamilyVersion) => DELETE_FAMILY_VERSION
  }

  /** The cell a qualifier value denotes; no timestamp is HBase's LATEST_TIMESTAMP. */
  function Denotes(row: Key, family: Key, qv: QualifierValue): KeyValue {
    KeyValue(row, family, qv.qualifier, if qv.timestamp.None? then MAX_INT64 else qv.timestamp.value,
             KindCode(qv.deleteType), qv.value)
  }

  function ColumnCells(row: Key, cv: ColumnValue): seq<KeyValue> {
    var qvs := cv.qualifierValues;
    seq(|qvs|, i requires 0 <= i < |qvs| => Denotes(row, cv.family, qvs[i]))
  }

  function ProtoCells(row: Key, cvs: seq<ColumnValue>): seq<KeyValue> {
    if cvs == [] then [] else ProtoCells(row, cvs[..|cvs| - 1]) + ColumnCells(row, cvs[|cvs| - 1])
  }

  lemma ProtoCellsAdd(row: Key, cvs: seq<ColumnValue>, cv: ColumnValue)
    ensures ProtoCells(row, cvs + [cv]) == ProtoCells(row, cvs) + ColumnCells(row, cv)
  {
    assert (cvs + [cv])[..|cvs|] == cvs;
  }

  lemma ColumnCellsAdd(row: Key, f: Key, qvs: seq<QualifierValue>, qv: QualifierValue)
    ensures ColumnCells(row, ColumnValue(f, qvs + [qv])) ==
            ColumnCells(row, ColumnValue(f, qvs)) + [Denotes(row, f, qv)]
  {
  }

  method QualifierValues(m: Mutate, ghost family: Key, v: Columns, ts: Option<nat>, dt: Option<DeleteType>)
    returns (qvs: seq<QualifierValue>)
    requires TimestampOf(m) == if ts.None? then MAX_INT64 else ts.value
    ensures Lists(ColumnCells(m.key, ColumnValue(family, qvs)), FamilyCells(m, family, KindCode(dt), v, v.Keys))
  {
    hide FamilyCells, Lists, ColumnCells, KindCode, TimestampOf;
    ghost var kind := KindCode(dt);
    var todo := v.Keys;
    qvs := [];
    NoneListed(m, family, kind, v);
    NoColumnCells(m.key, family);
    assert v.Keys - todo == {};
    while todo != {}
      invariant todo <= v.Keys
      invariant Lists(ColumnCells(m.key, ColumnValue(family, qvs)), FamilyCells(m, family, kind, v, v.Keys - todo))
    {
      var q :| q in todo;
      var qv := QualifierValue(q, v[q], ts, dt);
      ghost var done := FamilyCells(m, family, kind, v, v.Keys - todo);
      FamilyCellsStep(m, family, kind, v, v.Keys - todo, q);
      ListsAdd(ColumnCells(m.key, ColumnValue(family, qvs)), done, Denotes(m.key, family, qv));
      ColumnCellsAdd(m.key, family, qvs, qv);
      assert v.Keys - todo + {q} == v.Keys - (todo - {q});
      qvs := qvs + [qv];
      todo := todo - {q};
    }
    assert v.Keys - todo == v.Keys;
  }

  lemma NoColumnCells(row: Key, family: Key)
    ensures ColumnCells(row, ColumnValue(family, [])) == []
  {
  }

  /** One family: its delete type, and its columns. */
  method ToColumnValue(m: Mutate, k: Key, ts: Option<nat>) returns (cv: ColumnValue)
    requires k in m.values && TimestampOf(m) == if ts.None? then MAX_INT64 else ts.value
    ensures cv.family == k
    ensures var v := ColumnsOf(m, m.values[k]);
      Lists(ColumnCells(m.key, cv), FamilyCells(m, k, KindOf(m, m.values[k]), v, v.Keys))
  {
    var v := m.values[k];
    var dt: Option<DeleteType> := None;
    if m.isDelete {
      if v.None? || v.value == map[] {
        dt := Some(if m.deleteOneVersion then DeleteFamilyVersion else DeleteFamily);
        if v.None? {
          v := Some(EMPTY_QUALIFIER);
        }
      } else {
        dt := Some(if m.deleteOneVersion then DeleteOneVersion else DeleteMultipleVersions);
      }
    }
    var qvs := QualifierValues(m, k, if v.Some? then v.value else map[], ts, dt);
    return ColumnValue(k, qvs);
  }

  /** The columns denote the cells the mutation means, each once, in any order; there is one per family. */
  method ValuesToProto(m: Mutate) returns (cvs: seq<ColumnValue>)
    ensures Lists(ProtoCells(m.key, cvs), Meaning(m))
    ensures |cvs| == |m.values| && forall i :: 0 <= i < |cvs| ==> cvs[i].family in m.values
  {
    hide CellsOf, FamilyCells, Lists, ProtoCells, ColumnCells, ColumnsOf, KindOf;
    NoCells(m, AllColumns(m));
    NoProtoCells(m.key);
    cvs := [];
    var ts := if m.timestamp != MAX_TIMESTAMP then Some(m.timestamp) else None;
    var todo := m.values.Keys;
    assert m.values.Keys - todo == {};
    while todo != {}
      invariant todo <= m.values.Keys && |cvs| + |todo| == |m.values|
      invariant forall i :: 0 <= i < |cvs| ==> cvs[i].family in m.values
      invariant Lists(ProtoCells(m.key, cvs), CellsOf(m, AllColumns(m), m.values.Keys - todo))
    {
      var k :| k in todo;
      var cv := ToColumnValue(m, k, ts);
      ghost var fs := m.values.Keys - todo;
      ProtoStep(m, cvs, fs, cv);
      cvs := cvs + [cv];
      assert fs + {k} == m.values.Keys - (todo - {k});
      todo := todo - {k};
    }
    assert m.values.Keys - todo == m.values.Keys;
  }

  lemma ProtoStep(m: Mutate, cvs: seq<ColumnValue>, fs: set<Key>, cv: ColumnValue)
    requires fs + {cv.family} <= m.values.Keys && cv.family !in fs
    requires Lists(ProtoCells(m.key, cvs), CellsOf(m, AllColumns(m), fs))
    requires var v := AllColumns(m)[cv.family];
      Lists(ColumnCells(m.key, cv), FamilyCells(m, cv.family, KindOf(m, m.values[cv.family]), v, v.Keys))
    ensures Lists(ProtoCells(m.key, cvs + [cv]), CellsOf(m, AllColumns(m), fs + {cv.family}))
  {
    hide CellsOf, FamilyCells, Lists, ProtoCells, ColumnCells, KindOf;
    var cols := AllColumns(m);
    CellsOfStep(m, cols, fs, cv.family);
    ListsConcat(ProtoCells(m.key, cvs), CellsOf(m, cols, fs), ColumnCells(m.key, cv),
                FamilyCells(m, cv.family, KindOf(m, m.values[cv.family]), cols[cv.family], cols[cv.family].Keys));
    ProtoCellsAdd(m.key, cvs, cv);
  }

  lemma NoProtoCells(row: Key)
    ensures ProtoCells(row, []) == []
  {
  }

  /** A mutation encoded both ways says the same, cell by cell, whenever the compact form exists. */
  method EncodeBoth(m: Mutate) returns (r: Compact, cvs: seq<ColumnValue>, ghost kvs: seq<KeyValue>)
    ensures HasNilColumns(m) <==> r.Mismatch?
    ensures r.Compact? ==> (
      && r.cbs == EncodeAll(kvs) && multiset(kvs) == multiset(ProtoCells(m.key, cvs))
      && r.count == Int32(|ProtoCells(m.key, cvs)|))
  {
    hide Lists, Meaning, HasNilColumns, EncodeAll, ProtoCells;
    r, kvs := ValuesToCellblocks(m);
    cvs := ValuesToProto(m);
    if r.Compact? {
      SameCells(kvs, ProtoCells(m.key, cvs), Meaning(m));
      assert |kvs| == |multiset(kvs)| && |ProtoCells(m.key, cvs)| == |multiset(ProtoCells(m.key, cvs))|;
    }
  }
}
