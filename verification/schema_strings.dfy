/** The string handling of the schema grammar builder (grammarGenerator.c):
    the byte-wise string order used by its comparators, the two string-table
    copies it keeps in step (`initial`, which becomes part of the generated
    schema, and `meta`, its scratch copy) with their lookup-or-insert
    helpers, the sort that leaves the reserved initial rows in place, and
    the attribute-use comparator. */
module SchemaStrings {
  import opened ErrorHandle
  import opened ProcTypes
  import opened STables

  // ------------------------------------------------------- string order

  /** stringCompare: negative, zero or positive as `a` sorts before, equal
      to, or after `b`, comparing code points from the left; a proper
      prefix sorts first. */
  function StrCompare(a: Str, b: Str): (r: int)
    ensures -1 <= r <= 1
    ensures r == 0 <==> a == b
    decreases |a|
  {
    if |a| == 0 && |b| == 0 then 0
    else if |a| == 0 then -1
    else if |b| == 0 then 1
    else if a[0] < b[0] then -1
    else if a[0] > b[0] then 1
    else
      var c := StrCompare(a[1..], b[1..]);
      assert c == 0 ==> a == [a[0]] + a[1..] == [b[0]] + b[1..] == b;
      c
  }

  /** The lexicographic order written out independently: `a` sorts before
      `b` when they first differ at a smaller code point of `a`, or when
      `a` is a proper prefix of `b`. */
  predicate LexLess(a: Str, b: Str) {
    (exists k :: 0 <= k < |a| && k < |b| && a[..k] == b[..k] && a[k] < b[k])
    || (|a| < |b| && a == b[..|a|])
  }

  lemma LexLessTail(a: Str, b: Str)
    requires |a| > 0 && |b| > 0 && a[0] == b[0]
    ensures LexLess(a, b) <==> LexLess(a[1..], b[1..])
  {
    if LexLess(a, b) {
      if k :| 0 <= k < |a| && k < |b| && a[..k] == b[..k] && a[k] < b[k] {
        assert k > 0;
        assert a[1..][..k - 1] == a[1..k] == b[1..k] == b[1..][..k - 1];
        assert a[1..][k - 1] < b[1..][k - 1];
      } else {
        assert a[1..] == b[1..][..|a| - 1];
      }
    }
    if LexLess(a[1..], b[1..]) {
      if k :| 0 <= k < |a| - 1 && k < |b| - 1 && a[1..][..k] == b[1..][..k] && a[1..][k] < b[1..][k] {
        assert a[..k + 1] == [a[0]] + a[1..][..k] == [b[0]] + b[1..][..k] == b[..k + 1];
        assert a[k + 1] < b[k + 1];
      } else {
        assert a == [a[0]] + a[1..] == [b[0]] + b[1..][..|a| - 1] == b[..|a|];
      }
    }
  }

  lemma LexLessHeads(a: Str, b: Str)
    requires |a| > 0 && |b| > 0 && a[0] != b[0]
    ensures LexLess(a, b) <==> a[0] < b[0]
  {
    if a[0] < b[0] {
      assert a[..0] == b[..0];
    } else {
      if |a| < |b| {
        assert b[..|a|][0] == b[0];
      }
      forall k | 0 < k < |a| && k < |b|
        ensures a[..k] != b[..k]
      {
        assert a[..k][0] == a[0] && b[..k][0] == b[0];
      }
    }
  }

  /** The comparator agrees with the lexicographic order. */
  lemma {:induction false} StrCompareIsLexicographic(a: Str, b: Str)
    ensures StrCompare(a, b) < 0 <==> LexLess(a, b)
    decreases |a|
  {
    if |a| == 0 {
      assert a == b[..|a|];
    } else if |b| == 0 {
    } else if a[0] != b[0] {
      LexLessHeads(a, b);
    } else {
      StrCompareIsLexicographic(a[1..], b[1..]);
      LexLessTail(a, b);
    }
  }

  /** Swapping the operands negates the comparison. */
  lemma {:induction false} StrCompareAntisymmetric(a: Str, b: Str)
    ensures StrCompare(a, b) == -StrCompare(b, a)
    decreases |a|
  {
    if |a| > 0 && |b| > 0 && a[0] == b[0] {
      StrCompareAntisymmetric(a[1..], b[1..]);
    }
  }

  /** "Sorts no later than" is transitive. */
  lemma {:induction false} StrCompareTransitive(a: Str, b: Str, c: Str)
    requires StrCompare(a, b) <= 0 && StrCompare(b, c) <= 0
    ensures StrCompare(a, c) <= 0
    decreases |a|
  {
    if |a| > 0 && |b| > 0 && |c| > 0 && a[0] == b[0] == c[0] {
      StrCompareTransitive(a[1..], b[1..], c[1..]);
    }
  }

  // -------------------------------------------------------------- sorting

  /** `s` is in ascending order of `key` (as qsort with a stringCompare
      comparator leaves it). */
  predicate SortedBy<T>(s: seq<T>, key: T -> Str) {
    forall i, j :: 0 <= i < j < |s| ==> StrCompare(key(s[i]), key(s[j])) <= 0
  }

  function InsertBy<T(==)>(x: T, s: seq<T>, key: T -> Str): (r: seq<T>)
    ensures multiset(r) == multiset(s) + multiset{x}
    decreases |s|
  {
    if |s| == 0 then [x]
    else if StrCompare(key(x), key(s[0])) <= 0 then [x] + s
    else
      assert s == [s[0]] + s[1..];
      [s[0]] + InsertBy(x, s[1..], key)
  }

  /** A head no later than every element of a sorted tail keeps it sorted. */
  lemma ConsSorted<T>(h: T, s: seq<T>, key: T -> Str)
    requires SortedBy(s, key)
    requires forall j :: 0 <= j < |s| ==> StrCompare(key(h), key(s[j])) <= 0
    ensures SortedBy([h] + s, key)
  {
    var r := [h] + s;
    forall i, j | 0 <= i < j < |r|
      ensures StrCompare(key(r[i]), key(r[j])) <= 0
    {
      assert r[j] == s[j - 1];
      if i > 0 {
        assert r[i] == s[i - 1];
      }
    }
  }

  /** The head of a sorted sequence is no later than any element. */
  lemma HeadFirst<T>(x: T, s: seq<T>, key: T -> Str)
    requires SortedBy(s, key) && |s| > 0 && StrCompare(key(x), key(s[0])) <= 0
    ensures forall j :: 0 <= j < |s| ==> StrCompare(key(x), key(s[j])) <= 0
  {
    forall j | 0 <= j < |s|
      ensures StrCompare(key(x), key(s[j])) <= 0
    {
      if j > 0 {
        StrCompareTransitive(key(x), key(s[0]), key(s[j]));
      }
    }
  }

  /** Inserting into a sorted sequence keeps it sorted. */
  lemma {:induction false} InsertBySorted<T>(x: T, s: seq<T>, key: T -> Str)
    requires SortedBy(s, key)
    ensures SortedBy(InsertBy(x, s, key), key)
    decreases |s|
  {
    if |s| == 0 {
    } else if StrCompare(key(x), key(s[0])) <= 0 {
      HeadFirst(x, s, key);
      ConsSorted(x, s, key);
    } else {
      var tail := s[1..];
      var rest := InsertBy(x, tail, key);
      assert SortedBy(tail, key);
      InsertBySorted(x, tail, key);
      StrCompareAntisymmetric(key(x), key(s[0]));
      forall j | 0 <= j < |rest|
        ensures StrCompare(key(s[0]), key(rest[j])) <= 0
      {
        assert rest[j] in multiset(rest);
        if rest[j] != x {
          assert rest[j] in multiset(tail);
          var k :| 0 <= k < |tail| && tail[k] == rest[j];
          assert s[k + 1] == rest[j];
        }
      }
      ConsSorted(s[0], rest, key);
    }
  }

  /** An insertion sort on `key`: the result is sorted and a permutation
      of the input. */
  function SortBy<T(==)>(s: seq<T>, key: T -> Str): (r: seq<T>)
    ensures SortedBy(r, key)
    ensures multiset(r) == multiset(s)
    decreases |s|
  {
    if |s| == 0 then []
    else
      assert s == [s[0]] + s[1..];
      InsertBySorted(s[0], SortBy(s[1..], key), key);
      InsertBy(s[0], SortBy(s[1..], key), key)
  }

  /** qsort on `rows + k` with `rowCount - k` elements: the first `k` rows
      stay where they are and the rest is sorted. A table shorter than `k`
      is left as it is. */
  function SortFrom<T(==)>(s: seq<T>, k: nat, key: T -> Str): (r: seq<T>)
    ensures |r| == |s|
    ensures k <= |s| ==> r[..k] == s[..k] && SortedBy(r[k..], key) && multiset(r[k..]) == multiset(s[k..])
    ensures k > |s| ==> r == s
    ensures multiset(r) == multiset(s)
  {
    if k > |s| then s
    else
      var t := SortBy(s[k..], key);
      assert s == s[..k] + s[k..];
      assert (s[..k] + t)[k..] == t;
      s[..k] + t
  }

  function LnName(row: LnRow): Str { row.name }

  function UriString(row: UriRow): Str { row.uri }

  /** The local-name rows of URI row `i` that are never sorted: the 4, 2
      and 46 rows the EXI initial string table lists for the XML, XML Schema
      instance and XML Schema namespaces. */
  function LnPrefix(i: nat): (r: nat)
    ensures i == 1 ==> r == 4
    ensures i == 2 ==> r == 2
    ensures i == 3 ==> r == 46
    ensures i !in {1, 2, 3} ==> r == 0
  {
    if i == 1 then 4 else if i == 2 then 2 else if i == 3 then 46 else 0
  }

  /** The URI rows whose local-name tables have been sorted (first loop of
      sortInitialStringTables). */
  function SortLocalNames(rows: seq<UriRow>): (r: seq<UriRow>)
    ensures |r| == |rows|
    ensures forall i :: 0 <= i < |rows| ==> r[i].uri == rows[i].uri && (r[i].lTable.Some? <==> rows[i].lTable.Some?)
    ensures forall i :: 0 <= i < |rows| && rows[i].lTable.Some? ==>
              var before, after := rows[i].lTable.value, r[i].lTable.value;
              |after| == |before| && multiset(after) == multiset(before)
              && (LnPrefix(i) <= |before| ==> after[..LnPrefix(i)] == before[..LnPrefix(i)]
                                              && SortedBy(after[LnPrefix(i)..], LnName))
  {
    seq(|rows|, i requires 0 <= i < |rows| =>
      if rows[i].lTable.None? then rows[i]
      else UriRow(rows[i].uri, Some(SortFrom(rows[i].lTable.value, LnPrefix(i), LnName))))
  }

  /** sortInitialStringTables: every local-name table is sorted past its
      reserved rows, then the URI rows past the first four. */
  function SortInitialStringTables(t: Tables): (r: Tables)
    ensures r.values == t.values && |r.uris| == |t.uris|
    ensures 4 <= |t.uris| ==> (r.uris[..4] == SortLocalNames(t.uris)[..4]
                               && SortedBy(r.uris[4..], UriString)
                               && multiset(r.uris[4..]) == multiset(SortLocalNames(t.uris)[4..]))
    ensures multiset(r.uris) == multiset(SortLocalNames(t.uris))
  {
    t.(uris := SortFrom(SortLocalNames(t.uris), 4, UriString))
  }

  // ------------------------------------------------------- table pairs

  /** The builder's two table copies. */
  datatype TablePair = TablePair(initial: Tables, meta: Tables)

  /** The result of a lookup-or-insert: the tables afterwards and the row id. */
  datatype Added = Added(tables: TablePair, id: nat)

  function LnNames(lt: Option<seq<LnRow>>): (r: Option<seq<Str>>)
    ensures r.None? <==> lt.None?
    ensures lt.Some? ==> |r.value| == |lt.value| && forall k :: 0 <= k < |lt.value| ==> r.value[k] == lt.value[k].name
  {
    if lt.None? then None else Some(seq(|lt.value|, k requires 0 <= k < |lt.value| => lt.value[k].name))
  }

  /** The two copies hold the same URIs and local names at the same ids:
      the builder always appends to both. */
  predicate Lockstep(p: TablePair) {
    |p.initial.uris| == |p.meta.uris|
    && forall k :: 0 <= k < |p.initial.uris| ==>
         p.initial.uris[k].uri == p.meta.uris[k].uri && LnNames(p.initial.uris[k].lTable) == LnNames(p.meta.uris[k].lTable)
  }

  /** `q` names the row holding `uri` and `ln` in both copies. */
  predicate Names(p: TablePair, q: QNameRef, uri: Str, ln: Str) {
    ValidRef(p.initial, q) && ValidRef(p.meta, q)
    && UriOf(p.initial, q) == uri && UriOf(p.meta, q) == uri
    && LocalNameOf(p.initial, q) == ln && LocalNameOf(p.meta, q) == ln
  }

  /** `u` names the URI row holding `uri` in both copies. */
  predicate NamesUri(p: TablePair, u: nat, uri: Str) {
    u < |p.initial.uris| && u < |p.meta.uris| && p.initial.uris[u].uri == uri && p.meta.uris[u].uri == uri
  }

  /** addURIString: the existing row id when `uri` is in the initial table,
      otherwise a new row appended to both copies. */
  function AddUriString(p: TablePair, uri: Str): (r: Added)
    ensures Extends(p.initial, r.tables.initial) && Extends(p.meta, r.tables.meta)
    ensures FindUri(p.initial.uris, uri).Some? ==> r.tables == p
    ensures FindUri(p.initial.uris, uri).None? ==> |r.tables.initial.uris| == |p.initial.uris| + 1
    ensures Lockstep(p) ==> Lockstep(r.tables) && NamesUri(r.tables, r.id, uri)
  {
    match FindUri(p.initial.uris, uri)
    case Some(id) => Added(p, id)
    case None =>
      AddUriRowExtends(p.initial, uri);
      AddUriRowExtends(p.meta, uri);
      Added(TablePair(AddUriRow(p.initial, uri), AddUriRow(p.meta, uri)), |p.meta.uris|)
  }

  /** A second addURIString of the same string finds the row the first
      returned and changes nothing. */
  lemma AddUriStringIdempotent(p: TablePair, uri: Str)
    requires Lockstep(p)
    ensures var a := AddUriString(p, uri); AddUriString(a.tables, uri) == a
  {
    var a := AddUriString(p, uri);
    var f := FindUri(a.tables.initial.uris, uri);
    if FindUri(p.initial.uris, uri).None? {
      assert a.tables.initial.uris[|p.initial.uris|].uri == uri;
      assert f.Some?;
      assert forall k :: 0 <= k < |p.initial.uris| ==> a.tables.initial.uris[k].uri == p.initial.uris[k].uri;
    }
  }

  lemma SetLTableLockstep(p: TablePair, u: nat, a: seq<LnRow>, b: seq<LnRow>)
    requires Lockstep(p) && u < |p.initial.uris|
    requires LnNames(Some(a)) == LnNames(Some(b))
    ensures Lockstep(TablePair(SetLTable(p.initial, u, a), SetLTable(p.meta, u, b)))
  {
  }

  lemma AppendLnNames(a: seq<LnRow>, b: seq<LnRow>, ln: Str)
    requires LnNames(Some(a)) == LnNames(Some(b))
    ensures LnNames(Some(a + [LnRow(ln, None)])) == LnNames(Some(b + [LnRow(ln, None)]))
  {
    assert |a| == |b|;
    var x, y := LnNames(Some(a + [LnRow(ln, None)])).value, LnNames(Some(b + [LnRow(ln, None)])).value;
    assert forall k :: 0 <= k < |a| ==> x[k] == a[k].name == LnNames(Some(a)).value[k] == b[k].name == y[k];
    assert x == y;
  }

  /** addLocalName on URI row `u`: the existing row id when `ln` is in the
      initial table; otherwise the row is appended to both copies, creating
      the tables when the initial one is missing. The caller passes a URI
      row id just returned by AddUriString. */
  function AddLocalName(p: TablePair, u: nat, ln: Str): (r: Added)
    requires u < |p.initial.uris| && u < |p.meta.uris|
    ensures |r.tables.initial.uris| == |p.initial.uris| && |r.tables.meta.uris| == |p.meta.uris|
    ensures forall k :: 0 <= k < |p.initial.uris| && k != u ==> r.tables.initial.uris[k] == p.initial.uris[k]
    ensures FindLn(p.initial.uris[u].lTable, ln).Some? ==> r.tables == p
    ensures Lockstep(p) ==> Lockstep(r.tables) && Names(r.tables, QNameRef(u, r.id), p.initial.uris[u].uri, ln)
                            && Extends(p.initial, r.tables.initial) && Extends(p.meta, r.tables.meta)
  {
    var row := LnRow(ln, None);
    if p.initial.uris[u].lTable.None? then
      assert Lockstep(p) ==> Lockstep(TablePair(SetLTable(p.initial, u, [row]), SetLTable(p.meta, u, [row]))) by {
        if Lockstep(p) {
          SetLTableLockstep(p, u, [row], [row]);
        }
      }
      Added(TablePair(SetLTable(p.initial, u, [row]), SetLTable(p.meta, u, [row])), 0)
    else
      match FindLnIn(p.initial.uris[u].lTable.value, ln)
      case Some(id) => Added(p, id)
      case None =>
        AddLnRowExtends(p.initial, u, ln);
        AddLnRowExtends(p.meta, u, ln);
        var q := TablePair(AddLnRow(p.initial, u, ln), AddLnRow(p.meta, u, ln));
        assert Lockstep(p) ==> Lockstep(q) by {
          if Lockstep(p) {
            AppendLnNames(p.initial.uris[u].lTable.value, RowsOf(p.meta.uris[u].lTable), ln);
            SetLTableLockstep(p, u, RowsOf(p.initial.uris[u].lTable) + [row], RowsOf(p.meta.uris[u].lTable) + [row]);
          }
        }
        Added(q, |RowsOf(p.meta.uris[u].lTable)|)
  }

  /** A second addLocalName of the same name finds the row the first
      returned and changes nothing. */
  lemma AddLocalNameIdempotent(p: TablePair, u: nat, ln: Str)
    requires Lockstep(p) && u < |p.initial.uris|
    ensures var a := AddLocalName(p, u, ln); AddLocalName(a.tables, u, ln) == a
  {
    var a := AddLocalName(p, u, ln);
    var lt := a.tables.initial.uris[u].lTable.value;
    var before := RowsOf(p.initial.uris[u].lTable);
    assert a.id < |lt| && lt[a.id].name == ln;
    assert forall k :: 0 <= k < |before| && k < |lt| ==> lt[k].name == before[k].name;
    assert FindLn(p.initial.uris[u].lTable, ln).None? ==> a.id == |before|;
  }

  // ------------------------------------------------ attribute-use order

  /** compareAttrUse, with the table passed explicitly: local names first,
      then URIs on a tie. */
  function CompareAttrUse(t: Tables, a: QNameRef, b: QNameRef): (r: int)
    requires ValidRef(t, a) && ValidRef(t, b)
    ensures -1 <= r <= 1
    ensures r == 0 <==> LocalNameOf(t, a) == LocalNameOf(t, b) && UriOf(t, a) == UriOf(t, b)
  {
    var c := StrCompare(LocalNameOf(t, a), LocalNameOf(t, b));
    if c == 0 then StrCompare(UriOf(t, a), UriOf(t, b)) else c
  }

  /** The attribute-use order is the lexicographic order on (local name, URI). */
  lemma CompareAttrUseIsLexicographic(t: Tables, a: QNameRef, b: QNameRef)
    requires ValidRef(t, a) && ValidRef(t, b)
    ensures CompareAttrUse(t, a, b) < 0 <==>
              LexLess(LocalNameOf(t, a), LocalNameOf(t, b))
              || (LocalNameOf(t, a) == LocalNameOf(t, b) && LexLess(UriOf(t, a), UriOf(t, b)))
  {
    StrCompareIsLexicographic(LocalNameOf(t, a), LocalNameOf(t, b));
    StrCompareIsLexicographic(UriOf(t, a), UriOf(t, b));
  }

  /** Swapping the attribute uses negates the comparison. */
  lemma CompareAttrUseAntisymmetric(t: Tables, a: QNameRef, b: QNameRef)
    requires ValidRef(t, a) && ValidRef(t, b)
    ensures CompareAttrUse(t, a, b) == -CompareAttrUse(t, b, a)
  {
    StrCompareAntisymmetric(LocalNameOf(t, a), LocalNameOf(t, b));
    StrCompareAntisymmetric(UriOf(t, a), UriOf(t, b));
  }

  /** The attribute-use order is transitive, so qsort may use it. */
  lemma CompareAttrUseTransitive(t: Tables, a: QNameRef, b: QNameRef, c: QNameRef)
    requires ValidRef(t, a) && ValidRef(t, b) && ValidRef(t, c)
    requires CompareAttrUse(t, a, b) <= 0 && CompareAttrUse(t, b, c) <= 0
    ensures CompareAttrUse(t, a, c) <= 0
  {
    var la, lb, lc := LocalNameOf(t, a), LocalNameOf(t, b), LocalNameOf(t, c);
    StrCompareTransitive(la, lb, lc);
    if la == lc {
      StrCompareAntisymmetric(la, lb);
      if la == lb {
        StrCompareTransitive(UriOf(t, a), UriOf(t, b), UriOf(t, c));
      }
    }
  }
}
