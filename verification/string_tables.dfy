/** The string tables of an EXI stream (procTypes.h, "String Table Types"):
    the URI partition, a local-name partition per URI, the global value
    partition and, per local name, the local value partition as a list of
    global value row ids. Tables only ever grow: rows are appended, never
    changed or removed. A C `NULL` table pointer is `None`. */
module STables {
  import opened ErrorHandle
  import opened ProcTypes

  datatype LnRow = LnRow(name: Str, vCross: Option<seq<nat>>)
  datatype UriRow = UriRow(uri: Str, lTable: Option<seq<LnRow>>)
  datatype Tables = Tables(uris: seq<UriRow>, values: seq<Str>)

  /** The position of the current element or attribute name
      (`StringTablesContext.curr_uriID` / `curr_lnID`). */
  datatype QNameRef = QNameRef(uriID: nat, lnID: nat)

  // ------------------------------------------------------------- lookups

  /** The first URI row holding `uri` (lookupURI). */
  function FindUri(rows: seq<UriRow>, uri: Str): (r: Option<nat>)
    ensures r.Some? ==> r.value < |rows| && rows[r.value].uri == uri
                        && forall k :: 0 <= k < r.value ==> rows[k].uri != uri
    ensures r.None? ==> forall k :: 0 <= k < |rows| ==> rows[k].uri != uri
    decreases |rows|
  {
    if |rows| == 0 then None
    else if rows[|rows| - 1].uri == uri && FindUri(rows[..|rows| - 1], uri).None? then Some(|rows| - 1)
    else FindUri(rows[..|rows| - 1], uri)
  }

  /** The first local-name row holding `name` (lookupLN); a missing table
      holds nothing. */
  function FindLn(lt: Option<seq<LnRow>>, name: Str): (r: Option<nat>)
    ensures r.Some? ==> lt.Some? && r.value < |lt.value| && lt.value[r.value].name == name
    ensures r.None? && lt.Some? ==> forall k :: 0 <= k < |lt.value| ==> lt.value[k].name != name
  {
    if lt.None? then None else FindLnIn(lt.value, name)
  }

  function FindLnIn(rows: seq<LnRow>, name: Str): (r: Option<nat>)
    ensures r.Some? ==> r.value < |rows| && rows[r.value].name == name
                        && forall k :: 0 <= k < r.value ==> rows[k].name != name
    ensures r.None? ==> forall k :: 0 <= k < |rows| ==> rows[k].name != name
    decreases |rows|
  {
    if |rows| == 0 then None
    else if rows[|rows| - 1].name == name && FindLnIn(rows[..|rows| - 1], name).None? then Some(|rows| - 1)
    else FindLnIn(rows[..|rows| - 1], name)
  }

  /** The first global value row holding `v` (lookupVal). */
  function FindValue(values: seq<Str>, v: Str): (r: Option<nat>)
    ensures r.Some? ==> r.value < |values| && values[r.value] == v
                        && forall k :: 0 <= k < r.value ==> values[k] != v
    ensures r.None? ==> forall k :: 0 <= k < |values| ==> values[k] != v
    decreases |values|
  {
    if |values| == 0 then None
    else if values[|values| - 1] == v && FindValue(values[..|values| - 1], v).None? then Some(|values| - 1)
    else FindValue(values[..|values| - 1], v)
  }

  /** The first entry of a local value partition whose global row holds `v`
      (lookupLV); the result is the position in the local partition. */
  function FindLocalValue(values: seq<Str>, cross: Option<seq<nat>>, v: Str): (r: Option<nat>)
    ensures r.Some? ==> cross.Some? && r.value < |cross.value|
                        && cross.value[r.value] < |values| && values[cross.value[r.value]] == v
    ensures r.None? && cross.Some? ==> forall k :: 0 <= k < |cross.value| && cross.value[k] < |values|
                                                   ==> values[cross.value[k]] != v
  {
    if cross.None? then None else FindLocalIn(values, cross.value, v)
  }

  function FindLocalIn(values: seq<Str>, ids: seq<nat>, v: Str): (r: Option<nat>)
    ensures r.Some? ==> r.value < |ids| && ids[r.value] < |values| && values[ids[r.value]] == v
    ensures r.None? ==> forall k :: 0 <= k < |ids| && ids[k] < |values| ==> values[ids[k]] != v
    decreases |ids|
  {
    if |ids| == 0 then None
    else
      var last := ids[|ids| - 1];
      var earlier := FindLocalIn(values, ids[..|ids| - 1], v);
      if earlier.Some? then Some(earlier.value)
      else if last < |values| && values[last] == v then Some(|ids| - 1)
      else None
  }

  // ----------------------------------------------------------- appending

  /** addURIRow: a new URI row without a local-name table; its id is the old
      row count. */
  function AddUriRow(t: Tables, uri: Str): (r: Tables)
    ensures |r.uris| == |t.uris| + 1 && r.uris[|t.uris|] == UriRow(uri, None)
    ensures r.uris[..|t.uris|] == t.uris && r.values == t.values
  {
    t.(uris := t.uris + [UriRow(uri, None)])
  }

  /** The local-name table of URI row `u` after it has been replaced. */
  function SetLTable(t: Tables, u: nat, lt: seq<LnRow>): (r: Tables)
    requires u < |t.uris|
    ensures |r.uris| == |t.uris| && r.values == t.values
    ensures r.uris[u] == UriRow(t.uris[u].uri, Some(lt))
    ensures forall k :: 0 <= k < |t.uris| && k != u ==> r.uris[k] == t.uris[k]
  {
    t.(uris := t.uris[u := UriRow(t.uris[u].uri, Some(lt))])
  }

  /** addLNRow on URI row `u`, creating the table first when it is missing
      (createLocalNamesTable); the new row's id is the old row count. */
  function AddLnRow(t: Tables, u: nat, name: Str): (r: Tables)
    requires u < |t.uris|
    ensures |r.uris| == |t.uris| && r.values == t.values && r.uris[u].uri == t.uris[u].uri
    ensures r.uris[u].lTable == Some(RowsOf(t.uris[u].lTable) + [LnRow(name, None)])
    ensures forall k :: 0 <= k < |t.uris| && k != u ==> r.uris[k] == t.uris[k]
  {
    SetLTable(t, u, RowsOf(t.uris[u].lTable) + [LnRow(name, None)])
  }

  /** The rows of a possibly missing table: a local-name table or a local
      value partition that has not been created yet holds nothing. */
  function RowsOf<T>(lt: Option<seq<T>>): (r: seq<T>)
    ensures lt.Some? ==> r == lt.value
    ensures lt.None? ==> r == []
  {
    if lt.Some? then lt.value else []
  }

  /** addGVRow followed by addLVRow: a new global value row, whose id is also
      appended to the local value partition of the name at `q`. */
  function AddValueRow(t: Tables, q: QNameRef, v: Str): (r: Tables)
    requires q.uriID < |t.uris| && t.uris[q.uriID].lTable.Some? && q.lnID < |t.uris[q.uriID].lTable.value|
    ensures r.values == t.values + [v] && |r.uris| == |t.uris|
    ensures var lt := t.uris[q.uriID].lTable.value;
            r.uris[q.uriID] == UriRow(t.uris[q.uriID].uri,
              Some(lt[q.lnID := LnRow(lt[q.lnID].name, Some(RowsOf(lt[q.lnID].vCross) + [|t.values|]))]))
    ensures forall k :: 0 <= k < |t.uris| && k != q.uriID ==> r.uris[k] == t.uris[k]
  {
    var lt := t.uris[q.uriID].lTable.value;
    var row := lt[q.lnID];
    var row' := LnRow(row.name, Some(RowsOf(row.vCross) + [|t.values|]));
    SetLTable(t.(values := t.values + [v]), q.uriID, lt[q.lnID := row'])
  }

  // --------------------------------------------------------- resolution

  /** `q` names an existing local-name row. */
  predicate ValidRef(t: Tables, q: QNameRef) {
    q.uriID < |t.uris| && t.uris[q.uriID].lTable.Some? && q.lnID < |t.uris[q.uriID].lTable.value|
  }

  function UriOf(t: Tables, q: QNameRef): Str
    requires ValidRef(t, q)
  {
    t.uris[q.uriID].uri
  }

  function LocalNameOf(t: Tables, q: QNameRef): Str
    requires ValidRef(t, q)
  {
    t.uris[q.uriID].lTable.value[q.lnID].name
  }

  /** Every local value partition entry names a global value row. */
  predicate CrossIdsValid(t: Tables) {
    forall u, j, k :: 0 <= u < |t.uris| && t.uris[u].lTable.Some? && 0 <= j < |t.uris[u].lTable.value|
                      && t.uris[u].lTable.value[j].vCross.Some? && 0 <= k < |t.uris[u].lTable.value[j].vCross.value|
                      ==> t.uris[u].lTable.value[j].vCross.value[k] < |t.values|
  }

  // ------------------------------------------------------------- growth

  /** `b` extends `a`: every row of `a` is still in `b` at the same id and
      holds the same string. */
  predicate Extends(a: Tables, b: Tables) {
    |a.uris| <= |b.uris| && |a.values| <= |b.values| && b.values[..|a.values|] == a.values
    && forall u :: 0 <= u < |a.uris| ==> b.uris[u].uri == a.uris[u].uri && LnExtends(a.uris[u].lTable, b.uris[u].lTable)
  }

  predicate LnExtends(a: Option<seq<LnRow>>, b: Option<seq<LnRow>>) {
    a.Some? ==> b.Some? && |a.value| <= |b.value|
                && forall j :: 0 <= j < |a.value| ==> b.value[j].name == a.value[j].name
  }

  lemma ExtendsRefl(t: Tables)
    ensures Extends(t, t)
  {
  }

  lemma ExtendsTrans(a: Tables, b: Tables, c: Tables)
    requires Extends(a, b) && Extends(b, c)
    ensures Extends(a, c)
  {
    assert c.values[..|a.values|] == c.values[..|b.values|][..|a.values|];
  }

  /** A reference valid in `a` stays valid in every extension and resolves
      to the same names. */
  lemma ExtendsKeepsRef(a: Tables, b: Tables, q: QNameRef)
    requires Extends(a, b) && ValidRef(a, q)
    ensures ValidRef(b, q) && UriOf(b, q) == UriOf(a, q) && LocalNameOf(b, q) == LocalNameOf(a, q)
  {
  }

  lemma AddUriRowExtends(t: Tables, uri: Str)
    ensures Extends(t, AddUriRow(t, uri))
  {
  }

  lemma AddLnRowExtends(t: Tables, u: nat, name: Str)
    requires u < |t.uris|
    ensures Extends(t, AddLnRow(t, u, name))
  {
  }

  lemma AddValueRowExtends(t: Tables, q: QNameRef, v: Str)
    requires ValidRef(t, q)
    ensures Extends(t, AddValueRow(t, q, v))
  {
  }

  /** Appending a value keeps every local partition entry in range. */
  lemma AddValueRowKeepsCrossIds(t: Tables, q: QNameRef, v: Str)
    requires ValidRef(t, q) && CrossIdsValid(t)
    ensures CrossIdsValid(AddValueRow(t, q, v))
  {
    var r := AddValueRow(t, q, v);
    forall u, j, k | 0 <= u < |r.uris| && r.uris[u].lTable.Some? && 0 <= j < |r.uris[u].lTable.value|
                     && r.uris[u].lTable.value[j].vCross.Some? && 0 <= k < |r.uris[u].lTable.value[j].vCross.value|
      ensures r.uris[u].lTable.value[j].vCross.value[k] < |r.values|
    {
      if u == q.uriID && j == q.lnID {
        var prev := RowsOf(t.uris[u].lTable.value[j].vCross);
        if k < |prev| {
          assert r.uris[u].lTable.value[j].vCross.value[k] == t.uris[u].lTable.value[j].vCross.value[k];
        }
      } else {
        assert r.uris[u].lTable.value[j] == t.uris[u].lTable.value[j];
      }
    }
  }

  lemma AddUriRowKeepsCrossIds(t: Tables, uri: Str)
    requires CrossIdsValid(t)
    ensures CrossIdsValid(AddUriRow(t, uri))
  {
    var r := AddUriRow(t, uri);
    forall u, j, k | 0 <= u < |r.uris| && r.uris[u].lTable.Some? && 0 <= j < |r.uris[u].lTable.value|
                     && r.uris[u].lTable.value[j].vCross.Some? && 0 <= k < |r.uris[u].lTable.value[j].vCross.value|
      ensures r.uris[u].lTable.value[j].vCross.value[k] < |r.values|
    {
      assert u < |t.uris|;
      assert r.uris[u] == t.uris[u];
    }
  }

  lemma AddLnRowKeepsCrossIds(t: Tables, u0: nat, name: Str)
    requires u0 < |t.uris| && CrossIdsValid(t)
    ensures CrossIdsValid(AddLnRow(t, u0, name))
  {
    var r := AddLnRow(t, u0, name);
    forall u, j, k | 0 <= u < |r.uris| && r.uris[u].lTable.Some? && 0 <= j < |r.uris[u].lTable.value|
                     && r.uris[u].lTable.value[j].vCross.Some? && 0 <= k < |r.uris[u].lTable.value[j].vCross.value|
      ensures r.uris[u].lTable.value[j].vCross.value[k] < |r.values|
    {
      if u != u0 {
        assert r.uris[u] == t.uris[u];
      } else if j < |RowsOf(t.uris[u].lTable)| {
        assert r.uris[u].lTable.value[j] == t.uris[u].lTable.value[j];
      }
    }
  }
}
