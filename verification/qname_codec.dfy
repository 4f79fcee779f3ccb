/** The string-table codecs of grammars.c: QNames (a URI part and a
    local-name part) and string values, each with its hit and miss
    conventions, and the reference encoders (encodeQName,
    encodeStringData) with their round trips.

    URI part: an n-bit code of width getBitsNumber(uriCount); 0 is a miss
    followed by the string, k > 0 is a hit on row k-1.
    Local-name part: an unsigned integer; 0 is a hit followed by the row id
    in getBitsNumber(rowCount - 1) bits, L + 1 is a miss followed by L code
    points.
    Values: 0 is a local-partition hit, 1 a global-partition hit (each
    followed by the row id), L + 2 a miss followed by L code points.

    Row ids the C code would use to index past a table, and tables it would
    dereference through `NULL`, are errors here. */
module QNameCodec {
  import opened ErrorHandle
  import opened ProcTypes
  import opened StreamIO
  import opened StreamDecode
  import opened StreamEncode
  import opened STables

  // ------------------------------------------------------------- decoding

  /** The URI part of a QName: the URI row id and the tables after it. */
  function DecodeUriPart(o: Options, t: Tables, s: Bits): (r: Result<(nat, Tables, Bits)>)
    ensures r.Ok? ==> r.value.0 < |r.value.1.uris| && Extends(t, r.value.1)
    ensures r.Ok? ==> (r.value.1 == t && r.value.0 < |t.uris|)
                      || (r.value.0 == |t.uris| && r.value.1 == AddUriRow(t, r.value.1.uris[r.value.0].uri))
  {
    var code :- DecodeNBitUnsignedInteger(o, s, GetBitsNumber(|t.uris|));
    if code.0 == 0 then
      var str :- DecodeString(code.1);
      AddUriRowExtends(t, str.0);
      Ok((|t.uris|, AddUriRow(t, str.0), str.1))
    else if code.0 - 1 < |t.uris| then
      ExtendsRefl(t);
      Ok((code.0 - 1, t, code.1))
    else Err(OutOfBoundBuffer)
  }

  /** The local-name part of a QName in URI row `u`. */
  function DecodeLocalNamePart(o: Options, t: Tables, u: nat, s: Bits): (r: Result<(nat, Tables, Bits)>)
    requires u < |t.uris|
    ensures r.Ok? ==> ValidRef(r.value.1, QNameRef(u, r.value.0)) && Extends(t, r.value.1)
    ensures r.Ok? ==> (r.value.1 == t)
                      || (r.value.0 == |RowsOf(t.uris[u].lTable)|
                          && r.value.1 == AddLnRow(t, u, LocalNameOf(r.value.1, QNameRef(u, r.value.0))))
  {
    var flag :- DecodeUnsignedInteger(s);
    if flag.0 == 0 then
      match t.uris[u].lTable
      case None => Err(NullPointerRef)
      case Some(lt) =>
        var id :- DecodeNBitUnsignedInteger(o, flag.1, GetBitsNumber(PredU32(|lt|)));
        if id.0 < |lt| then
          ExtendsRefl(t);
          Ok((id.0, t, id.1))
        else Err(OutOfBoundBuffer)
    else
      var name :- DecodeStringOnly(flag.1, flag.0 - 1);
      AddLnRowExtends(t, u, name.0);
      Ok((|RowsOf(t.uris[u].lTable)|, AddLnRow(t, u, name.0), name.1))
  }

  /** decodeQName: the URI part, then the local-name part in that URI's
      partition; the result is the new current name. */
  function DecodeQName(o: Options, t: Tables, s: Bits): (r: Result<(QNameRef, Tables, Bits)>)
    ensures r.Ok? ==> ValidRef(r.value.1, r.value.0) && Extends(t, r.value.1)
  {
    var up :- DecodeUriPart(o, t, s);
    var lp :- DecodeLocalNamePart(o, up.1, up.0, up.2);
    ExtendsTrans(t, up.1, lp.1);
    Ok((QNameRef(up.0, lp.0), lp.1, lp.2))
  }

  /** The local-name row `q` names, or the error the C code's dereference
      would hit. */
  function LnRowAt(t: Tables, q: QNameRef): (r: Result<LnRow>)
    ensures r.Ok? <==> ValidRef(t, q)
    ensures r.Ok? ==> r.value == t.uris[q.uriID].lTable.value[q.lnID]
  {
    if q.uriID >= |t.uris| then Err(OutOfBoundBuffer)
    else if t.uris[q.uriID].lTable.None? then Err(NullPointerRef)
    else if q.lnID >= |t.uris[q.uriID].lTable.value| then Err(OutOfBoundBuffer)
    else Ok(t.uris[q.uriID].lTable.value[q.lnID])
  }

  /** decodeStringValue for the current name `q`: the value and the tables
      after it. A hit changes nothing; a miss appends the value to the
      global partition and its id to the local partition of `q`. */
  function DecodeStringValue(o: Options, t: Tables, q: QNameRef, s: Bits): (r: Result<(Str, Tables, Bits)>)
    ensures r.Ok? ==> r.value.0 in r.value.1.values && Extends(t, r.value.1)
    ensures r.Ok? ==> r.value.1 == t || (ValidRef(t, q) && r.value.1 == AddValueRow(t, q, r.value.0))
  {
    var flag :- DecodeUnsignedInteger(s);
    if flag.0 == 0 then
      var row :- LnRowAt(t, q);
      match row.vCross
      case None => Err(NullPointerRef)
      case Some(cross) =>
        var id :- DecodeNBitUnsignedInteger(o, flag.1, GetBitsNumber(PredU32(|cross|)));
        if id.0 < |cross| && cross[id.0] < |t.values| then
          ExtendsRefl(t);
          Ok((t.values[cross[id.0]], t, id.1))
        else Err(OutOfBoundBuffer)
    else if flag.0 == 1 then
      var id :- DecodeNBitUnsignedInteger(o, flag.1, GetBitsNumber(PredU32(|t.values|)));
      if id.0 < |t.values| then
        ExtendsRefl(t);
        Ok((t.values[id.0], t, id.1))
      else Err(OutOfBoundBuffer)
    else
      var str :- DecodeStringOnly(flag.1, flag.0 - 2);
      var _ :- LnRowAt(t, q);
      AddValueRowExtends(t, q, str.0);
      Ok((str.0, AddValueRow(t, q, str.0), str.1))
  }

  // ------------------------------------------------------------- encoding

  /** The URI part of encodeQName: the bits, the URI row id and the tables. */
  function EncodeUriPart(o: Options, t: Tables, uri: Str): (r: (Bits, nat, Tables))
    ensures r.1 < |r.2.uris| && r.2.uris[r.1].uri == uri && Extends(t, r.2)
    ensures FindUri(t.uris, uri).Some? ==> r.2 == t
  {
    var w := GetBitsNumber(|t.uris|);
    match FindUri(t.uris, uri)
    case Some(i) =>
      ExtendsRefl(t);
      (EncodeNBitUnsignedInteger(o, i + 1, w), i, t)
    case None =>
      AddUriRowExtends(t, uri);
      (EncodeNBitUnsignedInteger(o, 0, w) + EncodeString(uri), |t.uris|, AddUriRow(t, uri))
  }

  /** The local-name part of encodeQName in URI row `u`. */
  function EncodeLocalNamePart(o: Options, t: Tables, u: nat, name: Str): (r: (Bits, nat, Tables))
    requires u < |t.uris|
    ensures ValidRef(r.2, QNameRef(u, r.1)) && LocalNameOf(r.2, QNameRef(u, r.1)) == name && Extends(t, r.2)
    ensures FindLn(t.uris[u].lTable, name).Some? ==> r.2 == t
  {
    match FindLn(t.uris[u].lTable, name)
    case Some(j) =>
      ExtendsRefl(t);
      var lt := t.uris[u].lTable.value;
      (EncodeUnsignedInteger(0) + EncodeNBitUnsignedInteger(o, j, GetBitsNumber(PredU32(|lt|))), j, t)
    case None =>
      AddLnRowExtends(t, u, name);
      (EncodeUnsignedInteger(|name| + 1) + EncodeStringOnly(name), |RowsOf(t.uris[u].lTable)|, AddLnRow(t, u, name))
  }

  /** encodeQName: the bits written, the name's position and the tables
      after it. */
  function EncodeQName(o: Options, t: Tables, uri: Str, name: Str): (r: (Bits, QNameRef, Tables))
    ensures ValidRef(r.2, r.1) && UriOf(r.2, r.1) == uri && LocalNameOf(r.2, r.1) == name
    ensures Extends(t, r.2)
  {
    var up := EncodeUriPart(o, t, uri);
    var lp := EncodeLocalNamePart(o, up.2, up.1, name);
    ExtendsTrans(t, up.2, lp.2);
    (up.0 + lp.0, QNameRef(up.1, lp.1), lp.2)
  }

  /** encodeStringData for the current name `q`: the bits written and the
      tables after it. A value already in the global partition is never
      added again. */
  function EncodeStringData(o: Options, t: Tables, q: QNameRef, v: Str): (r: Result<(Bits, Tables)>)
    ensures r.Ok? <==> ValidRef(t, q)
    ensures r.Ok? && FindValue(t.values, v).Some? ==> r.value.1 == t
    ensures r.Ok? && FindValue(t.values, v).None? ==> r.value.1 == AddValueRow(t, q, v)
  {
    var row :- LnRowAt(t, q);
    match FindLocalValue(t.values, row.vCross, v)
    case Some(k) =>
      var cross := row.vCross.value;
      Ok((EncodeUnsignedInteger(0) + EncodeNBitUnsignedInteger(o, k, GetBitsNumber(PredU32(|cross|))), t))
    case None =>
      match FindValue(t.values, v)
      case Some(g) =>
        Ok((EncodeUnsignedInteger(1) + EncodeNBitUnsignedInteger(o, g, GetBitsNumber(PredU32(|t.values|))), t))
      case None =>
        Ok((EncodeUnsignedInteger(|v| + 2) + EncodeStringOnly(v), AddValueRow(t, q, v)))
  }

  // ---------------------------------------------------------- round trips

  /** A row id below `count` fits the width getBitsNumber(count - 1). */
  lemma RowIdFits(id: nat, count: nat)
    requires id < count
    ensures id < Pow2(GetBitsNumber(PredU32(count)))
  {
  }

  /** A flag followed by an n-bit row id reads back as the flag, then the id. */
  lemma FlagAndIdRoundTrip(o: Options, flag: nat, id: nat, w: nat, rest: Bits)
    requires id < Pow2(w)
    ensures var ids := EncodeNBitUnsignedInteger(o, id, w);
            DecodeUnsignedInteger(EncodeUnsignedInteger(flag) + ids + rest) == Ok((flag, ids + rest))
            && DecodeNBitUnsignedInteger(o, ids + rest, w) == Ok((id, rest))
  {
    var ids := EncodeNBitUnsignedInteger(o, id, w);
    ConcatAssoc(EncodeUnsignedInteger(flag), ids, rest);
    UnsignedIntegerRoundTrip(flag, ids + rest);
    NBitRoundTrip(o, id, w, rest);
  }

  /** A flag followed by a string body reads back as the flag, then the body. */
  lemma FlagAndStringRoundTrip(flag: nat, str: Str, rest: Bits)
    ensures DecodeUnsignedInteger(EncodeUnsignedInteger(flag) + EncodeStringOnly(str) + rest)
            == Ok((flag, EncodeStringOnly(str) + rest))
    ensures DecodeStringOnly(EncodeStringOnly(str) + rest, |str|) == Ok((str, rest))
  {
    ConcatAssoc(EncodeUnsignedInteger(flag), EncodeStringOnly(str), rest);
    UnsignedIntegerRoundTrip(flag, EncodeStringOnly(str) + rest);
    StringOnlyRoundTrip(str, rest);
  }

  lemma UriPartRoundTrip(o: Options, t: Tables, uri: Str, rest: Bits)
    ensures var e := EncodeUriPart(o, t, uri);
            DecodeUriPart(o, t, e.0 + rest) == Ok((e.1, e.2, rest))
  {
    var w := GetBitsNumber(|t.uris|);
    match FindUri(t.uris, uri)
    case Some(i) =>
      NBitRoundTrip(o, i + 1, w, rest);
    case None =>
      ConcatAssoc(EncodeNBitUnsignedInteger(o, 0, w), EncodeString(uri), rest);
      NBitRoundTrip(o, 0, w, EncodeString(uri) + rest);
      StringRoundTrip(uri, rest);
  }

  lemma LocalNamePartRoundTrip(o: Options, t: Tables, u: nat, name: Str, rest: Bits)
    requires u < |t.uris|
    ensures var e := EncodeLocalNamePart(o, t, u, name);
            DecodeLocalNamePart(o, t, u, e.0 + rest) == Ok((e.1, e.2, rest))
  {
    match FindLn(t.uris[u].lTable, name)
    case Some(j) =>
      var lt := t.uris[u].lTable.value;
      RowIdFits(j, |lt|);
      FlagAndIdRoundTrip(o, 0, j, GetBitsNumber(PredU32(|lt|)), rest);
    case None =>
      FlagAndStringRoundTrip(|name| + 1, name, rest);
  }

  /** Decoding what encodeQName wrote, against the same tables, yields the
      same name position and the same updated tables. */
  lemma QNameRoundTrip(o: Options, t: Tables, uri: Str, name: Str, rest: Bits)
    ensures var e := EncodeQName(o, t, uri, name);
            DecodeQName(o, t, e.0 + rest) == Ok((e.1, e.2, rest))
  {
    var up := EncodeUriPart(o, t, uri);
    var lp := EncodeLocalNamePart(o, up.2, up.1, name);
    ConcatAssoc(up.0, lp.0, rest);
    UriPartRoundTrip(o, t, uri, lp.0 + rest);
    LocalNamePartRoundTrip(o, up.2, up.1, name, rest);
  }

  /** Decoding what encodeStringData wrote, against the same tables and
      current name, yields the value and the same updated tables. */
  lemma StringValueRoundTrip(o: Options, t: Tables, q: QNameRef, v: Str, rest: Bits)
    requires ValidRef(t, q)
    ensures var e := EncodeStringData(o, t, q, v);
            e.Ok? && DecodeStringValue(o, t, q, e.value.0 + rest) == Ok((v, e.value.1, rest))
  {
    var row := t.uris[q.uriID].lTable.value[q.lnID];
    if FindLocalValue(t.values, row.vCross, v).Some? {
      LocalHitRoundTrip(o, t, q, v, rest);
    } else if FindValue(t.values, v).Some? {
      GlobalHitRoundTrip(o, t, q, v, rest);
    } else {
      ValueMissRoundTrip(o, t, q, v, rest);
    }
  }

  lemma LocalHitRoundTrip(o: Options, t: Tables, q: QNameRef, v: Str, rest: Bits)
    requires ValidRef(t, q)
    requires FindLocalValue(t.values, t.uris[q.uriID].lTable.value[q.lnID].vCross, v).Some?
    ensures var e := EncodeStringData(o, t, q, v);
            e.Ok? && DecodeStringValue(o, t, q, e.value.0 + rest) == Ok((v, e.value.1, rest))
  {
    var row := t.uris[q.uriID].lTable.value[q.lnID];
    var k := FindLocalValue(t.values, row.vCross, v).value;
    var cross := row.vCross.value;
    RowIdFits(k, |cross|);
    FlagAndIdRoundTrip(o, 0, k, GetBitsNumber(PredU32(|cross|)), rest);
  }

  lemma GlobalHitRoundTrip(o: Options, t: Tables, q: QNameRef, v: Str, rest: Bits)
    requires ValidRef(t, q)
    requires FindLocalValue(t.values, t.uris[q.uriID].lTable.value[q.lnID].vCross, v).None?
    requires FindValue(t.values, v).Some?
    ensures var e := EncodeStringData(o, t, q, v);
            e.Ok? && DecodeStringValue(o, t, q, e.value.0 + rest) == Ok((v, e.value.1, rest))
  {
    var g := FindValue(t.values, v).value;
    RowIdFits(g, |t.values|);
    FlagAndIdRoundTrip(o, 1, g, GetBitsNumber(PredU32(|t.values|)), rest);
  }

  lemma ValueMissRoundTrip(o: Options, t: Tables, q: QNameRef, v: Str, rest: Bits)
    requires ValidRef(t, q)
    requires FindLocalValue(t.values, t.uris[q.uriID].lTable.value[q.lnID].vCross, v).None?
    requires FindValue(t.values, v).None?
    ensures var e := EncodeStringData(o, t, q, v);
            e.Ok? && DecodeStringValue(o, t, q, e.value.0 + rest) == Ok((v, e.value.1, rest))
  {
    var bits := EncodeUnsignedInteger(|v| + 2) + EncodeStringOnly(v);
    assert EncodeStringData(o, t, q, v) == Ok((bits, AddValueRow(t, q, v)));
    FlagAndStringRoundTrip(|v| + 2, v, rest);
    LiteralValueDecodes(o, t, q, v, bits + rest, EncodeStringOnly(v) + rest, rest);
  }

  /** A length flag of at least two introduces a literal, which is added to
      the value tables. */
  lemma LiteralValueDecodes(o: Options, t: Tables, q: QNameRef, v: Str, s: Bits, s': Bits, rest: Bits)
    requires ValidRef(t, q)
    requires DecodeUnsignedInteger(s) == Ok((|v| + 2, s'))
    requires DecodeStringOnly(s', |v|) == Ok((v, rest))
    ensures DecodeStringValue(o, t, q, s) == Ok((v, AddValueRow(t, q, v), rest))
  {
  }
}
