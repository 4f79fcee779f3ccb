/** encodeHeader: the EXI header of section 5 of the EXI 1.0
    recommendation. An optional "$EXI" cookie, the distinguishing bits 10,
    the options presence bit, the preview bit, the version field, then the
    options document (its serializer is a parameter here) and padding to a
    byte boundary when the body is not bit-packed. */
module HeaderEncode {
  import opened ErrorHandle
  import opened ProcTypes
  import opened StreamIO

  /** The header fields written before the options document. */
  datatype HeaderFields = HeaderFields(hasCookie: bool, hasOptions: bool, isPreview: bool, version: int)

  // ------------------------------------------------------------- prefix

  /** The four cookie bytes "$EXI": 36, 69, 88 and 73. */
  const Cookie: Bits := WriteBits(36, 8) + WriteBits(69, 8) + WriteBits(88, 8) + WriteBits(73, 8)

  const DistinguishingBits: Bits := [true, false]

  /** The version as section 5.3 writes it: 4-bit groups, 15 meaning "add
      15 and read on", any smaller value ending the field; the groups sum to
      version - 1. */
  function VersionBits(version: nat): (r: Bits)
    requires version >= 1
    ensures |r| % 4 == 0 && |r| > 0
    decreases version
  {
    if version - 1 < 15 then WriteBits(version - 1, 4)
    else WriteBits(15, 4) + VersionBits(version - 15)
  }

  /** The version field as encodeHeader writes it: one group for versions
      up to 15, and 15 followed by version - 16 above that, each group the
      low four bits of an unsigned value. */
  function VersionBitsAsWritten(version: int): (r: Bits)
    ensures |r| == (if version > 15 then 8 else 4)
  {
    if version > 15 then WriteBits(15, 4) + WriteBits((version - 16) % 16, 4)
    else WriteBits((version - 1) % 16, 4)
  }

  /** Reads a version field: the reference the writers are measured by. */
  function DecodeVersion(s: Bits): (r: Result<(nat, Bits)>)
    ensures r.Ok? ==> r.value.0 >= 1 && |r.value.1| + 4 <= |s|
    decreases |s|
  {
    var g :- ReadBits(s, 4);
    if g.0 == 15 then
      var v :- DecodeVersion(g.1);
      Ok((v.0 + 15, v.1))
    else Ok((g.0 + 1, g.1))
  }

  function CookiePart(hasCookie: bool): Bits {
    if hasCookie then Cookie else []
  }

  /** The distinguishing bits, the two flags and a version field. */
  function Fields(f: HeaderFields, version: Bits): Bits {
    DistinguishingBits + [f.hasOptions, f.isPreview] + version
  }

  /** Bits before the options document. */
  function Prefix(f: HeaderFields): (r: Bits)
    requires f.version >= 1
    ensures |r| >= 8
  {
    CookiePart(f.hasCookie) + Fields(f, VersionBits(f.version))
  }

  function PrefixAsWritten(f: HeaderFields): (r: Bits)
    ensures |r| >= 8
  {
    CookiePart(f.hasCookie) + Fields(f, VersionBitsAsWritten(f.version))
  }

  /** Reads the header prefix: a cookie if the stream does not open with
      the distinguishing bits, then the bits, the two flags and the
      version. */
  function DecodePrefix(s: Bits): (r: Result<(HeaderFields, Bits)>)
  {
    var hasCookie := !(|s| >= 2 && s[..2] == DistinguishingBits);
    var afterCookie :- if !hasCookie then Ok(s)
                       else if |s| >= 32 && s[..32] == Cookie then Ok(s[32..])
                       else Err(InvalidExiInput);
    DecodeFields(afterCookie, hasCookie)
  }

  /** The part of the prefix after the cookie. */
  function DecodeFields(s: Bits, hasCookie: bool): (r: Result<(HeaderFields, Bits)>)
    ensures r.Ok? ==> r.value.0.hasCookie == hasCookie && r.value.0.version >= 1
  {
    var d :- ReadBits(s, 2);
    if d.0 != 2 then Err(InvalidExiInput)
    else
      var flags :- ReadBits(d.1, 2);
      var v :- DecodeVersion(flags.1);
      Ok((HeaderFields(hasCookie, flags.0 >= 2, flags.0 % 2 == 1, v.0), v.1))
  }

  // ---------------------------------------------------------- options

  /** The option categories of encodeHeader: uncommon (alignment,
      selfContained, valueMaxLength, valuePartitionCapacity, datatype
      representation map), lesscommon (those, preserve, blockSize) and
      common (compression, fragment, schemaId). */
  datatype Categories = Categories(uncommon: bool, lesscommon: bool, common: bool)

  function OptionCategories(o: Options): (c: Categories)
    ensures c.uncommon ==> c.lesscommon
  {
    var uncommon := o.alignment != BitPacked || o.selfContained || o.valueMaxLength != SizeMax
                    || o.valuePartitionCapacity != SizeMax || o.hasDrMap;
    var lesscommon := uncommon || o.preserve != 0 || o.blockSize != DefaultBlockSize;
    Categories(uncommon, lesscommon, o.compression || o.fragment || o.schemaID != [])
  }

  /** The options document leaves out exactly the defaults: no category
      and no strict element means the default options. */
  lemma NoCategoryMeansDefault(o: Options)
    ensures (var c := OptionCategories(o); !c.uncommon && !c.lesscommon && !c.common && !o.strict)
            <==> o == DefaultOptions
  {
  }

  /** Each category is present exactly when one of its options differs
      from its default. */
  lemma CategoriesAgainstDefaults(o: Options)
    ensures OptionCategories(o).uncommon <==>
              o.(compression := false, strict := false, fragment := false, preserve := 0,
                 schemaID := [], blockSize := DefaultBlockSize) != DefaultOptions
    ensures OptionCategories(o).common <==>
              o.(alignment := BitPacked, strict := false, preserve := 0, selfContained := false,
                 hasDrMap := false, blockSize := DefaultBlockSize, valueMaxLength := SizeMax,
                 valuePartitionCapacity := SizeMax) != DefaultOptions
    ensures OptionCategories(o).lesscommon <==>
              o.(compression := false, strict := false, fragment := false,
                 schemaID := []) != DefaultOptions
  {
  }

  // ----------------------------------------------------------- padding

  /** The write position: byte index and bit pointer 0..7. */
  datatype Cursor = Cursor(bufferIndx: nat, bitPointer: nat)

  function Offset(c: Cursor): nat {
    8 * c.bufferIndx + c.bitPointer
  }

  /** The padding step: outside bit-packed mode a partly written byte is
      closed by moving to the start of the next one. */
  function PadCursor(o: Options, c: Cursor): (r: Cursor)
    requires c.bitPointer < 8
    ensures IsBitPacked(o) || c.bitPointer == 0 ==> r == c
    ensures !IsBitPacked(o) ==> r.bitPointer == 0 && Offset(c) <= Offset(r) < Offset(c) + 8
  {
    if !IsBitPacked(o) && c.bitPointer != 0 then Cursor(c.bufferIndx + 1, 0) else c
  }

  /** The padding as bits: zeros up to the next multiple of eight. */
  function PadBits(o: Options, s: Bits): (r: Bits)
    ensures IsBitPacked(o) ==> r == s
    ensures !IsBitPacked(o) ==> |r| % 8 == 0 && |s| <= |r| < |s| + 8 && r[..|s|] == s
    ensures forall k :: |s| <= k < |r| ==> !r[k]
  {
    if IsBitPacked(o) || |s| % 8 == 0 then s else s + seq(8 - |s| % 8, _ => false)
  }

  /** The two views of padding agree on where the body starts. */
  lemma PadBitsAtCursor(o: Options, s: Bits)
    ensures |PadBits(o, s)| == Offset(PadCursor(o, Cursor(|s| / 8, |s| % 8)))
  {
  }

  // ------------------------------------------------------------ header

  /** encodeHeader with the version field of section 5.3; `optionsDoc` is
      the serialized options document, whose encoder is not part of this
      model. A datatype representation map or a schemaId cannot be
      serialized yet. */
  function EncodeHeader(f: HeaderFields, o: Options, optionsDoc: Bits): (r: Result<Bits>)
    requires f.version >= 1
    ensures r.Err? <==> f.hasOptions && (o.hasDrMap || o.schemaID != [])
    ensures r.Err? ==> r.code == NotImplementedYet
    ensures r.Ok? && !f.hasOptions ==> r.value == Prefix(f)
    ensures r.Ok? && f.hasOptions ==> r.value == PadBits(o, Prefix(f) + optionsDoc)
  {
    EncodeHeaderWith(f, o, optionsDoc, Prefix(f))
  }

  /** encodeHeader as written, with its version field. */
  function EncodeHeaderAsWritten(f: HeaderFields, o: Options, optionsDoc: Bits): (r: Result<Bits>)
    ensures r.Err? <==> f.hasOptions && (o.hasDrMap || o.schemaID != [])
    ensures r.Ok? ==> |PrefixAsWritten(f)| <= |r.value| && r.value[..|PrefixAsWritten(f)|] == PrefixAsWritten(f)
  {
    EncodeHeaderWith(f, o, optionsDoc, PrefixAsWritten(f))
  }

  function EncodeHeaderWith(f: HeaderFields, o: Options, optionsDoc: Bits, prefix: Bits): (r: Result<Bits>)
    ensures r.Err? <==> f.hasOptions && (o.hasDrMap || o.schemaID != [])
    ensures r.Err? ==> r.code == NotImplementedYet
    ensures r.Ok? && !f.hasOptions ==> r.value == prefix
    ensures r.Ok? && f.hasOptions ==> r.value == PadBits(o, prefix + optionsDoc)
    ensures r.Ok? ==> |prefix| <= |r.value| && r.value[..|prefix|] == prefix
  {
    if !f.hasOptions then Ok(prefix)
    else if o.hasDrMap || o.schemaID != [] then Err(NotImplementedYet)
    else
      var r := PadBits(o, prefix + optionsDoc);
      assert r[..|prefix|] == (prefix + optionsDoc)[..|prefix|];
      Ok(r)
  }

  // ------------------------------------------------------- round trips

  lemma {:induction false} VersionRoundTrip(version: nat, rest: Bits)
    requires version >= 1
    ensures DecodeVersion(VersionBits(version) + rest) == Ok((version, rest))
    decreases version
  {
    if version - 1 < 15 {
      ReadWritten(version - 1, 4, rest);
    } else {
      var tail := VersionBits(version - 15) + rest;
      assert VersionBits(version) + rest == WriteBits(15, 4) + tail;
      ReadWritten(15, 4, tail);
      VersionRoundTrip(version - 15, rest);
    }
  }

  /** Two bits read as a number: the first is its high bit. */
  lemma FlagsRoundTrip(a: bool, b: bool, rest: Bits)
    ensures var r := ReadBits([a] + [b] + rest, 2);
            r.Ok? && (r.value.0 >= 2 <==> a) && (r.value.0 % 2 == 1 <==> b) && r.value.1 == rest
  {
    var fl := if a then (if b then 3 else 2) else (if b then 1 else 0);
    assert WriteBits(fl, 2) == [a, b];
    assert [a] + [b] + rest == WriteBits(fl, 2) + rest;
    ReadWritten(fl, 2, rest);
  }

  lemma DistinguishingBitsRead(rest: Bits)
    ensures ReadBits(DistinguishingBits + rest, 2) == Ok((2, rest))
  {
    assert WriteBits(2, 2) == DistinguishingBits;
    ReadWritten(2, 2, rest);
  }

  /** The fields are decoded from their three parts read in turn. */
  lemma DecodeFieldsOf(s: Bits, hasCookie: bool, a: bool, b: bool, x: Bits, version: nat, rest: Bits)
    requires ReadBits(s, 2) == Ok((2, [a] + [b] + x))
    requires DecodeVersion(x) == Ok((version, rest))
    ensures DecodeFields(s, hasCookie) == Ok((HeaderFields(hasCookie, a, b, version), rest))
  {
    FlagsRoundTrip(a, b, x);
  }

  /** The fields followed by `rest`, split after the distinguishing bits. */
  lemma FieldsSplit(f: HeaderFields, version: Bits, rest: Bits)
    ensures Fields(f, version) + rest == DistinguishingBits + ([f.hasOptions] + [f.isPreview] + (version + rest))
  {
    assert [f.hasOptions, f.isPreview] == [f.hasOptions] + [f.isPreview];
  }

  lemma FieldsRoundTrip(f: HeaderFields, rest: Bits)
    requires f.version >= 1
    ensures DecodeFields(Fields(f, VersionBits(f.version)) + rest, f.hasCookie) == Ok((f, rest))
  {
    var afterFlags := VersionBits(f.version) + rest;
    var afterBits := [f.hasOptions] + [f.isPreview] + afterFlags;
    FieldsSplit(f, VersionBits(f.version), rest);
    DistinguishingBitsRead(afterBits);
    VersionRoundTrip(f.version, rest);
    DecodeFieldsOf(Fields(f, VersionBits(f.version)) + rest, f.hasCookie, f.hasOptions, f.isPreview, afterFlags, f.version, rest);
  }

  /** The cookie opens with 00, so it cannot be taken for the
      distinguishing bits. */
  lemma CookieOpening()
    ensures |Cookie| == 32 && Cookie[..2] == [false, false]
  {
    assert WriteBits(36, 8)[..2] == [false, false];
  }

  /** A stream that opens with the distinguishing bits has no cookie. */
  lemma PrefixWithoutCookie(tail: Bits, x: Bits)
    requires tail == DistinguishingBits + x
    ensures DecodePrefix(tail) == DecodeFields(tail, false)
  {
    assert tail[..2] == DistinguishingBits;
  }

  /** A stream that opens with the cookie has it skipped. */
  lemma PrefixWithCookie(tail: Bits)
    ensures DecodePrefix(Cookie + tail) == DecodeFields(tail, true)
  {
    var s := Cookie + tail;
    CookieOpening();
    assert s[..2] == Cookie[..2];
    assert s[..32] == Cookie && s[32..] == tail;
  }

  /** The written fields are read back, and the options document begins
      right after them. */
  lemma PrefixRoundTrip(f: HeaderFields, rest: Bits)
    requires f.version >= 1
    ensures DecodePrefix(Prefix(f) + rest) == Ok((f, rest))
  {
    var fields := Fields(f, VersionBits(f.version));
    assert Prefix(f) + rest == CookiePart(f.hasCookie) + (fields + rest) by {
      ConcatAssoc(CookiePart(f.hasCookie), fields, rest);
    }
    FieldsRoundTrip(f, rest);
    FieldsSplit(f, VersionBits(f.version), rest);
    PrefixOfFields(f.hasCookie, fields + rest, [f.hasOptions] + [f.isPreview] + (VersionBits(f.version) + rest));
  }

  /** Whether or not a cookie precedes them, the fields are decoded with
      the cookie flag set accordingly. */
  lemma PrefixOfFields(hasCookie: bool, tail: Bits, x: Bits)
    requires tail == DistinguishingBits + x
    ensures DecodePrefix(CookiePart(hasCookie) + tail) == DecodeFields(tail, hasCookie)
  {
    if hasCookie {
      PrefixWithCookie(tail);
    } else {
      assert CookiePart(hasCookie) + tail == tail;
      PrefixWithoutCookie(tail, x);
    }
  }

  /** Without options the header is exactly the prefix, and it is read
      back with the body right after it. */
  lemma HeaderRoundTrip(f: HeaderFields, o: Options, body: Bits)
    requires f.version >= 1 && !f.hasOptions
    ensures EncodeHeader(f, o, []).Ok?
    ensures DecodePrefix(EncodeHeader(f, o, []).value + body) == Ok((f, body))
  {
    PrefixRoundTrip(f, body);
  }

  /** With options, the fields are read back, the options document
      follows them unchanged, and outside bit-packed mode the header ends
      on a byte boundary. */
  lemma HeaderWithOptionsRoundTrip(f: HeaderFields, o: Options, doc: Bits)
    requires f.version >= 1 && f.hasOptions && !o.hasDrMap && o.schemaID == []
    ensures EncodeHeader(f, o, doc).Ok?
    ensures var r := EncodeHeader(f, o, doc).value;
            && |Prefix(f)| + |doc| <= |r|
            && DecodePrefix(r) == Ok((f, r[|Prefix(f)|..]))
            && r[|Prefix(f)|..][..|doc|] == doc
            && (!IsBitPacked(o) ==> |r| % 8 == 0)
  {
    var p := Prefix(f);
    var r := EncodeHeader(f, o, doc).value;
    assert r[..|p| + |doc|] == p + doc;
    assert r == p + r[|p|..];
    PrefixRoundTrip(f, r[|p|..]);
    assert r[|p|..][..|doc|] == r[..|p| + |doc|][|p|..];
  }

  /** Up to version 30 the field as written is the field of section 5.3. */
  lemma VersionAsWrittenAgrees(version: int)
    requires 1 <= version <= 30
    ensures VersionBitsAsWritten(version) == VersionBits(version)
  {
    if version > 15 {
      assert VersionBits(version - 15) == WriteBits(version - 16, 4);
    }
  }

  /** Version 32 is written as the groups 15 and 0, which read back as
      version 16. */
  lemma VersionAsWrittenMisread(rest: Bits)
    ensures DecodeVersion(VersionBitsAsWritten(32) + rest) == Ok((16, rest))
    ensures DecodeVersion(VersionBits(32) + rest) == Ok((32, rest))
  {
    assert VersionBitsAsWritten(32) == VersionBits(16);
    VersionRoundTrip(16, rest);
    VersionRoundTrip(32, rest);
  }
}
