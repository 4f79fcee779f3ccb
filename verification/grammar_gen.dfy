/** The self-contained helpers of the schema grammar builder
    (grammarGenerator.c): occurrence attributes and their bounds, type
    QName resolution with the namespace check of XML Schema 1.1 Part 1
    (section 3.17.6.2, src-resolve clause 4), the namespace list of
    `<any>`, and the checks on the `<schema>` root element and its
    `elementFormDefault` / `attributeFormDefault` attributes. */
module GrammarGen {
  import opened ErrorHandle
  import opened ProcTypes
  import opened STables
  import opened SchemaStrings

  // ------------------------------------------------ occurrence attributes

  const Zero: nat := 48
  const Minus: nat := 45

  predicate IsDigit(c: nat) { Zero <= c <= Zero + 9 }

  predicate AllDigits(s: Str) { forall k :: 0 <= k < |s| ==> IsDigit(s[k]) }

  /** The value of a string of decimal digits, most significant first. */
  function DigitsValue(s: Str): (r: nat)
    requires AllDigits(s)
    decreases |s|
  {
    if |s| == 0 then 0 else DigitsValue(s[..|s| - 1]) * 10 + (s[|s| - 1] - Zero)
  }

  /** The decimal representation of `n` without leading zeros; the
      reference the parser is checked against. */
  function DecimalString(n: nat): (r: Str)
    ensures |r| > 0 && AllDigits(r)
    decreases n
  {
    if n < 10 then [Zero + n] else DecimalString(n / 10) + [Zero + n % 10]
  }

  lemma {:induction false} DecimalStringValue(n: nat)
    ensures DigitsValue(DecimalString(n)) == n
    decreases n
  {
    if n >= 10 {
      var s := DecimalString(n);
      assert s[..|s| - 1] == DecimalString(n / 10);
      DecimalStringValue(n / 10);
    }
  }

  /** stringToInteger: an optional minus sign followed by one or more
      decimal digits; anything else is InvalidStringOperation. */
  function StringToInteger(s: Str): (r: Result<int>)
    ensures r.Ok? <==> (|s| > 0 && AllDigits(s)) || (|s| > 1 && s[0] == Minus && AllDigits(s[1..]))
    ensures r.Err? ==> r.code == InvalidStringOperation
    ensures r.Ok? && s[0] != Minus ==> r.value >= 0
  {
    if |s| > 0 && AllDigits(s) then Ok(DigitsValue(s) as int)
    else if |s| > 1 && s[0] == Minus && AllDigits(s[1..]) then Ok(-(DigitsValue(s[1..]) as int))
    else Err(InvalidStringOperation)
  }

  /** The integer a decimal string denotes is read back. */
  lemma IntegerRoundTrip(n: int)
    ensures n >= 0 ==> StringToInteger(DecimalString(n)) == Ok(n)
    ensures n < 0 ==> StringToInteger([Minus] + DecimalString(-n)) == Ok(n)
  {
    if n >= 0 {
      DecimalStringValue(n);
    } else {
      DecimalStringValue(-n);
      assert ([Minus] + DecimalString(-n))[1..] == DecimalString(-n);
    }
  }

  const Unbounded: int := -1

  /** parseOccuranceAttribute: a missing attribute means 1, "unbounded"
      means -1, anything else is an integer. */
  function ParseOccurrence(s: Str): (r: Result<int>)
    ensures r.Ok? <==> s == [] || s == Ascii("unbounded") || StringToInteger(s).Ok?
    ensures r.Err? ==> r.code == InvalidStringOperation
    ensures r == Ok(Unbounded) <==> s == Ascii("unbounded") || StringToInteger(s) == Ok(Unbounded)
    ensures r.Ok? && r.value >= 0 && s != [] ==> StringToInteger(s) == r
  {
    if s == [] then Ok(1)
    else if s == Ascii("unbounded") then Ok(Unbounded)
    else StringToInteger(s)
  }

  /** An absent attribute means one occurrence, and "-1" cannot be told
      apart from "unbounded": both give the sentinel -1. */
  lemma OccurrenceSentinels()
    ensures ParseOccurrence([]) == Ok(1)
    ensures ParseOccurrence(Ascii("unbounded")) == Ok(Unbounded)
    ensures ParseOccurrence([Minus] + DecimalString(1)) == Ok(Unbounded)
  {
    IntegerRoundTrip(-1);
  }

  /** A written-out count is read as that count: a digit string never
      collides with the two special spellings. */
  lemma OccurrenceOfCount(n: nat)
    ensures ParseOccurrence(DecimalString(n)) == Ok(n)
  {
    IntegerRoundTrip(n);
    assert DecimalString(n)[0] != Ascii("unbounded")[0];
  }

  /** The occurrence bounds of a particle (`<element>`, `<any>`,
      `<sequence>`, `<choice>`): both attributes are parsed, and
      minOccurs < 0 or maxOccurs < -1 is UNEXPECTED_ERROR. */
  function OccurrenceBounds(minAttr: Str, maxAttr: Str): (r: Result<(int, int)>)
    ensures r.Ok? <==> ParseOccurrence(minAttr).Ok? && ParseOccurrence(maxAttr).Ok?
                       && ParseOccurrence(minAttr).value >= 0 && ParseOccurrence(maxAttr).value >= Unbounded
    ensures r.Ok? ==> r.value == (ParseOccurrence(minAttr).value, ParseOccurrence(maxAttr).value)
    ensures ParseOccurrence(minAttr).Ok? && ParseOccurrence(maxAttr).Ok? && r.Err? ==> r.code == UnexpectedError
  {
    var lo :- ParseOccurrence(minAttr);
    var hi :- ParseOccurrence(maxAttr);
    if lo < 0 || hi < Unbounded then Err(UnexpectedError) else Ok((lo, hi))
  }

  /** Missing attributes give the particle default (1, 1) and "unbounded"
      is accepted as a maximum. */
  lemma OccurrenceDefaults(n: nat)
    ensures OccurrenceBounds([], []) == Ok((1, 1))
    ensures OccurrenceBounds(DecimalString(n), Ascii("unbounded")) == Ok((n, Unbounded))
  {
    OccurrenceOfCount(n);
  }

  // ------------------------------------------------------ type QNames

  const Colon: nat := 58
  const XmlSchemaNamespace: Str := Ascii("http://www.w3.org/2001/XMLSchema")
  const XmlSchemaInstance: Str := Ascii("http://www.w3.org/2001/XMLSchema-instance")

  /** A namespace declaration in scope of the schema document. */
  datatype PrefixNs = PrefixNs(prefix: Str, ns: Str)

  /** getIndexOfChar: the first position of `c`. */
  function IndexOf(s: Str, c: nat): (r: Option<nat>)
    ensures r.Some? ==> r.value < |s| && s[r.value] == c && forall k :: 0 <= k < r.value ==> s[k] != c
    ensures r.None? ==> forall k :: 0 <= k < |s| ==> s[k] != c
    decreases |s|
  {
    if |s| == 0 then None
    else if s[0] == c then Some(0)
    else match IndexOf(s[1..], c)
      case None => None
      case Some(i) => Some(i + 1)
  }

  /** The first declaration binding `prefix`. */
  function FindPrefix(ps: seq<PrefixNs>, prefix: Str): (r: Option<nat>)
    ensures r.Some? ==> r.value < |ps| && ps[r.value].prefix == prefix
                        && forall k :: 0 <= k < r.value ==> ps[k].prefix != prefix
    ensures r.None? ==> forall k :: 0 <= k < |ps| ==> ps[k].prefix != prefix
    decreases |ps|
  {
    if |ps| == 0 then None
    else if ps[0].prefix == prefix then Some(0)
    else match FindPrefix(ps[1..], prefix)
      case None => None
      case Some(i) => Some(i + 1)
  }

  /** The namespace and local name a type literal denotes (first half of
      getTypeQName): `p:ln` takes the namespace bound to `p`, failing with
      INVALID_EXI_INPUT when none is; a literal without ':' takes the
      namespace of the empty prefix, or the empty namespace. */
  function SplitTypeLiteral(ps: seq<PrefixNs>, literal: Str): (r: Result<(Str, Str)>)
    ensures r.Err? ==> r.code == InvalidExiInput
  {
    var colon := IndexOf(literal, Colon);
    if colon.Some? then
      var k := FindPrefix(ps, literal[..colon.value]);
      if k.None? then Err(InvalidExiInput) else Ok((ps[k.value].ns, literal[colon.value + 1..]))
    else
      var k := FindPrefix(ps, []);
      if k.None? then Ok(([], literal)) else Ok((ps[k.value].ns, literal))
  }

  /** src-resolve clause 4 as the code checks it: an absent namespace needs
      an absent targetNamespace; any other namespace must be XML Schema, XML
      Schema instance or the targetNamespace (imports are not considered). */
  predicate NamespaceAllowed(uri: Str, targetNamespace: Str) {
    if uri == [] then targetNamespace == []
    else uri == XmlSchemaNamespace || uri == XmlSchemaInstance || uri == targetNamespace
  }

  /** A resolved QName and the tables it was added to. */
  datatype Resolved = Resolved(tables: TablePair, qname: QNameRef)

  /** getTypeQName: resolve the literal, check its namespace, then
      lookup-or-insert the URI and the local name. */
  function GetTypeQName(p: TablePair, ps: seq<PrefixNs>, targetNamespace: Str, literal: Str): (r: Result<Resolved>)
    requires Lockstep(p)
    ensures r.Err? ==> r.code == InvalidExiInput
    ensures r.Ok? <==> SplitTypeLiteral(ps, literal).Ok? && NamespaceAllowed(SplitTypeLiteral(ps, literal).value.0, targetNamespace)
    ensures r.Ok? ==> Lockstep(r.value.tables)
                      && Extends(p.initial, r.value.tables.initial) && Extends(p.meta, r.value.tables.meta)
                      && Names(r.value.tables, r.value.qname, SplitTypeLiteral(ps, literal).value.0,
                               SplitTypeLiteral(ps, literal).value.1)
  {
    var (uri, ln) :- SplitTypeLiteral(ps, literal);
    if !NamespaceAllowed(uri, targetNamespace) then Err(InvalidExiInput)
    else
      var u := AddUriString(p, uri);
      var l := AddLocalName(u.tables, u.id, ln);
      ExtendsTrans(p.initial, u.tables.initial, l.tables.initial);
      ExtendsTrans(p.meta, u.tables.meta, l.tables.meta);
      Ok(Resolved(l.tables, QNameRef(u.id, l.id)))
  }

  /** A literal `prefix:ln` splits at its first colon: the prefix is looked
      up and the rest is the local name. */
  lemma SplitPrefixed(ps: seq<PrefixNs>, prefix: Str, ln: Str)
    requires forall k :: 0 <= k < |prefix| ==> prefix[k] != Colon
    ensures SplitTypeLiteral(ps, prefix + [Colon] + ln)
            == if FindPrefix(ps, prefix).None? then Err(InvalidExiInput)
               else Ok((ps[FindPrefix(ps, prefix).value].ns, ln))
  {
    var literal := prefix + [Colon] + ln;
    assert literal[|prefix|] == Colon;
    assert IndexOf(literal, Colon) == Some(|prefix|);
    assert literal[..|prefix|] == prefix && literal[|prefix| + 1..] == ln;
  }

  /** A prefixed literal `prefix:ln` whose prefix is bound to an allowed
      namespace names that namespace and `ln`. */
  lemma PrefixedTypeQName(p: TablePair, ps: seq<PrefixNs>, targetNamespace: Str, prefix: Str, ln: Str)
    requires Lockstep(p)
    requires forall k :: 0 <= k < |prefix| ==> prefix[k] != Colon
    requires FindPrefix(ps, prefix).Some?
    requires NamespaceAllowed(ps[FindPrefix(ps, prefix).value].ns, targetNamespace)
    ensures var r := GetTypeQName(p, ps, targetNamespace, prefix + [Colon] + ln);
            r.Ok? && Names(r.value.tables, r.value.qname, ps[FindPrefix(ps, prefix).value].ns, ln)
  {
    SplitPrefixed(ps, prefix, ln);
  }

  /** A literal whose prefix is not declared is rejected. */
  lemma UnboundPrefixRejected(p: TablePair, ps: seq<PrefixNs>, targetNamespace: Str, prefix: Str, ln: Str)
    requires Lockstep(p)
    requires forall k :: 0 <= k < |prefix| ==> prefix[k] != Colon
    requires FindPrefix(ps, prefix).None?
    ensures GetTypeQName(p, ps, targetNamespace, prefix + [Colon] + ln) == Err(InvalidExiInput)
  {
    SplitPrefixed(ps, prefix, ln);
  }

  /** Resolving the same literal twice gives the same QName and changes
      nothing the second time. */
  lemma GetTypeQNameIdempotent(p: TablePair, ps: seq<PrefixNs>, targetNamespace: Str, literal: Str)
    requires Lockstep(p)
    requires GetTypeQName(p, ps, targetNamespace, literal).Ok?
    ensures var a := GetTypeQName(p, ps, targetNamespace, literal).value;
            GetTypeQName(a.tables, ps, targetNamespace, literal) == Ok(a)
  {
    var (uri, ln) := SplitTypeLiteral(ps, literal).value;
    var u := AddUriString(p, uri);
    AddUriStringIdempotent(p, uri);
    var l := AddLocalName(u.tables, u.id, ln);
    AddLocalNameIdempotent(u.tables, u.id, ln);
    var u2 := AddUriString(l.tables, uri);
    assert u2 == Added(l.tables, u.id) by {
      FindUriKept(u.tables, l.tables, uri, u.id);
    }
  }

  /** Adding a local name leaves the URI lookup where it was. */
  lemma FindUriKept(a: TablePair, b: TablePair, uri: Str, id: nat)
    requires FindUri(a.initial.uris, uri) == Some(id)
    requires |b.initial.uris| == |a.initial.uris|
    requires forall k :: 0 <= k < |a.initial.uris| ==> b.initial.uris[k].uri == a.initial.uris[k].uri
    ensures FindUri(b.initial.uris, uri) == Some(id)
  {
    var f := FindUri(b.initial.uris, uri);
    assert f.Some?;
  }

  // ------------------------------------------------- <any> namespaces

  const Space: nat := 32

  /** The namespace-list keywords that name no URI. */
  predicate IsNsKeyword(tok: Str) {
    tok == Ascii("##any") || tok == Ascii("##other") || tok == Ascii("##targetNamespace") || tok == Ascii("##local")
  }

  /** A namespace-list token is added to the URI tables unless it is a keyword. */
  function RegisterNamespace(p: TablePair, tok: Str): (r: TablePair)
    ensures Extends(p.initial, r.initial) && Extends(p.meta, r.meta)
    ensures Lockstep(p) ==> Lockstep(r) && (!IsNsKeyword(tok) ==> FindUri(r.initial.uris, tok).Some?)
  {
    if IsNsKeyword(tok) then p else AddUriString(p, tok).tables
  }

  /** The namespace list of an `<any>` particle and the tables afterwards. */
  datatype AnyNamespaces = AnyNamespaces(tables: TablePair, tokens: seq<Str>)

  /** The space-split loop of handleAnyEl, with the registration step as
      a parameter: every token before a space is registered and listed; the
      remainder after the last space is listed, and registered only when
      `registerLast` holds. */
  function SplitLoopWith<S>(reg: (S, Str) -> S, registerLast: bool, p: S, rest: Str, acc: seq<Str>): (r: (S, seq<Str>))
    decreases |rest|
  {
    match IndexOf(rest, Space)
    case Some(i) => SplitLoopWith(reg, registerLast, reg(p, rest[..i]), rest[i + 1..], acc + [rest[..i]])
    case None => (if registerLast then reg(p, rest) else p, acc + [rest])
  }

  /** handleAnyEl as written: an absent namespace attribute means "##any",
      and the last namespace of a list is not registered. */
  function AnyNamespacesAsWritten(p: TablePair, attr: Str): (r: AnyNamespaces)
    ensures attr == [] ==> r == AnyNamespaces(p, [Ascii("##any")])
  {
    if attr == [] then AnyNamespaces(p, [Ascii("##any")])
    else
      var (q, toks) := SplitLoopWith(RegisterNamespace, false, p, attr, []);
      AnyNamespaces(q, toks)
  }

  /** handleAnyEl with every non-keyword namespace registered. */
  function AnyNamespacesOf(p: TablePair, attr: Str): (r: AnyNamespaces)
    ensures attr == [] ==> r == AnyNamespaces(p, [Ascii("##any")])
  {
    if attr == [] then AnyNamespaces(p, [Ascii("##any")])
    else
      var (q, toks) := SplitLoopWith(RegisterNamespace, true, p, attr, []);
      AnyNamespaces(q, toks)
  }

  /** The namespace list split at single spaces: the tokens handleAnyEl
      puts in the wildcard's list. */
  function SplitSpaces(s: Str): (r: seq<Str>)
    ensures |r| > 0
    decreases |s|
  {
    match IndexOf(s, Space)
    case Some(i) => [s[..i]] + SplitSpaces(s[i + 1..])
    case None => [s]
  }

  /** The tokens joined back with single spaces. */
  function JoinSpaced(toks: seq<Str>): (r: Str)
    requires |toks| > 0
    decreases |toks|
  {
    if |toks| == 1 then toks[0] else toks[0] + [Space] + JoinSpaced(toks[1..])
  }

  predicate NoSpace(tok: Str) { forall k :: 0 <= k < |tok| ==> tok[k] != Space }

  /** The split loses nothing: the tokens hold no space and join back to
      the attribute. */
  lemma {:induction false} SplitSpacesJoin(s: Str)
    ensures JoinSpaced(SplitSpaces(s)) == s
    ensures forall k :: 0 <= k < |SplitSpaces(s)| ==> NoSpace(SplitSpaces(s)[k])
    decreases |s|
  {
    match IndexOf(s, Space)
    case Some(i) =>
      var rest := SplitSpaces(s[i + 1..]);
      SplitSpacesJoin(s[i + 1..]);
      assert ([s[..i]] + rest)[1..] == rest;
      assert s == s[..i] + [Space] + s[i + 1..];
    case None =>
  }

  /** Each token passed to `reg` in turn. */
  function FoldTokens<S>(reg: (S, Str) -> S, p: S, toks: seq<Str>): S
    decreases |toks|
  {
    if |toks| == 0 then p else FoldTokens(reg, reg(p, toks[0]), toks[1..])
  }

  /** Each token registered in turn. */
  function RegisterAll(p: TablePair, toks: seq<Str>): TablePair {
    FoldTokens(RegisterNamespace, p, toks)
  }

  lemma FoldTokensCons<S>(reg: (S, Str) -> S, p: S, tok: Str, toks: seq<Str>)
    ensures FoldTokens(reg, p, [tok] + toks) == FoldTokens(reg, reg(p, tok), toks)
  {
    assert ([tok] + toks)[1..] == toks;
  }

  /** The loop lists the space-split tokens and registers them all, or all
      but the last. */
  lemma {:induction false} SplitLoopWithIsFold<S>(reg: (S, Str) -> S, registerLast: bool, p: S, rest: Str, acc: seq<Str>)
    ensures var toks := SplitSpaces(rest);
            SplitLoopWith(reg, registerLast, p, rest, acc)
              == (FoldTokens(reg, p, if registerLast then toks else toks[..|toks| - 1]), acc + toks)
    decreases |rest|
  {
    match IndexOf(rest, Space)
    case Some(i) =>
      var tok, tail := rest[..i], SplitSpaces(rest[i + 1..]);
      assert SplitSpaces(rest) == [tok] + tail;
      SplitLoopWithIsFold(reg, registerLast, reg(p, tok), rest[i + 1..], acc + [tok]);
      if registerLast {
        FoldTokensCons(reg, p, tok, tail);
      } else {
        FoldTokensCons(reg, p, tok, tail[..|tail| - 1]);
        assert ([tok] + tail)[..|[tok] + tail| - 1] == [tok] + tail[..|tail| - 1];
      }
      assert acc + [tok] + tail == acc + ([tok] + tail);
    case None =>
      assert SplitSpaces(rest) == [rest];
      FoldTokensCons(reg, p, rest, []);
      assert [rest][..0] == [];
  }

  /** Registering a list leaves every non-keyword token (and every URI
      already there) in the URI table. */
  lemma {:induction false} RegisterAllFinds(p: TablePair, toks: seq<Str>)
    requires Lockstep(p)
    ensures var r := RegisterAll(p, toks);
            Lockstep(r) && Extends(p.initial, r.initial) && Extends(p.meta, r.meta)
            && forall k :: 0 <= k < |toks| && !IsNsKeyword(toks[k]) ==> FindUri(r.initial.uris, toks[k]).Some?
    decreases |toks|
  {
    if |toks| > 0 {
      var q := RegisterNamespace(p, toks[0]);
      var r := RegisterAll(q, toks[1..]);
      assert RegisterAll(p, toks) == r;
      RegisterAllFinds(q, toks[1..]);
      ExtendsTrans(p.initial, q.initial, r.initial);
      ExtendsTrans(p.meta, q.meta, r.meta);
      FindUriExtends(q.initial, r.initial);
      assert forall k :: 1 <= k < |toks| ==> toks[k] == toks[1..][k - 1];
    } else {
      ExtendsRefl(p.initial);
      ExtendsRefl(p.meta);
    }
  }

  /** A URI found before the tables grew is still found. */
  lemma FindUriExtends(a: Tables, b: Tables)
    requires Extends(a, b)
    ensures forall uri :: FindUri(a.uris, uri).Some? ==> FindUri(b.uris, uri).Some?
  {
    forall uri | FindUri(a.uris, uri).Some?
      ensures FindUri(b.uris, uri).Some?
    {
      var id := FindUri(a.uris, uri).value;
      assert b.uris[id].uri == uri;
    }
  }

  /** The corrected handleAnyEl: the list splits the attribute at spaces
      and every namespace in it other than the keywords is in the URI table. */
  lemma AnyNamespacesRegistered(p: TablePair, attr: Str)
    requires Lockstep(p)
    ensures var r := AnyNamespacesOf(p, attr);
            Lockstep(r.tables) && (attr != [] ==> r.tokens == SplitSpaces(attr))
            && forall k :: 0 <= k < |r.tokens| && !IsNsKeyword(r.tokens[k]) ==> FindUri(r.tables.initial.uris, r.tokens[k]).Some?
  {
    if attr != [] {
      SplitLoopWithIsFold(RegisterNamespace, true, p, attr, []);
      RegisterAllFinds(p, SplitSpaces(attr));
    }
  }

  /** Two URI tables with just the empty namespace. */
  const EmptyPair: TablePair := TablePair(Tables([UriRow([], None)], []), Tables([UriRow([], None)], []))

  lemma SplitTwoNamespaces()
    ensures SplitSpaces([97, Space, 98]) == [[97], [98]]
  {
    var attr: Str := [97, Space, 98];
    assert IndexOf(attr, Space) == Some(1);
    assert attr[..1] == [97] && attr[2..] == [98];
    assert IndexOf([98], Space).None?;
    assert SplitSpaces([98]) == [[98]];
  }

  /** handleAnyEl as written leaves the last namespace of a list out of the
      URI table: with `namespace="a b"`, "a" is added and "b" is not,
      although both are in the wildcard's list. */
  lemma AnyNamespacesAsWrittenSkipsLast()
    ensures var w := AnyNamespacesAsWritten(EmptyPair, [97, Space, 98]);
            w.tokens == [[97], [98]] && FindUri(w.tables.initial.uris, [98]).None?
  {
    SplitTwoNamespaces();
    SplitLoopWithIsFold(RegisterNamespace, false, EmptyPair, [97, Space, 98], []);
    assert [[97], [98]][..1] == [[97]];
    assert !IsNsKeyword([97]);
    var q := RegisterAll(EmptyPair, [[97]]);
    FoldTokensCons(RegisterNamespace, EmptyPair, [97], []);
    assert q == AddUriString(EmptyPair, [97]).tables;
    assert q.initial.uris == [UriRow([], None), UriRow([97], None)];
  }

  /** The corrected handleAnyEl adds both namespaces of `namespace="a b"`. */
  lemma AnyNamespacesAddsLast()
    ensures var c := AnyNamespacesOf(EmptyPair, [97, Space, 98]);
            c.tokens == [[97], [98]] && FindUri(c.tables.initial.uris, [97]).Some?
            && FindUri(c.tables.initial.uris, [98]).Some?
  {
    SplitTwoNamespaces();
    assert !IsNsKeyword([97]) && !IsNsKeyword([98]);
    AnyNamespacesRegistered(EmptyPair, [97, Space, 98]);
    var c := AnyNamespacesOf(EmptyPair, [97, Space, 98]);
    assert c.tokens[0] == [97] && c.tokens[1] == [98];
  }

  // ------------------------------------------------ the <schema> root

  /** globalSchemaProps.propsStat */
  datatype PropsStat = InitialState | SchemaElementState | SchemaContentState

  /** elementFormDefault / attributeFormDefault */
  datatype FormDefault = FormUnqualified | FormQualified | FormExpecting | FormInitialState

  /** Where the next character data goes (charDataPointer): nowhere, the
      targetNamespace, or an attribute slot of the current schema element. */
  datatype DataTarget = NoTarget | TargetNamespaceSlot | ElementAttributeSlot

  /** The global schema properties the root checks read and write. */
  datatype SchemaProps = SchemaProps(
    stat: PropsStat,
    expectData: bool,
    target: DataTarget,
    targetNamespace: Str,
    targetNsId: nat,
    attributeFormDefault: FormDefault,
    elementFormDefault: FormDefault)

  const InitialProps := SchemaProps(InitialState, false, NoTarget, [], 0, FormInitialState, FormInitialState)

  /** The props and tables after a schema event. */
  datatype Started = Started(props: SchemaProps, tables: TablePair)

  /** The first element after `<schema>`: unset form defaults become
      unqualified and a non-empty targetNamespace is added to the URI
      tables. */
  function EnterSchemaContent(sp: SchemaProps, p: TablePair): (r: Started)
    ensures r.props.stat == SchemaContentState
    ensures r.props.elementFormDefault == (if sp.elementFormDefault == FormInitialState then FormUnqualified else sp.elementFormDefault)
    ensures r.props.attributeFormDefault == (if sp.attributeFormDefault == FormInitialState then FormUnqualified else sp.attributeFormDefault)
    ensures r.props.targetNamespace == sp.targetNamespace
    ensures Lockstep(p) && sp.targetNamespace != [] ==> Lockstep(r.tables) && NamesUri(r.tables, r.props.targetNsId, sp.targetNamespace)
    ensures sp.targetNamespace == [] ==> r.tables == p
  {
    var eFD := if sp.elementFormDefault == FormInitialState then FormUnqualified else sp.elementFormDefault;
    var aFD := if sp.attributeFormDefault == FormInitialState then FormUnqualified else sp.attributeFormDefault;
    var sp1 := sp.(stat := SchemaContentState, elementFormDefault := eFD, attributeFormDefault := aFD);
    if sp.targetNamespace == [] then Started(sp1, p)
    else
      var a := AddUriString(p, sp.targetNamespace);
      Started(sp1.(targetNsId := a.id), a.tables)
  }

  /** The eighteen XML Schema elements xsd_startElement accepts inside
      `<schema>`; any other element stops the handler. */
  predicate IsSchemaElement(ln: Str) {
    ln in {Ascii("element"), Ascii("attribute"), Ascii("choice"), Ascii("complexType"),
           Ascii("complexContent"), Ascii("group"), Ascii("import"), Ascii("sequence"), Ascii("all"),
           Ascii("extension"), Ascii("restriction"), Ascii("simpleContent"), Ascii("any"),
           Ascii("simpleType"), Ascii("minInclusive"), Ascii("annotation"), Ascii("documentation"),
           Ascii("maxLength")}
  }

  /** xsd_startElement's checks: the first element must be `<xs:schema>`,
      every later one must be one of the elements above in the XML Schema
      namespace; a handler stop is HANDLER_STOP_RECEIVED. */
  function XsdStartElement(sp: SchemaProps, p: TablePair, uri: Str, ln: Str): (r: Result<Started>)
    ensures r.Err? ==> r.code == HandlerStopReceived
    ensures sp.stat == InitialState ==> (r.Ok? <==> uri == XmlSchemaNamespace && ln == Ascii("schema"))
    ensures sp.stat == InitialState && r.Ok? ==> r.value.props.stat == SchemaElementState && r.value.tables == p
    ensures sp.stat != InitialState ==> (r.Ok? <==> uri == XmlSchemaNamespace && IsSchemaElement(ln))
  {
    if sp.stat == InitialState then
      if uri == XmlSchemaNamespace && ln == Ascii("schema") then Ok(Started(sp.(stat := SchemaElementState), p))
      else Err(HandlerStopReceived)
    else
      var s := if sp.stat != SchemaContentState then EnterSchemaContent(sp, p) else Started(sp, p);
      if uri != XmlSchemaNamespace || !IsSchemaElement(ln) then Err(HandlerStopReceived) else Ok(s)
  }

  /** Once past the root, the form defaults are settled (never the initial
      state) and a non-empty targetNamespace names a URI row. */
  predicate Settled(s: Started) {
    s.props.stat == SchemaContentState
    && s.props.elementFormDefault != FormInitialState && s.props.attributeFormDefault != FormInitialState
    && (s.props.targetNamespace != [] ==> Lockstep(s.tables) && NamesUri(s.tables, s.props.targetNsId, s.props.targetNamespace))
  }

  /** The first content element settles the props, and later elements keep them. */
  lemma ContentElementSettles(sp: SchemaProps, p: TablePair, uri: Str, ln: Str)
    requires Lockstep(p) && sp.stat == SchemaElementState
    ensures var r := XsdStartElement(sp, p, uri, ln);
            r.Ok? ==> Settled(r.value) && r.value.props.targetNamespace == sp.targetNamespace
    ensures forall s: Started :: Settled(s) && XsdStartElement(s.props, s.tables, uri, ln).Ok? ==>
              XsdStartElement(s.props, s.tables, uri, ln).value == s
  {
  }

  /** The attribute names the element descriptions record. */
  predicate IsElementAttribute(ln: Str) {
    ln in {Ascii("name"), Ascii("type"), Ascii("ref"), Ascii("minOccurs"), Ascii("maxOccurs"), Ascii("form"),
           Ascii("base"), Ascii("use"), Ascii("namespace"), Ascii("processContents"), Ascii("value"), Ascii("nillable")}
  }

  /** xsd_attribute: on `<schema>`, targetNamespace directs the next data
      to the targetNamespace and the two form defaults start expecting a
      value; on other elements the known attributes get a slot. */
  function XsdAttribute(sp: SchemaProps, ln: Str): (r: SchemaProps)
    ensures r.expectData && r.stat == sp.stat && r.targetNamespace == sp.targetNamespace
    ensures sp.stat == SchemaElementState && ln == Ascii("elementFormDefault") ==> r.elementFormDefault == FormExpecting
    ensures sp.stat == SchemaElementState && ln == Ascii("attributeFormDefault") ==> r.attributeFormDefault == FormExpecting
    ensures sp.stat == SchemaElementState && ln == Ascii("targetNamespace") ==> r.target == TargetNamespaceSlot
  {
    var sp1 :=
      if sp.stat == SchemaElementState then
        if ln == Ascii("targetNamespace") then sp.(target := TargetNamespaceSlot)
        else if ln == Ascii("elementFormDefault") then sp.(elementFormDefault := FormExpecting)
        else if ln == Ascii("attributeFormDefault") then sp.(attributeFormDefault := FormExpecting)
        else sp
      else if IsElementAttribute(ln) then sp.(target := ElementAttributeSlot)
      else sp;
    sp1.(expectData := true)
  }

  /** The value of a form-default attribute; anything but "qualified" and
      "unqualified" is rejected. */
  function FormValue(value: Str): (r: Option<FormDefault>)
    ensures r.Some? <==> value == Ascii("qualified") || value == Ascii("unqualified")
    ensures r.Some? ==> (r.value == FormQualified <==> value == Ascii("qualified"))
    ensures r.Some? ==> r.value in {FormQualified, FormUnqualified}
  {
    if value == Ascii("qualified") then Some(FormQualified)
    else if value == Ascii("unqualified") then Some(FormUnqualified)
    else None
  }

  /** The character data handed to the schema-element state (first
      branch of xsd_stringData). */
  function SchemaAttributeData(sp: SchemaProps, value: Str): (r: Result<SchemaProps>)
    ensures r.Err? ==> r.code == HandlerStopReceived
    ensures sp.target == NoTarget && sp.elementFormDefault == FormExpecting ==>
              (r.Ok? <==> FormValue(value).Some?) && (r.Ok? ==> r.value.elementFormDefault == FormValue(value).value)
    ensures sp.target == NoTarget && sp.elementFormDefault != FormExpecting && sp.attributeFormDefault == FormExpecting ==>
              (r.Ok? <==> FormValue(value).Some?) && (r.Ok? ==> r.value.attributeFormDefault == FormValue(value).value)
    ensures sp.target == TargetNamespaceSlot ==> r == Ok(sp.(targetNamespace := value, target := NoTarget))
  {
    if sp.target != NoTarget then
      Ok(if sp.target == TargetNamespaceSlot then sp.(targetNamespace := value, target := NoTarget) else sp.(target := NoTarget))
    else if sp.elementFormDefault == FormExpecting then
      match FormValue(value)
      case None => Err(HandlerStopReceived)
      case Some(f) => Ok(sp.(elementFormDefault := f))
    else if sp.attributeFormDefault == FormExpecting then
      match FormValue(value)
      case None => Err(HandlerStopReceived)
      case Some(f) => Ok(sp.(attributeFormDefault := f))
    else Ok(sp)
  }

  /** Stores data in the slot charDataPointer points at and clears it
      (element attribute slots are not modelled). */
  function StoreData(sp: SchemaProps, value: Str): SchemaProps {
    if sp.target == TargetNamespaceSlot then sp.(targetNamespace := value, target := NoTarget)
    else sp.(target := NoTarget)
  }

  /** xsd_stringData: attribute data on `<schema>` goes through the checks
      above; other data is stored in the slot it was directed to and clears
      it. */
  function XsdStringData(sp: SchemaProps, value: Str): (r: Result<SchemaProps>)
    ensures r.Err? ==> sp.expectData && sp.stat == SchemaElementState && r.code == HandlerStopReceived
    ensures r.Ok? ==> !r.value.expectData || !sp.expectData
    ensures r.Ok? ==> r.value.target == NoTarget && r.value.stat == sp.stat
    ensures r.Ok? && sp.target == TargetNamespaceSlot ==> r.value.targetNamespace == value
    ensures r.Ok? && sp.target != TargetNamespaceSlot ==> r.value.targetNamespace == sp.targetNamespace
  {
    if sp.expectData then
      if sp.stat == SchemaElementState then
        var sp1 :- SchemaAttributeData(sp, value);
        Ok(sp1.(expectData := false, target := NoTarget))
      else Ok(StoreData(sp, value).(expectData := false))
    else Ok(StoreData(sp, value))
  }

  /** `<xs:schema elementFormDefault="qualified">` followed by a content
      element: element names are qualified and attribute names default to
      unqualified. */
  lemma QualifiedElementsScenario(p: TablePair, ln: Str)
    requires Lockstep(p) && IsSchemaElement(ln)
    ensures var s1 := XsdStartElement(InitialProps, p, XmlSchemaNamespace, Ascii("schema"));
            s1.Ok? &&
            var s2 := XsdAttribute(s1.value.props, Ascii("elementFormDefault"));
            var s3 := XsdStringData(s2, Ascii("qualified"));
            s3.Ok? &&
            var s4 := XsdStartElement(s3.value, p, XmlSchemaNamespace, ln);
            s4.Ok? && s4.value.props.elementFormDefault == FormQualified
            && s4.value.props.attributeFormDefault == FormUnqualified && s4.value.tables == p
  {
  }
}
