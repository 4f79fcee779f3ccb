/** What decoding keeps true: the document grammar is never changed, every
    pooled element grammar stays well formed and decodable through any
    amount of learning, and so every production of the grammar on top of
    the stack is selected by its own event code at every step. */
module RuntimeProps {
  import opened ErrorHandle
  import opened ProcTypes
  import opened StreamIO
  import opened StreamEncode
  import opened STables
  import opened GrammarRules
  import opened BuiltinGrammars
  import opened Runtime

  /** No production of the grammar is AT(*), the one event whose learning
      is not restricted to element grammars. */
  predicate NoAttributeWildcard(g: Grammar) {
    forall k, j :: 0 <= k < |g.rules| && 0 <= j < |g.rules[k].prods| ==> g.rules[k].prods[j].event != ATAll
  }

  predicate DocGrammarOk(g: Grammar) {
    |g.rules| > 0 && g.rules[0].nonTermID == GrDocument && GrammarWellFormed(g) && NoAttributeWildcard(g)
  }

  /** An element grammar can learn in any rule and stay decodable. */
  predicate ElementGrammarOk(g: Grammar) {
    forall k :: 0 <= k < |g.rules| ==> WellFormed(g.rules[k]) && PartsReadable(g.rules[k]) && |g.rules[k].prods| > 0
  }

  predicate PoolOk(pool: map<(nat, nat), Grammar>) {
    forall key :: key in pool ==> ElementGrammarOk(pool[key])
  }

  predicate Inv(st: Stream) {
    Valid(st) && DocGrammarOk(st.doc) && PoolOk(st.pool)
  }

  /** The state after the header: the document grammar alone on the stack,
      in its Document rule. */
  function InitialStream(o: Options, schema: Option<seq<QNameRef>>, t: Tables, s: Bits): (st: Stream)
    ensures Valid(st) && Top(st) == CreateDocGrammar(o, schema) && |st.stack| == 1
  {
    Stream(o, t, CreateDocGrammar(o, schema), map[], [Frame(DocGrammar, GrVoidNonTerminal)],
           GrDocument, QNameRef(0, 0), s, [])
  }

  lemma DocContentNoAttributeWildcard(o: Options, elems: seq<QNameRef>)
    ensures forall j :: 0 <= j < |DocContentRule(o, elems).prods| ==> DocContentRule(o, elems).prods[j].event != ATAll
  {
    var ps := DocContentRule(o, elems).prods;
    forall j | 0 <= j < |ps|
      ensures ps[j].event != ATAll
    {
      if j < |elems| {
        assert ps[j] == GlobalElementProds(elems)[j];
      }
    }
  }

  lemma DocGrammarNoAttributeWildcard(o: Options, schema: Option<seq<QNameRef>>)
    ensures NoAttributeWildcard(CreateDocGrammar(o, schema))
  {
    DocContentNoAttributeWildcard(o, if schema.Some? then schema.value else []);
  }

  /** The state the decoder starts from satisfies the invariant. */
  lemma InitialStreamInv(o: Options, schema: Option<seq<QNameRef>>, t: Tables, s: Bits)
    ensures Inv(InitialStream(o, schema, t, s))
  {
    CreateDocGrammarWellFormed(o, schema);
    DocGrammarNoAttributeWildcard(o, schema);
  }

  lemma BuiltInElementGrammarOk(o: Options)
    ensures ElementGrammarOk(CreateBuiltInElementGrammar(o))
  {
    var g := CreateBuiltInElementGrammar(o);
    assert GrammarWellFormed(g) && forall k :: 0 <= k < |g.rules| ==> PartsReadable(g.rules[k]) by {
      CreateBuiltInElementGrammarWellFormed(o);
    }
    assert |g.rules[0].prods| > 0 && |g.rules[1].prods| > 0;
    TwoRulesOk(g);
  }

  /** A well-formed grammar of two non-empty readable rules. */
  lemma TwoRulesOk(g: Grammar)
    requires |g.rules| == 2 && GrammarWellFormed(g) && forall k :: 0 <= k < |g.rules| ==> PartsReadable(g.rules[k])
    requires |g.rules[0].prods| > 0 && |g.rules[1].prods| > 0
    ensures ElementGrammarOk(g)
  {
  }

  /** Under the invariant, a top grammar that is not the document grammar
      is a pooled element grammar. */
  lemma NotDocumentIsPooled(st: Stream)
    requires Inv(st) && !TopIsDocument(st)
    ensures st.stack[0].g.Pooled?
  {
  }

  /** Learning in one rule of an element grammar keeps it decodable. */
  lemma LearnedGrammarOk(g: Grammar, i: nat, e: EventType, nt: nat, ln: nat, uri: nat)
    requires ElementGrammarOk(g) && i < |g.rules|
    ensures ElementGrammarOk(LearnIn(g, i, e, nt, ln, uri))
  {
    var rules := LearnIn(g, i, e, nt, ln, uri).rules;
    InsertZeroKeepsWellFormed(g.rules[i], e, nt, ln, uri);
    InsertZeroKeepsReadable(g.rules[i], e, nt, ln, uri);
    forall k | 0 <= k < |rules|
      ensures WellFormed(rules[k]) && PartsReadable(rules[k]) && |rules[k].prods| > 0
    {
      if k != i {
        assert rules[k] == g.rules[k];
      }
    }
  }

  lemma PoolUpdateOk(pool: map<(nat, nat), Grammar>, key: (nat, nat), g: Grammar)
    requires PoolOk(pool) && ElementGrammarOk(g)
    ensures PoolOk(pool[key := g])
  {
  }

  /** Learning in a pooled grammar keeps it decodable and leaves the
      document grammar alone. */
  lemma LearnKeepsInv(st: Stream, i: nat, e: EventType, nt: nat)
    requires Inv(st) && i < |Top(st).rules| && st.stack[0].g.Pooled?
    ensures Inv(Learn(st, i, e, nt)) && Learn(st, i, e, nt).doc == st.doc
  {
    LearnedGrammarOk(Top(st), i, e, nt, st.ctx.lnID, st.ctx.uriID);
    PoolUpdateOk(st.pool, st.stack[0].g.key, Top(Learn(st, i, e, nt)));
  }

  lemma EnterKeepsInv(st: Stream, key: (nat, nat), resume: nat)
    requires Inv(st)
    ensures Inv(EnterElement(st, key, resume)) && EnterElement(st, key, resume).doc == st.doc
  {
    var r := EnterElement(st, key, resume);
    assert PoolOk(r.pool) by {
      if key !in st.pool {
        BuiltInElementGrammarOk(st.opts);
        PoolUpdateOk(st.pool, key, CreateBuiltInElementGrammar(st.opts));
      }
    }
  }

  lemma StartElementAllKeepsInv(st: Stream, h: Handler, nonTermOut: nat, i: nat)
    requires Inv(st) && i < |Top(st).rules|
    ensures var r := DecodeStartElementAll(st, h, nonTermOut, i);
            r.Ok? ==> Inv(r.value.st) && r.value.st.doc == st.doc
  {
    var r := DecodeStartElementAll(st, h, nonTermOut, i);
    if r.Ok? {
      var st1 := ReadCurrentQName(st, h, true).value;
      var st2 := LearnUnlessDocument(st1, i, SEQName, nonTermOut);
      assert Inv(st1) && st1.doc == st.doc;
      assert Inv(st2) && st2.doc == st.doc by {
        if !TopIsDocument(st1) {
          LearnKeepsInv(st1, i, SEQName, nonTermOut);
        }
      }
      assert r.value.st == EnterElement(st2, (st1.ctx.uriID, st1.ctx.lnID), nonTermOut);
      EnterKeepsInv(st2, (st1.ctx.uriID, st1.ctx.lnID), nonTermOut);
    }
  }

  lemma AttributeAllKeepsInv(st: Stream, h: Handler, vt: ValueType, nonTermOut: nat, i: nat)
    requires Inv(st) && i < |Top(st).rules| && st.stack[0].g.Pooled?
    ensures var r := DecodeAttributeAll(st, h, vt, nonTermOut, i);
            r.Ok? ==> Inv(r.value.st) && r.value.st.doc == st.doc
  {
    var r := DecodeAttributeAll(st, h, vt, nonTermOut, i);
    if r.Ok? {
      var s := r.value.st;
      LearnedGrammarOk(Top(st), i, ATQName, nonTermOut, s.ctx.lnID, s.ctx.uriID);
      PoolUpdateOk(st.pool, st.stack[0].g.key, Top(s));
    }
  }

  lemma EventContentKeepsInv(st: Stream, h: Handler, e: EventType, vt: ValueType, nonTermOut: nat, i: nat)
    requires Inv(st) && i < |Top(st).rules| && (e == ATAll ==> st.stack[0].g.Pooled?)
    ensures var r := DecodeEventContent(st, h, e, vt, nonTermOut, i);
            r.Ok? ==> Inv(r.value.st) && r.value.st.doc == st.doc
  {
    match e
    case SEAll => StartElementAllKeepsInv(st, h, nonTermOut, i);
    case ATAll => AttributeAllKeepsInv(st, h, vt, nonTermOut, i);
    case _ =>
  }

  lemma EndElementKeepsInv(st: Stream, h: Handler, i: nat, j: nat, b: nat, matched: bool)
    requires Inv(st) && i < |Top(st).rules| && j < |Top(st).rules[i].prods|
    requires Top(st).rules[i].prods[j].event == EE
    ensures var r := Dispatch(st, h, i, j, b, matched);
            r.Ok? ==> Inv(r.value.st) && r.value.st.doc == st.doc
  {
    var p := Top(st).rules[i].prods[j];
    var s := Invoke(st, h, EndElement);
    if s.Ok? && matched && b > 0 && !TopIsDocument(s.value) {
      LearnKeepsInv(s.value.(ctx := QNameRef(p.uriRowID, p.lnRowID)), i, EE, GrVoidNonTerminal);
    }
  }

  lemma CharactersKeepsInv(st: Stream, h: Handler, i: nat, j: nat, b: nat, matched: bool)
    requires Inv(st) && i < |Top(st).rules| && j < |Top(st).rules[i].prods|
    requires Top(st).rules[i].prods[j].event == CH
    ensures var r := Dispatch(st, h, i, j, b, matched);
            r.Ok? ==> Inv(r.value.st) && r.value.st.doc == st.doc
  {
    var p := Top(st).rules[i].prods[j];
    if matched && b > 0 && !TopIsDocument(st) {
      LearnKeepsInv(st, i, CH, p.nonTermID);
      EventContentKeepsInv(Learn(st, i, CH, p.nonTermID), h, CH, p.valueType, p.nonTermID, i);
    } else {
      EventContentKeepsInv(st, h, CH, p.valueType, p.nonTermID, i);
    }
  }

  lemma QNameEventKeepsInv(st: Stream, h: Handler, i: nat, j: nat, b: nat, matched: bool)
    requires Inv(st) && i < |Top(st).rules| && j < |Top(st).rules[i].prods|
    requires Top(st).rules[i].prods[j].event !in {SD, ED, SC, EE, CH}
    ensures var r := Dispatch(st, h, i, j, b, matched);
            r.Ok? ==> Inv(r.value.st) && r.value.st.doc == st.doc
  {
    var p := Top(st).rules[i].prods[j];
    if st.stack[0].g.DocGrammar? {
      assert st.doc.rules[i].prods[j].event != ATAll;
    }
    EventContentKeepsInv(st.(ctx := QNameRef(p.uriRowID, p.lnRowID)), h, p.event, p.valueType, p.nonTermID, i);
  }

  lemma DocumentEventKeepsInv(st: Stream, h: Handler, i: nat, j: nat, b: nat, matched: bool)
    requires Inv(st) && i < |Top(st).rules| && j < |Top(st).rules[i].prods|
    requires Top(st).rules[i].prods[j].event in {SD, ED, SC}
    ensures var r := Dispatch(st, h, i, j, b, matched);
            r.Ok? ==> Inv(r.value.st) && r.value.st.doc == st.doc
  {
  }

  lemma DispatchKeepsInv(st: Stream, h: Handler, i: nat, j: nat, b: nat, matched: bool)
    requires Inv(st) && i < |Top(st).rules| && j < |Top(st).rules[i].prods|
    ensures var r := Dispatch(st, h, i, j, b, matched);
            r.Ok? ==> Inv(r.value.st) && r.value.st.doc == st.doc
  {
    var e := Top(st).rules[i].prods[j].event;
    if e == EE {
      EndElementKeepsInv(st, h, i, j, b, matched);
    } else if e == CH {
      CharactersKeepsInv(st, h, i, j, b, matched);
    } else if e in {SD, ED, SC} {
      DocumentEventKeepsInv(st, h, i, j, b, matched);
    } else {
      QNameEventKeepsInv(st, h, i, j, b, matched);
    }
  }

  /** One processNextProduction step keeps the invariant: the document
      grammar is unchanged and every pooled grammar, learned or new, stays
      well formed and decodable. */
  lemma ProcessKeepsInv(st: Stream, h: Handler)
    requires Inv(st)
    ensures var r := ProcessNextProduction(st, h);
            r.Ok? ==> Inv(r.value.st) && r.value.st.doc == st.doc
  {
    match FindRule(Top(st).rules, st.nonTermID)
    case None =>
    case Some(i) =>
      match Match(st.opts, Top(st).rules[i], st.bits)
      case Failed(_) =>
      case FellThrough(_, _) =>
      case Picked(j, b, rest) => DispatchKeepsInv(st.(bits := rest), h, i, j, b, false);
      case Matched(j, b, rest) => DispatchKeepsInv(st.(bits := rest), h, i, j, b, true);
  }

  /** Under the invariant every production of every rule of the grammar on
      top of the stack is selected by its own event code, and the matcher
      consumes exactly that code. */
  lemma TopRulesDecode(st: Stream, k: nat, j: nat, rest: Bits)
    requires Inv(st) && k < |Top(st).rules| && j < |Top(st).rules[k].prods|
    ensures var r := Top(st).rules[k];
            var m := Match(st.opts, r, EncodeEventCode(st.opts, r, r.prods[j].code) + rest);
            m.Selected() && m.j == j && m.rest == rest
  {
    var r := Top(st).rules[k];
    if st.stack[0].g.DocGrammar? {
      assert WellFormed(r) && Decodable(r);
    } else {
      assert ElementGrammarOk(st.pool[st.stack[0].g.key]);
      assert WellFormed(r) && Decodable(r);
    }
    RuleDecodes(st.opts, r, j, rest);
  }

  /** processNextProduction reads the event code of production `j` of the
      current rule, selects that production, reports its event and goes on
      with the bits after the code. In an element grammar the code is
      matched at its last part, so the learning of DispatchLearns happens
      exactly for codes of more than one part. */
  lemma ProcessSelectsEncoded(st: Stream, h: Handler, j: nat, rest: Bits)
    requires Inv(st) && FindRule(Top(st).rules, st.nonTermID).Some?
    requires var rule := Top(st).rules[FindRule(Top(st).rules, st.nonTermID).value];
             j < |rule.prods| && st.bits == EncodeEventCode(st.opts, rule, rule.prods[j].code) + rest
    ensures var i := FindRule(Top(st).rules, st.nonTermID).value;
            var rule := Top(st).rules[i];
            var r := ProcessNextProduction(st, h);
            && (exists b, matched :: r == Dispatch(st.(bits := rest), h, i, j, b, matched))
            && (st.stack[0].g.Pooled? ==> r == Dispatch(st.(bits := rest), h, i, j, |rule.prods[j].code| - 1, true))
            && (r.Ok? ==> r.value.event == Some(rule.prods[j].event))
  {
    var i := FindRule(Top(st).rules, st.nonTermID).value;
    var rule := Top(st).rules[i];
    TopRulesDecode(st, i, j, rest);
    var m := Match(st.opts, rule, st.bits);
    var r := ProcessNextProduction(st, h);
    assert r == Dispatch(st.(bits := rest), h, i, j, m.b, m.Matched?);
    if st.stack[0].g.Pooled? {
      assert ElementGrammarOk(st.pool[st.stack[0].g.key]);
      EventCodeRoundTrip(st.opts, rule, j, rest);
    }
  }
}

/** A concrete stream on which processNextProduction as written reports
    success without an event: with four global elements and default
    fidelity, DocContent codes SE(G-0..G-3) and SE(*) as 0..4 in three bits,
    and the code 5 matches nothing. */
module FallThroughExample {
  import opened ErrorHandle
  import opened ProcTypes
  import opened StreamIO
  import opened STables
  import opened GrammarRules
  import opened BuiltinGrammars
  import opened Runtime
  import opened RuntimeProps

  const FourElements: seq<QNameRef> := [QNameRef(0, 0), QNameRef(0, 1), QNameRef(0, 2), QNameRef(0, 3)]

  function ExampleStream(t: Tables): Stream {
    InitialStream(DefaultOptions, Some(FourElements), t, [true, false, true]).(nonTermID := GrDocContent)
  }

  lemma UnmatchedCodeFallsThrough()
    ensures Match(DefaultOptions, DocContentRule(DefaultOptions, FourElements), [true, false, true])
            == FellThrough(true, [])
  {
    var r := DocContentRule(DefaultOptions, FourElements);
    assert GetBitsNumber(4) == 3;
    assert r.bits == [3, 0, 0];
    var s: Bits := [true, false, true];
    assert Pow2(3) == 8;
    assert WriteBits(5, 3) + [] == s;
    ReadWritten(5, 3, []);
    assert ReadBits(s, 3) == Ok((5, []));
    assert FirstWithPart(r.prods, 0, 5).None?;
  }

  /** As written, the step succeeds, consumes the three bits and reports no
      event; the corrected step rejects the input. */
  lemma FallThroughAsWrittenReportsNothing(t: Tables, h: Handler)
    ensures var st := ExampleStream(t);
            ProcessNextProductionAsWritten(st, h) == Ok(Step(None, GrDocContent, st.(bits := [])))
    ensures ProcessNextProduction(ExampleStream(t), h) == Err(InvalidExiInput)
  {
    var st := ExampleStream(t);
    assert FindRule(Top(st).rules, GrDocContent) == Some(1);
    UnmatchedCodeFallsThrough();
  }
}
