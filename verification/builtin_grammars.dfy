/** The built-in grammars of EXI 1.0 sections 8.4.1 and 8.4.3 as
    createDocGrammar and createBuildInElementGrammar (grammars.c) build them,
    pruned by the fidelity options, and the proofs that each rule is well
    formed and gives back every production from its event code. */
module BuiltinGrammars {
  import opened ErrorHandle
  import opened ProcTypes
  import opened StreamIO
  import opened StreamDecode
  import opened StreamEncode
  import opened STables
  import opened GrammarRules

  /** All preserve options off: the document grammar drops DT, CM and PI. */
  predicate DefaultDocFidelity(o: Options) {
    o.preserve == 0
  }

  /** All preserve options off and selfContained off: the element grammar
      drops NS, SC, ER, CM and PI. */
  predicate DefaultElementFidelity(o: Options) {
    o.preserve == 0 && !o.selfContained
  }

  // ------------------------------------------------------ document grammar

  const DocumentRule := GrammarRule(GrDocument, [Prod([0], SD, GrDocContent)], [0, 0, 0])

  /** SE(G-e) DocEnd with code e, for each global element e of the schema. */
  function GlobalElementProds(elems: seq<QNameRef>): (ps: seq<Production>)
    ensures |ps| == |elems|
    ensures forall e :: 0 <= e < |elems| ==>
              ps[e] == Production([e], SEQName, NoValue, GrDocEnd, elems[e].uriID, elems[e].lnID)
    decreases |elems|
  {
    if |elems| == 0 then []
    else
      var n := |elems| - 1;
      GlobalElementProds(elems[..n]) + [Production([n], SEQName, NoValue, GrDocEnd, elems[n].uriID, elems[n].lnID)]
  }

  function DocContentRule(o: Options, elems: seq<QNameRef>): GrammarRule {
    var n := |elems|;
    var tailProds :=
      if DefaultDocFidelity(o) then [Prod([n], SEAll, GrDocEnd)]
      else [Prod([n], SEAll, GrDocEnd), Prod([n + 1, 0], DT, GrDocContent),
            Prod([n + 1, 1, 0], CM, GrDocContent), Prod([n + 1, 1, 1], PI, GrDocContent)];
    var bits := if DefaultDocFidelity(o) then [GetBitsNumber(n), 0, 0] else [GetBitsNumber(n + 1), 1, 1];
    GrammarRule(GrDocContent, GlobalElementProds(elems) + tailProds, bits)
  }

  const DefaultDocEndRule := GrammarRule(GrDocEnd, [Prod([0], ED, GrVoidNonTerminal)], [0, 0, 0])

  const FullDocEndRule :=
    GrammarRule(GrDocEnd, [Prod([0], ED, GrVoidNonTerminal), Prod([1, 0], CM, GrDocEnd),
                           Prod([1, 1], PI, GrDocEnd)], [1, 1, 0])

  function DocEndRule(o: Options): GrammarRule {
    if DefaultDocFidelity(o) then DefaultDocEndRule else FullDocEndRule
  }

  /** createDocGrammar: the rules Document, DocContent and DocEnd; `schema`
      lists the global elements (absent for schema-less processing). */
  function CreateDocGrammar(o: Options, schema: Option<seq<QNameRef>>): (g: Grammar)
    ensures |g.rules| == 3 && g.lastNonTermID == GrVoidNonTerminal
    ensures g.rules[0].nonTermID == GrDocument && g.rules[1].nonTermID == GrDocContent
            && g.rules[2].nonTermID == GrDocEnd
  {
    var elems := if schema.Some? then schema.value else [];
    Grammar([DocumentRule, DocContentRule(o, elems), DocEndRule(o)], GrVoidNonTerminal)
  }

  // ------------------------------------------------------- element grammar

  const DefaultStartTagProds: seq<Production> :=
    [Prod([0, 0], EE, GrVoidNonTerminal), Prod([0, 1], ATAll, GrStartTagContent),
     Prod([0, 2], SEAll, GrElementContent), Prod([0, 3], CH, GrElementContent)]

  const FullStartTagProds: seq<Production> :=
    [Prod([0, 0], EE, GrVoidNonTerminal), Prod([0, 1], ATAll, GrStartTagContent),
     Prod([0, 2], NS, GrStartTagContent), Prod([0, 3], SC, GrFragment),
     Prod([0, 4], SEAll, GrElementContent), Prod([0, 5], CH, GrElementContent),
     Prod([0, 6], ER, GrElementContent), Prod([0, 7, 0], CM, GrElementContent),
     Prod([0, 7, 1], PI, GrElementContent)]

  const DefaultStartTagRule := GrammarRule(GrStartTagContent, DefaultStartTagProds, [0, 2, 0])

  /** StartTagContent with the widths of EXI 1.0 section 6.2: the second
      part takes getBitsNumber(7) = 3 bits. */
  const FullStartTagRule := GrammarRule(GrStartTagContent, FullStartTagProds, [0, 3, 1])

  /** StartTagContent with the widths grammars.c:246-248 gives it: four bits
      for a second part whose values 0..7 need three. */
  const FullStartTagRuleAsWritten := GrammarRule(GrStartTagContent, FullStartTagProds, [0, 4, 1])

  function StartTagContentRule(o: Options): GrammarRule {
    if DefaultElementFidelity(o) then DefaultStartTagRule else FullStartTagRule
  }

  function StartTagContentRuleAsWritten(o: Options): GrammarRule {
    if DefaultElementFidelity(o) then DefaultStartTagRule else FullStartTagRuleAsWritten
  }

  const DefaultElementContentRule :=
    GrammarRule(GrElementContent,
                [Prod([0], EE, GrVoidNonTerminal), Prod([1, 0], SEAll, GrElementContent),
                 Prod([1, 1], CH, GrElementContent)], [1, 1, 0])

  const FullElementContentRule :=
    GrammarRule(GrElementContent,
                [Prod([0], EE, GrVoidNonTerminal), Prod([1, 0], SEAll, GrElementContent),
                 Prod([1, 1], CH, GrElementContent), Prod([1, 2], ER, GrElementContent),
                 Prod([1, 3, 0], CM, GrElementContent), Prod([1, 3, 1], PI, GrElementContent)], [1, 2, 1])

  function ElementContentRule(o: Options): GrammarRule {
    if DefaultElementFidelity(o) then DefaultElementContentRule else FullElementContentRule
  }

  /** createBuildInElementGrammar with corrected StartTagContent widths. */
  function CreateBuiltInElementGrammar(o: Options): (g: Grammar)
    ensures |g.rules| == 2 && g.lastNonTermID == GrVoidNonTerminal
    ensures g.rules[0].nonTermID == GrStartTagContent && g.rules[1].nonTermID == GrElementContent
  {
    Grammar([StartTagContentRule(o), ElementContentRule(o)], GrVoidNonTerminal)
  }

  /** createBuildInElementGrammar as written. */
  function CreateBuiltInElementGrammarAsWritten(o: Options): (g: Grammar)
    ensures |g.rules| == 2 && g.lastNonTermID == GrVoidNonTerminal
    ensures g.rules[0].nonTermID == GrStartTagContent && g.rules[1].nonTermID == GrElementContent
  {
    Grammar([StartTagContentRuleAsWritten(o), ElementContentRule(o)], GrVoidNonTerminal)
  }

  // ----------------------------------------------------------- code layout

  /** Code `a` comes before code `b` and neither is a prefix of the other:
      they agree up to a part where `a` is smaller. */
  predicate Before(a: seq<nat>, b: seq<nat>)
    decreases |a|
  {
    |a| > 0 && |b| > 0 && (a[0] < b[0] || (a[0] == b[0] && Before(a[1..], b[1..])))
  }

  lemma {:induction false} BeforeTrans(a: seq<nat>, b: seq<nat>, c: seq<nat>)
    requires Before(a, b) && Before(b, c)
    ensures Before(a, c)
    decreases |a|
  {
    if a[0] == b[0] && b[0] == c[0] {
      BeforeTrans(a[1..], b[1..], c[1..]);
    }
  }

  /** Between non-empty codes, prefix means equal heads and prefix tails. */
  lemma PrefixHeadTail(a: seq<nat>, b: seq<nat>)
    requires |a| > 0 && |b| > 0
    ensures IsPrefix(a, b) <==> a[0] == b[0] && IsPrefix(a[1..], b[1..])
  {
    if |a| <= |b| {
      assert b[..|a|] == [b[0]] + b[1..][..|a| - 1];
      assert a == [a[0]] + a[1..];
    }
  }

  lemma {:induction false} BeforeNotPrefix(a: seq<nat>, b: seq<nat>)
    requires Before(a, b)
    ensures !IsPrefix(a, b) && !IsPrefix(b, a)
    decreases |a|
  {
    PrefixHeadTail(a, b);
    PrefixHeadTail(b, a);
    if a[0] == b[0] {
      BeforeNotPrefix(a[1..], b[1..]);
    }
  }

  /** Consecutive codes come one before the next. */
  predicate Ascending(prods: seq<Production>) {
    forall k :: 0 <= k < |prods| - 1 ==> Before(prods[k].code, prods[k + 1].code)
  }

  lemma {:induction false} AscendingBefore(prods: seq<Production>, i: nat, j: nat)
    requires Ascending(prods) && i < j < |prods|
    ensures Before(prods[i].code, prods[j].code)
    decreases j - i
  {
    if i + 1 < j {
      AscendingBefore(prods, i + 1, j);
      BeforeTrans(prods[i].code, prods[i + 1].code, prods[j].code);
    }
  }

  lemma AscendingPrefixFree(r: GrammarRule)
    requires Ascending(r.prods)
    ensures PrefixFree(r)
  {
    forall i, j | 0 <= i < |r.prods| && 0 <= j < |r.prods| && i != j
      ensures !IsPrefix(r.prods[i].code, r.prods[j].code)
    {
      if i < j {
        AscendingBefore(r.prods, i, j);
        BeforeNotPrefix(r.prods[i].code, r.prods[j].code);
      } else {
        AscendingBefore(r.prods, j, i);
        BeforeNotPrefix(r.prods[j].code, r.prods[i].code);
      }
    }
  }

  /** Every code follows the branch `br` in all parts but its last: the
      built-in rules continue past a part through one value only. */
  predicate OnBranch(r: GrammarRule, br: seq<nat>) {
    |br| == 2 && forall i :: 0 <= i < |r.prods| ==> r.prods[i].code[..|r.prods[i].code| - 1] == br[..|r.prods[i].code| - 1]
  }

  lemma BranchDetermines(r: GrammarRule, br: seq<nat>)
    requires OnBranch(r, br)
    ensures PartsDetermine(r)
  {
    forall i, j, b | 0 <= i < |r.prods| && 0 <= j < |r.prods| && 0 <= b < |r.prods[i].code| && b < |r.prods[j].code|
      && r.prods[i].code[b] == r.prods[j].code[b]
      ensures r.prods[i].code[..b] == r.prods[j].code[..b]
    {
      var ci := r.prods[i].code;
      var cj := r.prods[j].code;
      assert ci[..b] == ci[..|ci| - 1][..b];
      assert cj[..b] == cj[..|cj| - 1][..b];
    }
  }

  /** The layout conditions that the built-in rules meet imply the shape. */
  lemma LayoutWellFormed(r: GrammarRule, br: seq<nat>)
    requires CodesFit(r) && WidthsTight(r) && Ascending(r.prods) && OnBranch(r, br)
    ensures WellFormed(r)
  {
    AscendingPrefixFree(r);
    BranchDetermines(r, br);
  }

  // ------------------------------------------------------------ well formed

  lemma FullStartTagLayout()
    ensures Ascending(FullStartTagRule.prods) && OnBranch(FullStartTagRule, [0, 7])
  {
  }

  lemma FullStartTagFits()
    ensures CodesFit(FullStartTagRule) && PartsReadable(FullStartTagRule)
  {
  }

  lemma FullStartTagTight()
    ensures WidthsTight(FullStartTagRule)
  {
    var r := FullStartTagRule;
    assert r.prods[4].code[1] >= Pow2(2);
    assert PartReached(r, 1);
    assert r.prods[8].code[2] >= Pow2(0);
    assert PartReached(r, 2);
  }

  lemma FullStartTagWellFormed()
    ensures WellFormed(FullStartTagRule) && PartsReadable(FullStartTagRule)
  {
    FullStartTagLayout();
    FullStartTagFits();
    FullStartTagTight();
    LayoutWellFormed(FullStartTagRule, [0, 7]);
  }

  lemma DefaultStartTagLayout()
    ensures Ascending(DefaultStartTagRule.prods) && OnBranch(DefaultStartTagRule, [0, 0])
  {
  }

  lemma DefaultStartTagFits()
    ensures CodesFit(DefaultStartTagRule) && PartsReadable(DefaultStartTagRule)
  {
  }

  lemma DefaultStartTagTight()
    ensures WidthsTight(DefaultStartTagRule)
  {
    var r := DefaultStartTagRule;
    assert r.prods[3].code[1] >= Pow2(1);
    assert PartReached(r, 1);
  }

  lemma DefaultStartTagWellFormed()
    ensures WellFormed(DefaultStartTagRule) && PartsReadable(DefaultStartTagRule)
  {
    DefaultStartTagLayout();
    DefaultStartTagFits();
    DefaultStartTagTight();
    LayoutWellFormed(DefaultStartTagRule, [0, 0]);
  }

  lemma FullElementContentLayout()
    ensures Ascending(FullElementContentRule.prods) && OnBranch(FullElementContentRule, [1, 3])
  {
  }

  lemma FullElementContentFits()
    ensures CodesFit(FullElementContentRule) && PartsReadable(FullElementContentRule)
  {
  }

  lemma FullElementContentTight()
    ensures WidthsTight(FullElementContentRule)
  {
    var r := FullElementContentRule;
    assert r.prods[1].code[0] >= Pow2(0);
    assert PartReached(r, 0);
    assert r.prods[4].code[1] >= Pow2(1);
    assert PartReached(r, 1);
    assert r.prods[5].code[2] >= Pow2(0);
    assert PartReached(r, 2);
  }

  lemma FullElementContentWellFormed()
    ensures WellFormed(FullElementContentRule) && PartsReadable(FullElementContentRule)
  {
    FullElementContentLayout();
    FullElementContentFits();
    FullElementContentTight();
    LayoutWellFormed(FullElementContentRule, [1, 3]);
  }

  lemma DefaultElementContentLayout()
    ensures Ascending(DefaultElementContentRule.prods) && OnBranch(DefaultElementContentRule, [1, 0])
  {
  }

  lemma DefaultElementContentFits()
    ensures CodesFit(DefaultElementContentRule) && PartsReadable(DefaultElementContentRule)
  {
  }

  lemma DefaultElementContentTight()
    ensures WidthsTight(DefaultElementContentRule)
  {
    var r := DefaultElementContentRule;
    assert r.prods[1].code[0] >= Pow2(0);
    assert PartReached(r, 0);
    assert r.prods[2].code[1] >= Pow2(0);
    assert PartReached(r, 1);
  }

  lemma DefaultElementContentWellFormed()
    ensures WellFormed(DefaultElementContentRule) && PartsReadable(DefaultElementContentRule)
  {
    DefaultElementContentLayout();
    DefaultElementContentFits();
    DefaultElementContentTight();
    LayoutWellFormed(DefaultElementContentRule, [1, 0]);
  }

  lemma FullDocEndLayout()
    ensures Ascending(FullDocEndRule.prods) && OnBranch(FullDocEndRule, [1, 0])
  {
  }

  lemma FullDocEndFits()
    ensures CodesFit(FullDocEndRule) && PartsReadable(FullDocEndRule)
  {
  }

  lemma FullDocEndTight()
    ensures WidthsTight(FullDocEndRule)
  {
    var r := FullDocEndRule;
    assert r.prods[1].code[0] >= Pow2(0);
    assert PartReached(r, 0);
    assert r.prods[2].code[1] >= Pow2(0);
    assert PartReached(r, 1);
  }

  lemma FullDocEndWellFormed()
    ensures WellFormed(FullDocEndRule) && PartsReadable(FullDocEndRule)
  {
    FullDocEndLayout();
    FullDocEndFits();
    FullDocEndTight();
    LayoutWellFormed(FullDocEndRule, [1, 0]);
  }

  /** The one-production rules Document and (default) DocEnd are well formed
      and need no bits. */
  lemma SingleRulesWellFormed()
    ensures WellFormed(DocumentRule) && WellFormed(DefaultDocEndRule)
  {
    assert Ascending(DocumentRule.prods) && OnBranch(DocumentRule, [0, 0]);
    LayoutWellFormed(DocumentRule, [0, 0]);
    assert Ascending(DefaultDocEndRule.prods) && OnBranch(DefaultDocEndRule, [0, 0]);
    LayoutWellFormed(DefaultDocEndRule, [0, 0]);
  }

  lemma DocContentLayout(o: Options, elems: seq<QNameRef>)
    ensures Ascending(DocContentRule(o, elems).prods)
    ensures OnBranch(DocContentRule(o, elems), [|elems| + 1, 1])
  {
    DocContentAscending(o, elems);
    var r := DocContentRule(o, elems);
    var n := |elems|;
    forall i | 0 <= i < |r.prods|
      ensures r.prods[i].code[..|r.prods[i].code| - 1] == [n + 1, 1][..|r.prods[i].code| - 1]
    {
      if i > n {
        assert r.prods[i].code[0] == n + 1;
      }
    }
  }

  lemma DocContentAscending(o: Options, elems: seq<QNameRef>)
    ensures Ascending(DocContentRule(o, elems).prods)
  {
    var r := DocContentRule(o, elems);
    var n := |elems|;
    forall k | 0 <= k < |r.prods| - 1
      ensures Before(r.prods[k].code, r.prods[k + 1].code)
    {
      if k + 1 < n {
        assert r.prods[k].code == [k] && r.prods[k + 1].code == [k + 1];
      } else if k + 1 == n {
        assert r.prods[k].code == [k] && r.prods[k + 1].code == [n];
      } else if k == n {
        assert r.prods[k].code == [n] && r.prods[k + 1].code == [n + 1, 0];
      } else if k == n + 1 {
        assert r.prods[k].code == [n + 1, 0] && r.prods[k + 1].code == [n + 1, 1, 0];
      } else {
        assert r.prods[k].code == [n + 1, 1, 0] && r.prods[k + 1].code == [n + 1, 1, 1];
      }
    }
  }

  lemma DocContentFits(o: Options, elems: seq<QNameRef>)
    ensures CodesFit(DocContentRule(o, elems))
  {
    var r := DocContentRule(o, elems);
    var n := |elems|;
    var top := if DefaultDocFidelity(o) then n else n + 1;
    forall i, b | 0 <= i < |r.prods| && 0 <= b < |r.prods[i].code|
      ensures r.prods[i].code[b] < Pow2(r.bits[b])
    {
      if i < n {
        assert r.prods[i].code == [i];
      } else if b == 0 {
        assert r.prods[i].code[0] <= top;
      } else {
        assert r.prods[i].code[b] <= 1 && r.bits[b] == 1;
      }
    }
  }

  lemma DocContentTight(o: Options, elems: seq<QNameRef>)
    ensures WidthsTight(DocContentRule(o, elems))
  {
    if DefaultDocFidelity(o) {
      DefaultDocContentTight(o, elems);
    } else {
      FullDocContentTight(o, elems);
    }
  }

  lemma DefaultDocContentTight(o: Options, elems: seq<QNameRef>)
    requires DefaultDocFidelity(o)
    ensures WidthsTight(DocContentRule(o, elems))
  {
    var r := DocContentRule(o, elems);
    var n := |elems|;
    if r.bits[0] > 0 {
      assert r.prods[n].code[0] >= Pow2(r.bits[0] - 1);
      assert PartReached(r, 0);
    }
  }

  lemma FullDocContentTight(o: Options, elems: seq<QNameRef>)
    requires !DefaultDocFidelity(o)
    ensures WidthsTight(DocContentRule(o, elems))
  {
    var r := DocContentRule(o, elems);
    var n := |elems|;
    assert r.prods[n + 1].code[0] >= Pow2(r.bits[0] - 1);
    assert PartReached(r, 0);
    assert r.prods[n + 2].code[1] >= Pow2(0);
    assert PartReached(r, 1);
    assert r.prods[n + 3].code[2] >= Pow2(0);
    assert PartReached(r, 2);
  }

  lemma DocContentWellFormed(o: Options, elems: seq<QNameRef>)
    ensures WellFormed(DocContentRule(o, elems))
  {
    DocContentLayout(o, elems);
    DocContentFits(o, elems);
    DocContentTight(o, elems);
    LayoutWellFormed(DocContentRule(o, elems), [|elems| + 1, 1]);
  }

  /** DocContent needs no zero-width pick unless it has the single
      production SE(*) (default fidelity, no global elements). */
  lemma DocContentReadable(o: Options, elems: seq<QNameRef>)
    requires !DefaultDocFidelity(o) || |elems| > 0
    ensures PartsReadable(DocContentRule(o, elems))
  {
    if DefaultDocFidelity(o) {
      DefaultDocContentReadable(o, elems);
    } else {
      var r := DocContentRule(o, elems);
      assert r.bits == [GetBitsNumber(|elems| + 1), 1, 1];
      PositiveWidthsReadable(r);
    }
  }

  /** A rule with no zero-width part needs no pick. */
  lemma PositiveWidthsReadable(r: GrammarRule)
    requires r.bits[0] > 0 && r.bits[1] > 0 && r.bits[2] > 0
    ensures PartsReadable(r)
  {
  }

  lemma DefaultDocContentReadable(o: Options, elems: seq<QNameRef>)
    requires DefaultDocFidelity(o) && |elems| > 0
    ensures PartsReadable(DocContentRule(o, elems))
  {
    var r := DocContentRule(o, elems);
    assert r.bits[0] > 0;
    forall i, b | 0 <= i < |r.prods| && 0 <= b < |r.prods[i].code|
      ensures r.bits[b] > 0
    {
      assert |r.prods[i].code| == 1;
    }
  }

  // ------------------------------------------------------------- grammars

  /** createDocGrammar lays out the rules of EXI 1.0 section 8.4.1: Document
      is SD with code 0, DocContent lists SE(G-e) with code e for each global
      element and then SE(*) with code n, followed by DT n+1.0, CM n+1.1.0
      and PI n+1.1.1 unless fidelity is default; DocEnd is ED 0, followed by
      CM 1.0 and PI 1.1 unless fidelity is default. */
  lemma DocGrammarLayout(o: Options, schema: Option<seq<QNameRef>>)
    ensures var g := CreateDocGrammar(o, schema);
            var elems := if schema.Some? then schema.value else [];
            var n := |elems|;
            var dc := g.rules[1];
            && g.rules[0].prods == [Production([0], SD, NoValue, GrDocContent, 0, 0)] && g.rules[0].bits[0] == 0
            && (forall e :: 0 <= e < n ==>
                  dc.prods[e] == Production([e], SEQName, NoValue, GrDocEnd, elems[e].uriID, elems[e].lnID))
            && dc.prods[n] == Production([n], SEAll, NoValue, GrDocEnd, 0, 0)
            && (DefaultDocFidelity(o) ==> |dc.prods| == n + 1 && dc.bits[0] == GetBitsNumber(n)
                                          && g.rules[2].prods == [Production([0], ED, NoValue, GrVoidNonTerminal, 0, 0)])
            && (!DefaultDocFidelity(o) ==>
                  |dc.prods| == n + 4 && dc.bits == [GetBitsNumber(n + 1), 1, 1]
                  && dc.prods[n + 1].code == [n + 1, 0] && dc.prods[n + 1].event == DT
                  && dc.prods[n + 2].code == [n + 1, 1, 0] && dc.prods[n + 2].event == CM
                  && dc.prods[n + 3].code == [n + 1, 1, 1] && dc.prods[n + 3].event == PI
                  && |g.rules[2].prods| == 3 && g.rules[2].bits == [1, 1, 0])
  {
    var g := CreateDocGrammar(o, schema);
    var elems := if schema.Some? then schema.value else [];
    assert g.rules[1] == DocContentRule(o, elems) && g.rules[2] == DocEndRule(o);
  }

  lemma CreateDocGrammarWellFormed(o: Options, schema: Option<seq<QNameRef>>)
    ensures GrammarWellFormed(CreateDocGrammar(o, schema))
  {
    var g := CreateDocGrammar(o, schema);
    var elems := if schema.Some? then schema.value else [];
    SingleRulesWellFormed();
    DocContentWellFormed(o, elems);
    if !DefaultDocFidelity(o) || |elems| > 0 {
      DocContentReadable(o, elems);
    } else {
      assert g.rules[1].bits == [0, 0, 0];
    }
    if !DefaultDocFidelity(o) {
      FullDocEndWellFormed();
    }
    assert Decodable(g.rules[0]);
  }

  /** createBuildInElementGrammar (widths corrected) lays out the rules of
      EXI 1.0 section 8.4.3: with default fidelity StartTagContent is EE 0.0,
      AT(*) 0.1, SE(*) 0.2, CH 0.3 with widths {0, 2} and ElementContent is
      EE 0, SE(*) 1.0, CH 1.1 with widths {1, 1}. */
  lemma ElementGrammarLayout(o: Options)
    requires DefaultElementFidelity(o)
    ensures var g := CreateBuiltInElementGrammar(o);
            && g.rules[0].prods == [Prod([0, 0], EE, GrVoidNonTerminal), Prod([0, 1], ATAll, GrStartTagContent),
                                   Prod([0, 2], SEAll, GrElementContent), Prod([0, 3], CH, GrElementContent)]
            && g.rules[0].bits == [0, 2, 0]
            && g.rules[1].prods == [Prod([0], EE, GrVoidNonTerminal), Prod([1, 0], SEAll, GrElementContent),
                                   Prod([1, 1], CH, GrElementContent)]
            && g.rules[1].bits == [1, 1, 0]
  {
  }

  /** The element grammar when some preserve option or selfContained is
      set, EXI 1.0 section 8.4.3: StartTagContent adds NS 0.2, SC 0.3, ER
      0.6, CM 0.7.0 and PI 0.7.1 and moves SE(*) to 0.4 and CH to 0.5;
      ElementContent adds ER 1.2, CM 1.3.0 and PI 1.3.1. */
  lemma ElementGrammarFullLayout(o: Options)
    requires !DefaultElementFidelity(o)
    ensures var g := CreateBuiltInElementGrammar(o);
            && g.rules[0].prods == [Prod([0, 0], EE, GrVoidNonTerminal), Prod([0, 1], ATAll, GrStartTagContent),
                                   Prod([0, 2], NS, GrStartTagContent), Prod([0, 3], SC, GrFragment),
                                   Prod([0, 4], SEAll, GrElementContent), Prod([0, 5], CH, GrElementContent),
                                   Prod([0, 6], ER, GrElementContent), Prod([0, 7, 0], CM, GrElementContent),
                                   Prod([0, 7, 1], PI, GrElementContent)]
            && g.rules[0].bits == [0, 3, 1]
            && g.rules[1].prods == [Prod([0], EE, GrVoidNonTerminal), Prod([1, 0], SEAll, GrElementContent),
                                   Prod([1, 1], CH, GrElementContent), Prod([1, 2], ER, GrElementContent),
                                   Prod([1, 3, 0], CM, GrElementContent), Prod([1, 3, 1], PI, GrElementContent)]
            && g.rules[1].bits == [1, 2, 1]
  {
  }

  /** The corrected element grammar differs from the one written in the C
      code only in the width of the second part of StartTagContent outside
      default fidelity: three bits instead of four. */
  lemma ElementGrammarAgainstAsWritten(o: Options)
    ensures var g, a := CreateBuiltInElementGrammar(o), CreateBuiltInElementGrammarAsWritten(o);
            && g.rules[1] == a.rules[1] && g.rules[0].prods == a.rules[0].prods
            && g.rules[0].nonTermID == a.rules[0].nonTermID
            && (DefaultElementFidelity(o) ==> g == a)
            && (!DefaultElementFidelity(o) ==> g.rules[0].bits == [0, 3, 1] && a.rules[0].bits == [0, 4, 1])
  {
  }

  /** The element grammar is well formed and every part of every code is
      read, which learning then keeps. */
  lemma CreateBuiltInElementGrammarWellFormed(o: Options)
    ensures var g := CreateBuiltInElementGrammar(o);
            GrammarWellFormed(g) && forall k :: 0 <= k < |g.rules| ==> PartsReadable(g.rules[k])
  {
    var a, b := StartTagContentRule(o), ElementContentRule(o);
    assert WellFormed(a) && PartsReadable(a) && WellFormed(b) && PartsReadable(b) by {
      if DefaultElementFidelity(o) {
        DefaultStartTagWellFormed();
        DefaultElementContentWellFormed();
      } else {
        FullStartTagWellFormed();
        FullElementContentWellFormed();
      }
    }
    ReadableRulesWellFormed(a, b);
  }

  /** A grammar of two well-formed rules whose parts are all read. */
  lemma ReadableRulesWellFormed(a: GrammarRule, b: GrammarRule)
    requires WellFormed(a) && PartsReadable(a) && WellFormed(b) && PartsReadable(b)
    ensures var g := Grammar([a, b], GrVoidNonTerminal);
            GrammarWellFormed(g) && forall k :: 0 <= k < |g.rules| ==> PartsReadable(g.rules[k])
  {
  }

  /** Every production of the document grammar is recovered from its event
      code. */
  lemma DocGrammarDecodes(o: Options, schema: Option<seq<QNameRef>>, k: nat, j: nat, rest: Bits)
    requires k < 3 && j < |CreateDocGrammar(o, schema).rules[k].prods|
    ensures var r := CreateDocGrammar(o, schema).rules[k];
            var m := Match(o, r, EncodeEventCode(o, r, r.prods[j].code) + rest);
            m.Selected() && m.j == j && m.rest == rest
  {
    CreateDocGrammarWellFormed(o, schema);
    RuleDecodes(o, CreateDocGrammar(o, schema).rules[k], j, rest);
  }

  /** Every production of the element grammar is recovered from its event
      code. */
  lemma ElementGrammarDecodes(o: Options, k: nat, j: nat, rest: Bits)
    requires k < 2 && j < |CreateBuiltInElementGrammar(o).rules[k].prods|
    ensures var r := CreateBuiltInElementGrammar(o).rules[k];
            Match(o, r, EncodeEventCode(o, r, r.prods[j].code) + rest) == Matched(j, |r.prods[j].code| - 1, rest)
  {
    CreateBuiltInElementGrammarWellFormed(o);
    EventCodeRoundTrip(o, CreateBuiltInElementGrammar(o).rules[k], j, rest);
  }

  // -------------------------------------------- StartTagContent as written

  /** As written, the non-default StartTagContent is four bits wide in its
      second part although no part reaches 8: the width is not tight. */
  lemma StartTagContentAsWrittenNotTight()
    ensures !WidthsTight(FullStartTagRuleAsWritten)
  {
    var r := FullStartTagRuleAsWritten;
    assert r.bits[1] == 4 && Pow2(r.bits[1] - 1) == 8;
    forall i | 0 <= i < |r.prods| && 1 < |r.prods[i].code|
      ensures r.prods[i].code[1] < 8
    {
      assert r.prods[i] in FullStartTagProds;
    }
    assert !PartReached(r, 1);
  }

  /** A bit-packed stream carrying CH (code 0.5) in the three bits of EXI
      1.0 section 6.2: the corrected rule matches CH, the rule as written
      asks for a fourth bit and fails at the end of the stream. */
  lemma StartTagContentAsWrittenMisreads()
    ensures var o := DefaultOptions.(preserve := PreserveComments);
            var s := EncodeEventCode(o, FullStartTagRule, [0, 5]);
            && s == [true, false, true]
            && Match(o, FullStartTagRule, s) == Matched(5, 1, [])
            && Match(o, FullStartTagRuleAsWritten, s) == Failed(BufferEndReached)
  {
    var o := DefaultOptions.(preserve := PreserveComments);
    var s := EncodeEventCode(o, FullStartTagRule, [0, 5]);
    EncodedCharacters(o);
    FullStartTagWellFormed();
    EventCodeRoundTrip(o, FullStartTagRule, 5, []);
    assert s + [] == s;
    AsWrittenShortStream(o, s);
  }

  lemma EncodedCharacters(o: Options)
    requires IsBitPacked(o)
    ensures EncodeEventCode(o, FullStartTagRule, [0, 5]) == [true, false, true]
  {
    assert EncodeNBitUnsignedInteger(o, 0, 0) == [];
    assert WriteBits(5, 3) == [true, false, true];
  }

  /** The rule as written reads four bits for the second part. */
  lemma AsWrittenShortStream(o: Options, s: Bits)
    requires IsBitPacked(o) && |s| < 4
    ensures Match(o, FullStartTagRuleAsWritten, s) == Failed(BufferEndReached)
  {
    MatchFromSkips(o, FullStartTagRuleAsWritten, 0, 0, s, false);
    assert DecodeNBitUnsignedInteger(o, s, 4) == Err(BufferEndReached);
  }
}
