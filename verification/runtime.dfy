/** The decoding runtime of grammars.c: the stream state (string tables,
    document grammar, element-grammar pool, grammar stack, current
    non-terminal and current QName), processNextProduction, which matches
    one event code in the current rule, and decodeEventContent, which reads
    the event's content, learns productions and pushes element grammars.
    Content-handler callbacks become a trace and a stop decision. */
module Runtime {
  import opened ErrorHandle
  import opened ProcTypes
  import opened StreamIO
  import opened STables
  import opened QNameCodec
  import opened GrammarRules
  import opened BuiltinGrammars
  import GrammarStack

  // ------------------------------------------------------------------ state

  /** A stack entry refers to the document grammar or to the pooled
      grammar of an element QName (uri row, local-name row). */
  datatype GRef = DocGrammar | Pooled(key: (nat, nat))

  /** A grammar on the stack and the non-terminal to resume in it once the
      grammar above it is popped. */
  datatype Frame = Frame(g: GRef, lastNonTermID: nat)

  datatype CallbackKind = OnStartDocument | OnEndDocument | OnStartElement | OnEndElement
                        | OnAttribute | OnStringData | OnSelfContained

  /** The content-handler calls, with their arguments. */
  datatype Callback =
    | StartDocument
    | EndDocument
    | StartElement(uri: Str, localName: Str)
    | EndElement
    | Attribute(uri: Str, localName: Str)
    | StringData(value: Str)
    | SelfContained
  {
    function Kind(): CallbackKind {
      match this
      case StartDocument => OnStartDocument
      case EndDocument => OnEndDocument
      case StartElement(_, _) => OnStartElement
      case EndElement => OnEndElement
      case Attribute(_, _) => OnAttribute
      case StringData(_) => OnStringData
      case SelfContained => OnSelfContained
    }
  }

  /** The callbacks the handler sets, and its answer (stop or not) to each
      call. */
  datatype Handler = Handler(present: set<CallbackKind>, stops: Callback -> bool)

  datatype Stream = Stream(
    opts: Options,
    tables: Tables,
    doc: Grammar,
    pool: map<(nat, nat), Grammar>,
    stack: seq<Frame>,   // topmost first
    nonTermID: nat,
    ctx: QNameRef,       // sContext.curr_uriID, curr_lnID
    bits: Bits,
    trace: seq<Callback>)

  /** The stack is not empty and every pooled frame has its grammar. */
  predicate Valid(st: Stream) {
    |st.stack| > 0 && forall k :: 0 <= k < |st.stack| && st.stack[k].g.Pooled? ==> st.stack[k].g.key in st.pool
  }

  function Top(st: Stream): Grammar
    requires Valid(st)
  {
    match st.stack[0].g
    case DocGrammar => st.doc
    case Pooled(key) => st.pool[key]
  }

  /** Replaces the grammar on top of the stack; a pooled grammar is changed
      in the pool, so every later use of that element sees it. */
  function WithTop(st: Stream, g: Grammar): (r: Stream)
    requires Valid(st)
    ensures Valid(r) && Top(r) == g && r.stack == st.stack && r.pool.Keys == st.pool.Keys
    ensures r.tables == st.tables && r.bits == st.bits && r.ctx == st.ctx && r.trace == st.trace && r.opts == st.opts
    ensures st.stack[0].g.DocGrammar? ==> r.pool == st.pool
    ensures st.stack[0].g.Pooled? ==> r.doc == st.doc && r.pool == st.pool[st.stack[0].g.key := g]
  {
    match st.stack[0].g
    case DocGrammar => st.(doc := g)
    case Pooled(key) => st.(pool := st.pool[key := g])
  }

  /** insertZeroProduction on rule `i` of `g`. */
  function LearnIn(g: Grammar, i: nat, e: EventType, nt: nat, ln: nat, uri: nat): (g': Grammar)
    requires i < |g.rules|
    ensures |g'.rules| == |g.rules| && g'.lastNonTermID == g.lastNonTermID
    ensures g'.rules[i] == InsertZeroProduction(g.rules[i], e, nt, ln, uri)
    ensures forall k :: 0 <= k < |g.rules| && k != i ==> g'.rules[k] == g.rules[k]
  {
    g.(rules := g.rules[i := InsertZeroProduction(g.rules[i], e, nt, ln, uri)])
  }

  /** Grammar learning on rule `i` of the top grammar (insertZeroProduction
      with the current QName). */
  function Learn(st: Stream, i: nat, e: EventType, nt: nat): (r: Stream)
    requires Valid(st) && i < |Top(st).rules|
    ensures Valid(r) && Top(r) == LearnIn(Top(st), i, e, nt, st.ctx.lnID, st.ctx.uriID)
    ensures st.stack[0].g.Pooled? ==> r.doc == st.doc && r.pool == st.pool[st.stack[0].g.key := Top(r)]
    ensures st.stack[0].g.DocGrammar? ==> r.pool == st.pool
    ensures r.stack == st.stack && r.pool.Keys == st.pool.Keys && r.tables == st.tables && r.ctx == st.ctx
    ensures r.bits == st.bits && r.trace == st.trace && r.opts == st.opts
  {
    WithTop(st, LearnIn(Top(st), i, e, nt, st.ctx.lnID, st.ctx.uriID))
  }

  /** Calls the handler: an absent callback is skipped, a callback that
      answers stop ends processing with HANDLER_STOP_RECEIVED. */
  function Invoke(st: Stream, h: Handler, cb: Callback): (r: Result<Stream>)
    ensures r.Err? <==> cb.Kind() in h.present && h.stops(cb)
    ensures r.Err? ==> r.code == HandlerStopReceived
    ensures r.Ok? && cb.Kind() in h.present ==> r.value == st.(trace := st.trace + [cb])
    ensures r.Ok? && cb.Kind() !in h.present ==> r.value == st
  {
    if cb.Kind() !in h.present then Ok(st)
    else if h.stops(cb) then Err(HandlerStopReceived)
    else Ok(st.(trace := st.trace + [cb]))
  }

  /** isDocumentGrammar: a grammar without rules is a null reference; the
      document grammar is the one whose first rule is Document. */
  function IsDocumentGrammar(g: Grammar): (r: Result<bool>)
    ensures r.Err? <==> |g.rules| == 0
    ensures r.Err? ==> r.code == NullPointerRef
    ensures r.Ok? ==> (r.value <==> g.rules[0].nonTermID == GrDocument)
  {
    if |g.rules| == 0 then Err(NullPointerRef) else Ok(g.rules[0].nonTermID == GrDocument)
  }

  /** The built-in document grammar is recognised as such and the built-in
      element grammar is not. */
  lemma DocumentGrammarRecognised(o: Options, schema: Option<seq<QNameRef>>)
    ensures IsDocumentGrammar(CreateDocGrammar(o, schema)) == Ok(true)
    ensures IsDocumentGrammar(CreateBuiltInElementGrammar(o)) == Ok(false)
  {
  }

  /** The outcome of one production: the event (none when the code matched
      nothing), the right-hand-side non-terminal and the new state. */
  datatype Step = Step(event: Option<EventType>, nonTermOut: nat, st: Stream)

  // ------------------------------------------------------ event content

  /** decodeStringValue followed by the stringData callback, for a value
      of string type or of no declared type; other value types are left in
      the stream, as in the C code. */
  function DecodeValue(st: Stream, h: Handler, vt: ValueType): (r: Result<Stream>)
    ensures r.Ok? ==> Extends(st.tables, r.value.tables)
    ensures r.Ok? ==> r.value.doc == st.doc && r.value.pool == st.pool && r.value.stack == st.stack && r.value.ctx == st.ctx
    ensures r.Ok? ==> r.value.opts == st.opts
    ensures vt != StringValue && vt != NoValue ==> r == Ok(st)
  {
    if vt == StringValue || vt == NoValue then
      var v :- DecodeStringValue(st.opts, st.tables, st.ctx, st.bits);
      Invoke(st.(tables := v.1, bits := v.2), h, StringData(v.0))
    else
      ExtendsRefl(st.tables);
      Ok(st)
  }

  /** Records the non-terminal to resume in the current grammar and pushes
      the element grammar of `key`. */
  function PushElement(st: Stream, key: (nat, nat), resume: nat): (r: Stream)
    requires Valid(st) && key in st.pool
    ensures Valid(r) && |r.stack| == |st.stack| + 1
    ensures r.stack[0] == Frame(Pooled(key), GrVoidNonTerminal)
    ensures r.stack[1] == st.stack[0].(lastNonTermID := resume)
    ensures r.stack[2..] == st.stack[1..]
    ensures r.doc == st.doc && r.pool == st.pool && r.tables == st.tables && r.ctx == st.ctx && r.bits == st.bits
    ensures r.trace == st.trace && r.opts == st.opts
  {
    var below := st.stack[0 := st.stack[0].(lastNonTermID := resume)];
    st.(stack := GrammarStack.Push(below, Frame(Pooled(key), GrVoidNonTerminal)))
  }

  /** `after` has the element grammar of `key` on top of the stack of
      `before`, whose top frame resumes in `resume`; the pool has gained
      the built-in element grammar under `key` if it had none. */
  predicate Entered(before: Stream, after: Stream, key: (nat, nat), resume: nat)
    requires Valid(before)
  {
    && |after.stack| == |before.stack| + 1
    && after.stack[0] == Frame(Pooled(key), GrVoidNonTerminal)
    && after.stack[1] == before.stack[0].(lastNonTermID := resume)
    && after.stack[2..] == before.stack[1..]
    && (key in before.pool ==> after.pool.Keys == before.pool.Keys)
    && (key !in before.pool ==> after.pool.Keys == before.pool.Keys + {key}
                                && after.pool[key] == CreateBuiltInElementGrammar(before.opts))
  }

  /** Pushes the element grammar of `key`, creating it from the built-in
      element grammar and pooling it first when the pool has none. */
  function EnterElement(st: Stream, key: (nat, nat), resume: nat): (r: Stream)
    requires Valid(st)
    ensures Valid(r) && Entered(st, r, key, resume)
    ensures key in st.pool ==> r.pool == st.pool
    ensures key !in st.pool ==> r.pool == st.pool[key := CreateBuiltInElementGrammar(st.opts)]
    ensures r.doc == st.doc && r.tables == st.tables && r.ctx == st.ctx && r.bits == st.bits
    ensures r.trace == st.trace && r.opts == st.opts
  {
    if key in st.pool then PushElement(st, key, resume)
    else PushElement(PoolGrammar(st, key, CreateBuiltInElementGrammar(st.opts)), key, resume)
  }

  /** Adding a grammar to the pool keeps every pooled frame backed. */
  function PoolGrammar(st: Stream, key: (nat, nat), g: Grammar): (r: Stream)
    requires Valid(st)
    ensures Valid(r) && key in r.pool && r.pool.Keys == st.pool.Keys + {key}
    ensures r == st.(pool := st.pool[key := g])
  {
    st.(pool := st.pool[key := g])
  }

  /** Learning in an element grammar only: the document grammar never
      learns SE(qname). The rule exists, so isDocumentGrammar cannot fail
      here. */
  function LearnUnlessDocument(st: Stream, i: nat, e: EventType, nt: nat): (r: Stream)
    requires Valid(st) && i < |Top(st).rules|
    ensures Valid(r) && r.stack == st.stack && r.pool.Keys == st.pool.Keys
    ensures r.tables == st.tables && r.ctx == st.ctx && r.opts == st.opts
    ensures Top(st).rules[0].nonTermID == GrDocument ==> r == st
    ensures Top(st).rules[0].nonTermID != GrDocument ==> r == Learn(st, i, e, nt)
  {
    var isDoc := IsDocumentGrammar(Top(st)).value;
    if isDoc then st else Learn(st, i, e, nt)
  }

  /** Reads a QName, makes it the current one and reports it through the
      startElement or attribute callback. */
  function ReadCurrentQName(st: Stream, h: Handler, element: bool): (r: Result<Stream>)
    ensures r.Ok? ==> Extends(st.tables, r.value.tables) && ValidRef(r.value.tables, r.value.ctx)
    ensures r.Ok? ==> r.value.doc == st.doc && r.value.pool == st.pool && r.value.stack == st.stack
    ensures r.Ok? ==> r.value.opts == st.opts
  {
    var qn :- DecodeQName(st.opts, st.tables, st.bits);
    var q := qn.0;
    var uri := UriOf(qn.1, q);
    var ln := LocalNameOf(qn.1, q);
    Invoke(st.(tables := qn.1, bits := qn.2, ctx := q), h, if element then StartElement(uri, ln) else Attribute(uri, ln))
  }

  /** SE(*): the QName is read and becomes current, startElement is called,
      an element grammar learns SE(qname), and the grammar of the QName is
      pushed, created with the built-in element grammar and pooled if it is
      new. The element continues in StartTagContent. */
  function DecodeStartElementAll(st: Stream, h: Handler, nonTermOut: nat, i: nat): (r: Result<Step>)
    requires Valid(st) && i < |Top(st).rules|
    ensures r.Ok? ==> Valid(r.value.st) && Extends(st.tables, r.value.st.tables)
    ensures r.Ok? ==> r.value.event == Some(SEAll) && r.value.nonTermOut == GrStartTagContent
    ensures r.Ok? ==> ValidRef(r.value.st.tables, r.value.st.ctx)
    ensures r.Ok? ==> Entered(st, r.value.st, (r.value.st.ctx.uriID, r.value.st.ctx.lnID), nonTermOut)
  {
    var st1 :- ReadCurrentQName(st, h, true);
    var st2 := LearnUnlessDocument(st1, i, SEQName, nonTermOut);
    Ok(Step(Some(SEAll), GrStartTagContent, EnterElement(st2, (st1.ctx.uriID, st1.ctx.lnID), nonTermOut)))
  }

  /** AT(*): the QName is read and becomes current, attribute is called,
      the value is read, and the rule learns AT(qname) whatever grammar it
      belongs to. */
  function DecodeAttributeAll(st: Stream, h: Handler, vt: ValueType, nonTermOut: nat, i: nat): (r: Result<Step>)
    requires Valid(st) && i < |Top(st).rules|
    ensures r.Ok? ==> Valid(r.value.st) && Extends(st.tables, r.value.st.tables)
    ensures r.Ok? ==> var s := r.value.st;
            && r.value.event == Some(ATAll) && r.value.nonTermOut == nonTermOut
            && ValidRef(s.tables, s.ctx) && s.stack == st.stack && s.pool.Keys == st.pool.Keys
            && Top(s) == LearnIn(Top(st), i, ATQName, nonTermOut, s.ctx.lnID, s.ctx.uriID)
    ensures r.Ok? && st.stack[0].g.Pooled? ==>
              (r.value.st.doc == st.doc && r.value.st.pool == st.pool[st.stack[0].g.key := Top(r.value.st)])
  {
    var st1 :- ReadCurrentQName(st, h, false);
    var st3 :- DecodeValue(st1, h, vt);
    ExtendsKeepsRef(st1.tables, st3.tables, st1.ctx);
    ExtendsTrans(st.tables, st1.tables, st3.tables);
    Ok(Step(Some(ATAll), nonTermOut, Learn(st3, i, ATQName, nonTermOut)))
  }

  /** SE(qname): the current QName names the element; its grammar must be
      in the pool already. */
  function DecodeStartElementQName(st: Stream, h: Handler, nonTermOut: nat): (r: Result<Step>)
    requires Valid(st)
    ensures r.Ok? ==> Valid(r.value.st) && r.value.st.tables == st.tables
    ensures r.Ok? ==> var s := r.value.st;
            && r.value.event == Some(SEQName) && r.value.nonTermOut == GrStartTagContent
            && (st.ctx.uriID, st.ctx.lnID) in st.pool && s.pool == st.pool && s.doc == st.doc
            && |s.stack| == |st.stack| + 1 && s.stack[0] == Frame(Pooled((st.ctx.uriID, st.ctx.lnID)), GrVoidNonTerminal)
            && s.stack[1].lastNonTermID == nonTermOut && s.stack[2..] == st.stack[1..]
    ensures ValidRef(st.tables, st.ctx) && OnStartElement !in h.present && (st.ctx.uriID, st.ctx.lnID) !in st.pool
            ==> r == Err(InconsistentProcState)
  {
    var _ :- LnRowAt(st.tables, st.ctx);
    var st1 :- Invoke(st, h, StartElement(UriOf(st.tables, st.ctx), LocalNameOf(st.tables, st.ctx)));
    var key := (st.ctx.uriID, st.ctx.lnID);
    if key in st1.pool then Ok(Step(Some(SEQName), GrStartTagContent, PushElement(st1, key, nonTermOut)))
    else Err(InconsistentProcState)
  }

  /** AT(qname): the current QName names the attribute; its value follows. */
  function DecodeAttributeQName(st: Stream, h: Handler, vt: ValueType, nonTermOut: nat): (r: Result<Step>)
    requires Valid(st)
    ensures r.Ok? ==> Valid(r.value.st) && Extends(st.tables, r.value.st.tables)
    ensures r.Ok? ==> r.value.event == Some(ATQName) && r.value.nonTermOut == nonTermOut
                      && r.value.st.doc == st.doc && r.value.st.pool == st.pool && r.value.st.stack == st.stack
  {
    var _ :- LnRowAt(st.tables, st.ctx);
    var st1 :- Invoke(st, h, Attribute(UriOf(st.tables, st.ctx), LocalNameOf(st.tables, st.ctx)));
    var st2 :- DecodeValue(st1, h, vt);
    Ok(Step(Some(ATQName), nonTermOut, st2))
  }

  /** decodeEventContent for event `e` of rule `i`. Events other than SE,
      AT and CH carry no content the C code reads yet. */
  function DecodeEventContent(st: Stream, h: Handler, e: EventType, vt: ValueType, nonTermOut: nat, i: nat)
    : (r: Result<Step>)
    requires Valid(st) && i < |Top(st).rules|
    ensures r.Ok? ==> Valid(r.value.st) && Extends(st.tables, r.value.st.tables) && r.value.event == Some(e)
  {
    match e
    case SEAll => DecodeStartElementAll(st, h, nonTermOut, i)
    case ATAll => DecodeAttributeAll(st, h, vt, nonTermOut, i)
    case SEQName => DecodeStartElementQName(st, h, nonTermOut)
    case ATQName => DecodeAttributeQName(st, h, vt, nonTermOut)
    case CH =>
      var st1 :- DecodeValue(st, h, vt);
      Ok(Step(Some(CH), nonTermOut, st1))
    case _ =>
      ExtendsRefl(st.tables);
      Ok(Step(Some(e), nonTermOut, st))
  }

  // ------------------------------------------------ processNextProduction

  /** Whether the top grammar is the document grammar; its rules are not
      empty when a rule of it has been found, so the check cannot fail. */
  predicate TopIsDocument(st: Stream)
    requires Valid(st)
  {
    |Top(st).rules| > 0 && IsDocumentGrammar(Top(st)) == Ok(true)
  }

  /** What processNextProduction does once production `j` of rule `i` is
      selected, at part `b` of its code: callbacks for SD, ED, EE and SC;
      content for the other events, after the current QName is taken from
      the production (except for CH). A production selected by reading its
      last part (`matched`) at a part after the first teaches an element
      grammar EE or CH with a one-part code. A production picked through a
      zero-width part learns nothing. */
  function Dispatch(st: Stream, h: Handler, i: nat, j: nat, b: nat, matched: bool): (r: Result<Step>)
    requires Valid(st) && i < |Top(st).rules| && j < |Top(st).rules[i].prods|
    ensures r.Ok? ==> Valid(r.value.st) && Extends(st.tables, r.value.st.tables)
    ensures r.Ok? ==> r.value.event == Some(Top(st).rules[i].prods[j].event)
  {
    var p := Top(st).rules[i].prods[j];
    match p.event
    case SD =>
      var s :- Invoke(st, h, StartDocument);
      ExtendsRefl(st.tables);
      Ok(Step(Some(SD), p.nonTermID, s))
    case ED =>
      var s :- Invoke(st, h, EndDocument);
      ExtendsRefl(st.tables);
      Ok(Step(Some(ED), p.nonTermID, s))
    case SC =>
      var s :- Invoke(st, h, SelfContained);
      ExtendsRefl(st.tables);
      Ok(Step(Some(SC), p.nonTermID, s))
    case EE =>
      var s :- Invoke(st, h, EndElement);
      ExtendsRefl(st.tables);
      if matched && b > 0 && !TopIsDocument(s) then
        var s1 := s.(ctx := QNameRef(p.uriRowID, p.lnRowID));
        Ok(Step(Some(EE), p.nonTermID, Learn(s1, i, EE, GrVoidNonTerminal)))
      else
        Ok(Step(Some(EE), p.nonTermID, s))
    case CH =>
      var s1 := if matched && b > 0 && !TopIsDocument(st) then Learn(st, i, CH, p.nonTermID) else st;
      DecodeEventContent(s1, h, CH, p.valueType, p.nonTermID, i)
    case _ =>
      DecodeEventContent(st.(ctx := QNameRef(p.uriRowID, p.lnRowID)), h, p.event, p.valueType, p.nonTermID, i)
  }

  /** Grammar learning on EE and CH (comments #1# and #2#): rule `i` of the
      top grammar gains exactly one production, with the one-part code 0,
      exactly when the code was matched by reading its last part, that part
      is not the first, and the top grammar is an element grammar;
      otherwise the top grammar is unchanged. EE learns with the QName of
      the production, CH with the current QName. */
  lemma DispatchLearns(st: Stream, h: Handler, i: nat, j: nat, b: nat, matched: bool)
    requires Valid(st) && i < |Top(st).rules| && j < |Top(st).rules[i].prods|
    requires Top(st).rules[i].prods[j].event in {EE, CH}
    ensures var r := Dispatch(st, h, i, j, b, matched);
            var rule := Top(st).rules[i];
            var p := rule.prods[j];
            r.Ok? ==>
              && Valid(r.value.st) && r.value.st.stack == st.stack && |Top(r.value.st).rules| == |Top(st).rules|
              && (|Top(r.value.st).rules[i].prods| == |rule.prods| + 1 <==> matched && b > 0 && !TopIsDocument(st))
              && (matched && b > 0 && !TopIsDocument(st) && p.event == EE ==>
                    Top(r.value.st).rules[i] == InsertZeroProduction(rule, EE, GrVoidNonTerminal, p.lnRowID, p.uriRowID))
              && (matched && b > 0 && !TopIsDocument(st) && p.event == CH ==>
                    Top(r.value.st).rules[i] == InsertZeroProduction(rule, CH, p.nonTermID, st.ctx.lnID, st.ctx.uriID))
              && (!(matched && b > 0 && !TopIsDocument(st)) ==> Top(r.value.st) == Top(st))
  {
    if Top(st).rules[i].prods[j].event == EE {
      EndElementLearns(st, h, i, j, b, matched);
    } else {
      CharactersLearns(st, h, i, j, b, matched);
    }
  }

  lemma EndElementLearns(st: Stream, h: Handler, i: nat, j: nat, b: nat, matched: bool)
    requires Valid(st) && i < |Top(st).rules| && j < |Top(st).rules[i].prods|
    requires Top(st).rules[i].prods[j].event == EE
    ensures var r := Dispatch(st, h, i, j, b, matched);
            var rule := Top(st).rules[i];
            var p := rule.prods[j];
            r.Ok? ==>
              && Valid(r.value.st) && r.value.st.stack == st.stack
              && (matched && b > 0 && !TopIsDocument(st) ==>
                    Top(r.value.st) == LearnIn(Top(st), i, EE, GrVoidNonTerminal, p.lnRowID, p.uriRowID))
              && (!(matched && b > 0 && !TopIsDocument(st)) ==> Top(r.value.st) == Top(st))
  {
    var p := Top(st).rules[i].prods[j];
    var r := Dispatch(st, h, i, j, b, matched);
    if r.Ok? {
      var s := Invoke(st, h, EndElement).value;
      assert Valid(s) && Top(s) == Top(st) && s.stack == st.stack;
      if matched && b > 0 && !TopIsDocument(st) {
        var s1 := s.(ctx := QNameRef(p.uriRowID, p.lnRowID));
        assert r.value.st == Learn(s1, i, EE, GrVoidNonTerminal);
      } else {
        assert r.value.st == s;
      }
    }
  }

  lemma CharactersLearns(st: Stream, h: Handler, i: nat, j: nat, b: nat, matched: bool)
    requires Valid(st) && i < |Top(st).rules| && j < |Top(st).rules[i].prods|
    requires Top(st).rules[i].prods[j].event == CH
    ensures var r := Dispatch(st, h, i, j, b, matched);
            var p := Top(st).rules[i].prods[j];
            r.Ok? ==>
              && Valid(r.value.st) && r.value.st.stack == st.stack
              && (matched && b > 0 && !TopIsDocument(st) ==>
                    Top(r.value.st) == LearnIn(Top(st), i, CH, p.nonTermID, st.ctx.lnID, st.ctx.uriID))
              && (!(matched && b > 0 && !TopIsDocument(st)) ==> Top(r.value.st) == Top(st))
  {
    var p := Top(st).rules[i].prods[j];
    var r := Dispatch(st, h, i, j, b, matched);
    if r.Ok? {
      var s1 := if matched && b > 0 && !TopIsDocument(st) then Learn(st, i, CH, p.nonTermID) else st;
      assert r == DecodeEventContent(s1, h, CH, p.valueType, p.nonTermID, i);
      var t := DecodeValue(s1, h, p.valueType).value;
      assert r.value.st == t;
      assert t.doc == s1.doc && t.pool == s1.pool && t.stack == s1.stack;
    }
  }

  /** processNextProduction: finds the rule of the current non-terminal in
      the top grammar, matches an event code in it and dispatches the
      selected production. A code that matches nothing after a part was
      read is invalid input. */
  function ProcessNextProduction(st: Stream, h: Handler): (r: Result<Step>)
    requires Valid(st)
    ensures r.Ok? ==> Valid(r.value.st) && Extends(st.tables, r.value.st.tables) && r.value.event.Some?
    ensures FindRule(Top(st).rules, st.nonTermID).None? ==> r == Err(UnexpectedError)
    ensures r.Ok? ==> FindRule(Top(st).rules, st.nonTermID).Some?
    ensures r.Ok? ==> var rule := Top(st).rules[FindRule(Top(st).rules, st.nonTermID).value];
              exists j :: 0 <= j < |rule.prods| && r.value.event == Some(rule.prods[j].event)
    ensures FindRule(Top(st).rules, st.nonTermID).Some? ==>
              var m := Match(st.opts, Top(st).rules[FindRule(Top(st).rules, st.nonTermID).value], st.bits);
              m.FellThrough? && m.read ==> r == Err(InvalidExiInput)
  {
    match FindRule(Top(st).rules, st.nonTermID)
    case None => Err(UnexpectedError)
    case Some(i) =>
      match Match(st.opts, Top(st).rules[i], st.bits)
      case Failed(e) => Err(e)
      case FellThrough(read, _) => if read then Err(InvalidExiInput) else Err(UnexpectedError)
      case Picked(j, b, rest) => Dispatch(st.(bits := rest), h, i, j, b, false)
      case Matched(j, b, rest) => Dispatch(st.(bits := rest), h, i, j, b, true)
  }

  /** processNextProduction as written: when a part was read but no
      production matched it, the loop ends with the status of that read,
      ERR_OK, and no event is reported. */
  function ProcessNextProductionAsWritten(st: Stream, h: Handler): (r: Result<Step>)
    requires Valid(st)
    ensures r.Ok? && r.value.event.None? ==> r.value.st.stack == st.stack && |r.value.st.bits| < |st.bits|
  {
    match FindRule(Top(st).rules, st.nonTermID)
    case None => Err(UnexpectedError)
    case Some(i) =>
      match Match(st.opts, Top(st).rules[i], st.bits)
      case Failed(e) => Err(e)
      case FellThrough(read, rest) =>
        if read then
          MatchConsumes(st.opts, Top(st).rules[i], st.bits);
          Ok(Step(None, st.nonTermID, st.(bits := rest)))
        else Err(UnexpectedError)
      case Picked(j, b, rest) => Dispatch(st.(bits := rest), h, i, j, b, false)
      case Matched(j, b, rest) => Dispatch(st.(bits := rest), h, i, j, b, true)
  }
}
