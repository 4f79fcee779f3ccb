/** The grammar stack. grammars.c links grammars through their own
    `nextInStack` field (pushGrammar, popGrammar) and copyGrammar refuses a
    grammar that is linked into a stack. The linked form is modelled as
    written, over a heap of grammar nodes, next to the sequence stack that
    it is meant to implement; the two agree as long as no grammar is pushed
    while it is already on the stack. */
module GrammarStack {
  import opened ErrorHandle
  import opened ProcTypes

  // ------------------------------------------------------ the linked form

  /** A grammar object: its rules and the `nextInStack` link. */
  datatype Node = Node(grammar: Grammar, next: Option<nat>)

  /** Grammar objects by address. */
  type Heap = map<nat, Node>

  /** pushGrammar: the pushed grammar's link points at the old top and the
      grammar becomes the top. */
  function PushLinked(h: Heap, top: Option<nat>, g: nat): (r: (Heap, Option<nat>))
    requires g in h
    ensures r.1 == Some(g) && r.0.Keys == h.Keys
    ensures r.0[g] == h[g].(next := top)
    ensures forall a :: a in h && a != g ==> r.0[a] == h[a]
  {
    (h[g := h[g].(next := top)], Some(g))
  }

  /** popGrammar: returns the top grammar, makes its link the new top and
      clears the link. The C code dereferences the top without a check, so
      the stack must not be empty. */
  function PopLinked(h: Heap, top: Option<nat>): (r: (nat, Heap, Option<nat>))
    requires top.Some? && top.value in h
    ensures r.0 == top.value && r.2 == h[top.value].next && r.1.Keys == h.Keys
    ensures r.1[r.0] == h[r.0].(next := None)
    ensures forall a :: a in h && a != r.0 ==> r.1[a] == h[a]
  {
    var g := top.value;
    (g, h[g := h[g].(next := None)], h[g].next)
  }

  /** copyGrammar: only a grammar that is not linked into a stack can be
      copied; the copy has the same rules and no link. */
  function CopyGrammar(h: Heap, src: nat): (r: Result<Node>)
    requires src in h
    ensures r.Err? <==> h[src].next.Some?
    ensures r.Err? ==> r.code == InvalidOperation
    ensures r.Ok? ==> r.value.grammar == h[src].grammar && r.value.next.None?
  {
    if h[src].next.Some? then Err(InvalidOperation) else Ok(Node(h[src].grammar, None))
  }

  /** `st` lists the grammars reachable from `top`, topmost first, each
      linked to the next and the last one to nothing. */
  predicate Links(h: Heap, top: Option<nat>, st: seq<nat>)
    decreases |st|
  {
    if |st| == 0 then top.None?
    else top == Some(st[0]) && st[0] in h && Links(h, h[st[0]].next, st[1..])
  }

  predicate NoDup(st: seq<nat>) {
    forall i, j :: 0 <= i < j < |st| ==> st[i] != st[j]
  }

  /** Links through grammars other than `g` do not depend on `g`'s node. */
  lemma {:induction false} LinksFrame(h: Heap, h': Heap, top: Option<nat>, st: seq<nat>, g: nat)
    requires Links(h, top, st) && g !in st
    requires forall a :: a in h && a != g ==> a in h' && h'[a] == h[a]
    ensures Links(h', top, st)
    decreases |st|
  {
    if |st| > 0 {
      LinksFrame(h, h', h[st[0]].next, st[1..], g);
    }
  }

  /** Pushing a grammar that is not on the stack pushes it on the stack the
      links describe. */
  lemma PushRefines(h: Heap, top: Option<nat>, st: seq<nat>, g: nat)
    requires Links(h, top, st) && NoDup(st) && g in h && g !in st
    ensures var r := PushLinked(h, top, g);
            Links(r.0, r.1, [g] + st) && NoDup([g] + st)
  {
    var r := PushLinked(h, top, g);
    LinksFrame(h, r.0, top, st, g);
    assert ([g] + st)[1..] == st;
  }

  /** Popping a non-empty stack without repeats returns its top and leaves
      the rest, and the popped grammar can be copied again. */
  lemma PopRefines(h: Heap, top: Option<nat>, st: seq<nat>)
    requires Links(h, top, st) && NoDup(st) && |st| > 0
    ensures top.Some? && top.value in h
    ensures var r := PopLinked(h, top);
            r.0 == st[0] && Links(r.1, r.2, st[1..]) && NoDup(st[1..]) && CopyGrammar(r.1, r.0).Ok?
  {
    var r := PopLinked(h, top);
    assert forall k :: 0 <= k < |st[1..]| ==> st[1..][k] == st[k + 1];
    assert st[0] !in st[1..];
    LinksFrame(h, r.1, r.2, st[1..], st[0]);
  }

  /** A grammar with another grammar under it cannot be copied. */
  lemma LinkedGrammarNotCopied(h: Heap, top: Option<nat>, st: seq<nat>)
    requires Links(h, top, st) && |st| > 1
    ensures CopyGrammar(h, st[0]).Err?
  {
    assert h[st[0]].next == Some(st[1]);
  }

  // ------------------------------------------------------ nested elements

  /** An element nested in an element of the same name: the pool hands out
      the grammar already on top (address 1, over the document grammar at
      address 0) and pushGrammar links it to itself. The two pops of the two
      end tags then leave an empty stack; the document grammar is lost,
      where the sequence stack still holds it. */
  lemma NestedSameElementLosesDocument(d: Grammar, e: Grammar)
    ensures var h := map[0 := Node(d, None), 1 := Node(e, Some(0))];
            var pushed := PushLinked(h, Some(1), 1);
            var inner := PopLinked(pushed.0, pushed.1);
            && Links(h, Some(1), [1, 0])
            && inner.2 == Some(1)
            && PopLinked(inner.1, inner.2).2 == None
            && Pop(Pop(Push([1, 0], 1)).1).1 == [0]
  {
    var h := map[0 := Node(d, None), 1 := Node(e, Some(0))];
    assert Links(h, Some(1), [1, 0]) by {
      assert [1, 0][1..] == [0];
      assert [0][1..] == [];
    }
  }

  // ------------------------------------------------------- sequence stack

  /** The stack as a sequence, topmost first. */
  function Push<T>(st: seq<T>, x: T): (r: seq<T>)
    ensures |r| == |st| + 1 && r[0] == x && r[1..] == st
  {
    [x] + st
  }

  function Pop<T>(st: seq<T>): (r: (T, seq<T>))
    requires |st| > 0
    ensures [r.0] + r.1 == st
  {
    (st[0], st[1..])
  }

  /** Popping what was pushed gives it back and restores the stack. */
  lemma PushPop<T>(st: seq<T>, x: T)
    ensures Pop(Push(st, x)) == (x, st)
  {
    var r := Pop(Push(st, x));
    assert [r.0] + r.1 == [x] + st;
    assert r.0 == ([r.0] + r.1)[0];
    assert r.1 == ([r.0] + r.1)[1..];
  }
}
