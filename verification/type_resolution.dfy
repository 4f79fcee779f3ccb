/** The forward-reference resolution of the schema grammar builder
    (grammarGenerator.c, resolveDerivedTypes and resolveElementTypes).

    A complex type derived from a base that is not built yet waits in a
    list; passes over the list resolve every entry whose base is built,
    until the list is empty or a pass resolves nothing. Elements whose type
    was not built when they were read then take the type's grammars. */
module TypeResolution {
  import opened ErrorHandle
  import opened STables

  // ------------------------------------------------------ derived types

  /** An entry of baseTypeNotResolvedArray: the derived type, its base and
      its own attribute uses. */
  datatype Derivation = Derivation(typeName: QNameRef, base: QNameRef, attrUses: seq<QNameRef>)

  /** The built types of the meta string table (typeGrammar != NULL), each
      with its attribute uses (typeEmptyGrammar). */
  type Built = map<QNameRef, seq<QNameRef>>

  predicate AllBelow(xs: seq<nat>, n: nat) {
    forall k :: 0 <= k < |xs| ==> xs[k] < n
  }

  predicate NoDup(xs: seq<nat>) {
    forall i, j :: 0 <= i < j < |xs| ==> xs[i] != xs[j]
  }

  /** `t` is a type given from the start or one resolved at an earlier step. */
  predicate Available(ds: seq<Derivation>, given: set<QNameRef>, earlier: seq<nat>, t: QNameRef)
    requires AllBelow(earlier, |ds|)
  {
    t in given || exists m :: 0 <= m < |earlier| && ds[earlier[m]].typeName == t
  }

  /** `order` resolves derivations one at a time, each after its base. */
  predicate ValidOrder(ds: seq<Derivation>, given: set<QNameRef>, order: seq<nat>) {
    AllBelow(order, |ds|)
    && forall k :: 0 <= k < |order| ==> Available(ds, given, order[..k], ds[order[k]].base)
  }

  /** Every derivation is resolved by `order`. */
  predicate Covers(order: seq<nat>, n: nat) {
    forall x :: 0 <= x < n ==> x in order
  }

  /** A non-empty set of derivations none of which can ever be resolved:
      each base is neither given nor the type of a derivation outside the
      set (a missing base or a cycle of derivations). */
  predicate Blocked(ds: seq<Derivation>, given: set<QNameRef>, s: set<nat>) {
    s != {}
    && forall x :: x in s ==>
         x < |ds| && ds[x].base !in given
         && forall y :: 0 <= y < |ds| && y !in s ==> ds[y].typeName != ds[x].base
  }

  /** The pass state: the remaining list (as indices into the original
      one), the built types, the resolution order so far, and smthResolved. */
  datatype PassState = PassState(pending: seq<nat>, built: Built, order: seq<nat>, progress: bool)

  /** Resolving one derivation: its type is built with its own attribute
      uses followed by the base's. */
  function ResolveOne(built: Built, d: Derivation): (r: Built)
    requires d.base in built
    ensures r.Keys == built.Keys + {d.typeName}
    ensures multiset(r[d.typeName]) == multiset(d.attrUses) + multiset(built[d.base])
    ensures forall t :: t in built && t != d.typeName ==> r[t] == built[t]
  {
    built[d.typeName := d.attrUses + built[d.base]]
  }

  /** Resolving the entry at `i`: it leaves the list and joins the order. */
  function Step(ds: seq<Derivation>, st: PassState, i: nat): (r: PassState)
    requires AllBelow(st.pending, |ds|) && i < |st.pending| && ds[st.pending[i]].base in st.built
    ensures r.progress && |r.pending| == |st.pending| - 1 && r.order == st.order + [st.pending[i]]
    ensures r.built.Keys == st.built.Keys + {ds[st.pending[i]].typeName}
  {
    PassState(st.pending[..i] + st.pending[i + 1..], ResolveOne(st.built, ds[st.pending[i]]), st.order + [st.pending[i]], true)
  }

  /** One pass of the for loop from position `i`. A resolved entry is
      deleted at `i` and `i` still advances, so the entry that moved into
      position `i` waits for the next pass. */
  function Pass(ds: seq<Derivation>, st: PassState, i: nat): (r: PassState)
    requires AllBelow(st.pending, |ds|)
    ensures AllBelow(r.pending, |ds|) && |r.pending| <= |st.pending|
    ensures r.progress <==> st.progress || |r.pending| < |st.pending|
    ensures !r.progress ==> r == st && forall k :: i <= k < |st.pending| ==> ds[st.pending[k]].base !in st.built
    decreases |st.pending| + 1 - i
  {
    if i >= |st.pending| then st
    else
      var x := st.pending[i];
      if ds[x].base in st.built then
        Pass(ds, Step(ds, st, i), i + 1)
      else Pass(ds, st, i + 1)
  }

  /** What the passes keep true: the remaining and resolved entries split
      the list, every resolved type is built, and the order so far is valid
      with every built type explained by it. */
  predicate Inv(ds: seq<Derivation>, given: Built, st: PassState) {
    AllBelow(st.pending, |ds|) && NoDup(st.pending) && ValidOrder(ds, given.Keys, st.order)
    && Split(ds, st) && given.Keys <= st.built.Keys && Explained(ds, given, st)
  }

  /** Every entry is either still in the list or already resolved. */
  predicate Split(ds: seq<Derivation>, st: PassState) {
    forall x :: 0 <= x < |ds| ==> (x in st.pending <==> x !in st.order)
  }

  /** Resolved types are built, and built types are given or resolved. */
  predicate Explained(ds: seq<Derivation>, given: Built, st: PassState)
    requires AllBelow(st.order, |ds|)
  {
    (forall m :: 0 <= m < |st.order| ==> ds[st.order[m]].typeName in st.built)
    && (forall t :: t in st.built ==> Available(ds, given.Keys, st.order, t))
  }

  lemma RemoveAt(xs: seq<nat>, i: nat)
    requires NoDup(xs) && i < |xs|
    ensures var ys := xs[..i] + xs[i + 1..];
            NoDup(ys) && |ys| == |xs| - 1 && forall y :: y in ys <==> y in xs && y != xs[i]
  {
    var ys := xs[..i] + xs[i + 1..];
    assert forall k :: 0 <= k < |ys| ==> ys[k] == (if k < i then xs[k] else xs[k + 1]);
    forall y | y in xs && y != xs[i]
      ensures y in ys
    {
      var k :| 0 <= k < |xs| && xs[k] == y;
      assert k != i;
      if k < i {
        assert ys[k] == y;
      } else {
        assert ys[k - 1] == y;
      }
    }
  }

  lemma ValidOrderExtends(ds: seq<Derivation>, given: set<QNameRef>, order: seq<nat>, x: nat)
    requires ValidOrder(ds, given, order) && x < |ds|
    requires Available(ds, given, order, ds[x].base)
    ensures ValidOrder(ds, given, order + [x])
  {
    var o := order + [x];
    assert o[..|order|] == order;
    forall k | 0 <= k < |order|
      ensures Available(ds, given, o[..k], ds[o[k]].base)
    {
      assert o[..k] == order[..k];
    }
  }

  lemma AvailableGrows(ds: seq<Derivation>, given: set<QNameRef>, order: seq<nat>, x: nat, t: QNameRef)
    requires AllBelow(order, |ds|) && x < |ds|
    requires Available(ds, given, order, t) || t == ds[x].typeName
    ensures Available(ds, given, order + [x], t)
  {
    var o := order + [x];
    if t !in given {
      if t == ds[x].typeName {
        assert ds[o[|order|]].typeName == t;
      } else {
        var m :| 0 <= m < |order| && ds[order[m]].typeName == t;
        assert ds[o[m]].typeName == t;
      }
    }
  }

  /** The split of the list survives moving entry `i` to the order. */
  lemma MoveKeepsSplit(ds: seq<Derivation>, st: PassState, i: nat)
    requires AllBelow(st.pending, |ds|) && NoDup(st.pending) && i < |st.pending|
    requires ds[st.pending[i]].base in st.built && Split(ds, st)
    ensures var r := Step(ds, st, i); AllBelow(r.pending, |ds|) && NoDup(r.pending) && Split(ds, r)
  {
    RemoveAt(st.pending, i);
    var r := Step(ds, st, i);
    assert forall k :: 0 <= k < |r.pending| ==> r.pending[k] in st.pending;
  }

  /** The built types stay explained by the order after one resolution. */
  lemma ResolveKeepsBuilt(ds: seq<Derivation>, given: Built, st: PassState, i: nat)
    requires AllBelow(st.pending, |ds|) && AllBelow(st.order, |ds|) && i < |st.pending|
    requires ds[st.pending[i]].base in st.built
    requires given.Keys <= st.built.Keys && Explained(ds, given, st)
    ensures var r := Step(ds, st, i); given.Keys <= r.built.Keys && AllBelow(r.order, |ds|) && Explained(ds, given, r)
  {
    var r, x := Step(ds, st, i), st.pending[i];
    forall t | t in r.built
      ensures Available(ds, given.Keys, r.order, t)
    {
      AvailableGrows(ds, given.Keys, st.order, x, t);
    }
    forall m | 0 <= m < |r.order|
      ensures ds[r.order[m]].typeName in r.built
    {
      if m < |st.order| {
        assert r.order[m] == st.order[m];
      }
    }
  }

  /** Resolving the entry at `i` keeps the invariant. */
  lemma ResolveKeepsInv(ds: seq<Derivation>, given: Built, st: PassState, i: nat)
    requires Inv(ds, given, st) && i < |st.pending| && ds[st.pending[i]].base in st.built
    ensures Inv(ds, given, Step(ds, st, i))
  {
    MoveKeepsSplit(ds, st, i);
    ValidOrderExtends(ds, given.Keys, st.order, st.pending[i]);
    ResolveKeepsBuilt(ds, given, st, i);
  }

  /** A pass keeps the invariant. */
  lemma {:induction false} PassKeepsInv(ds: seq<Derivation>, given: Built, st: PassState, i: nat)
    requires Inv(ds, given, st)
    ensures Inv(ds, given, Pass(ds, st, i))
    decreases |st.pending| + 1 - i
  {
    if i < |st.pending| {
      var x := st.pending[i];
      if ds[x].base in st.built {
        ResolveKeepsInv(ds, given, st, i);
        PassKeepsInv(ds, given, Step(ds, st, i), i + 1);
      } else {
        PassKeepsInv(ds, given, st, i + 1);
      }
    }
  }

  /** The entries still in the list. */
  function Waiting(st: PassState): (s: set<nat>)
    ensures forall x :: x in s <==> x in st.pending
  {
    set x | x in st.pending
  }

  /** An entry that left the list has its type built. */
  lemma ResolvedIsBuilt(ds: seq<Derivation>, given: Built, st: PassState, y: nat)
    requires Inv(ds, given, st) && y < |ds| && y !in st.pending
    ensures ds[y].typeName in st.built
  {
    var m :| 0 <= m < |st.order| && st.order[m] == y;
  }

  /** Once the list is empty every entry is resolved and built. */
  lemma EmptyListResolved(ds: seq<Derivation>, given: Built, st: PassState)
    requires Inv(ds, given, st) && |st.pending| == 0
    ensures Covers(st.order, |ds|) && forall x :: 0 <= x < |ds| ==> ds[x].typeName in st.built
  {
    forall x | 0 <= x < |ds|
      ensures x in st.order && ds[x].typeName in st.built
    {
      ResolvedIsBuilt(ds, given, st, x);
    }
  }

  /** A pass that resolves nothing leaves a blocked remainder. */
  lemma StuckIsBlocked(ds: seq<Derivation>, given: Built, st: PassState)
    requires Inv(ds, given, st) && |st.pending| > 0
    requires forall k :: 0 <= k < |st.pending| ==> ds[st.pending[k]].base !in st.built
    ensures Blocked(ds, given.Keys, Waiting(st))
  {
    var s := Waiting(st);
    assert st.pending[0] in s;
    forall y | 0 <= y < |ds| && y !in s
      ensures ds[y].typeName in st.built
    {
      ResolvedIsBuilt(ds, given, st, y);
    }
    forall x | x in s
      ensures x < |ds| && ds[x].base !in given.Keys
      ensures forall y :: 0 <= y < |ds| && y !in s ==> ds[y].typeName != ds[x].base
    {
      var k :| 0 <= k < |st.pending| && st.pending[k] == x;
      assert ds[x].base !in st.built;
    }
  }

  /** The outcome of resolveDerivedTypes: the built types and the order the
      derivations were resolved in. */
  datatype Resolution = Resolution(built: Built, order: seq<nat>)

  /** The while loop: passes until the list is empty; a pass that resolves
      nothing is UNEXPECTED_ERROR. */
  function ResolveFrom(ds: seq<Derivation>, given: Built, st: PassState): (r: Result<Resolution>)
    requires Inv(ds, given, st)
    ensures r.Ok? ==> ValidOrder(ds, given.Keys, r.value.order) && Covers(r.value.order, |ds|)
                      && given.Keys <= r.value.built.Keys
                      && forall x :: 0 <= x < |ds| ==> ds[x].typeName in r.value.built
    ensures r.Err? ==> r.code == UnexpectedError && exists s :: Blocked(ds, given.Keys, s)
    decreases |st.pending|
  {
    if |st.pending| == 0 then
      EmptyListResolved(ds, given, st);
      Ok(Resolution(st.built, st.order))
    else
      var st0 := st.(progress := false);
      var next := Pass(ds, st0, 0);
      PassKeepsInv(ds, given, st0, 0);
      if !next.progress then
        StuckIsBlocked(ds, given, st0);
        Err(UnexpectedError)
      else ResolveFrom(ds, given, next)
  }

  /** The indices of the whole list. */
  function Indices(n: nat): (r: seq<nat>)
    ensures |r| == n && forall k :: 0 <= k < n ==> r[k] == k
  {
    seq(n, k requires 0 <= k < n => k)
  }

  /** Before the first pass: the whole list waits and nothing is resolved. */
  function Initial(ds: seq<Derivation>, given: Built): PassState {
    PassState(Indices(|ds|), given, [], false)
  }

  lemma InitialInv(ds: seq<Derivation>, given: Built)
    ensures Inv(ds, given, Initial(ds, given))
  {
    var st := Initial(ds, given);
    forall x | 0 <= x < |ds|
      ensures x in st.pending
    {
      assert st.pending[x] == x;
    }
    assert forall t :: t in given ==> Available(ds, given.Keys, [], t);
  }

  /** resolveDerivedTypes over the derivations `ds`, starting from the types
      built before it runs. */
  function ResolveDerivedTypes(ds: seq<Derivation>, given: Built): (r: Result<Resolution>)
    ensures r.Ok? ==> ValidOrder(ds, given.Keys, r.value.order) && Covers(r.value.order, |ds|)
                      && given.Keys <= r.value.built.Keys
                      && forall x :: 0 <= x < |ds| ==> ds[x].typeName in r.value.built
    ensures r.Err? ==> r.code == UnexpectedError && exists s :: Blocked(ds, given.Keys, s)
  {
    InitialInv(ds, given);
    ResolveFrom(ds, given, Initial(ds, given))
  }

  /** No valid order reaches a blocked derivation. */
  lemma {:induction false} BlockedNeverResolved(ds: seq<Derivation>, given: set<QNameRef>, s: set<nat>, order: seq<nat>)
    requires Blocked(ds, given, s) && ValidOrder(ds, given, order)
    ensures forall k :: 0 <= k < |order| ==> order[k] !in s
    decreases |order|
  {
    if |order| > 0 {
      var init := order[..|order| - 1];
      assert ValidOrder(ds, given, init) by {
        forall k | 0 <= k < |init|
          ensures Available(ds, given, init[..k], ds[init[k]].base)
        {
          assert init[..k] == order[..k];
        }
      }
      BlockedNeverResolved(ds, given, s, init);
      var x := order[|order| - 1];
      assert order[..|order| - 1] == init;
      assert Available(ds, given, init, ds[x].base);
      assert x !in s;
      assert forall k :: 0 <= k < |init| ==> order[k] == init[k];
    }
  }

  /** A valid order leaves out some derivation of a blocked set. */
  lemma BlockedNotCovered(ds: seq<Derivation>, given: set<QNameRef>, s: set<nat>, order: seq<nat>)
    requires Blocked(ds, given, s) && ValidOrder(ds, given, order)
    ensures !Covers(order, |ds|)
  {
    BlockedNeverResolved(ds, given, s, order);
    var x :| x in s;
    assert x < |ds| && x !in order;
  }

  /** resolveDerivedTypes succeeds exactly when the derivations can be
      resolved one at a time, each after its base. */
  lemma ResolveDerivedTypesComplete(ds: seq<Derivation>, given: Built)
    ensures ResolveDerivedTypes(ds, given).Ok? <==>
              exists order :: ValidOrder(ds, given.Keys, order) && Covers(order, |ds|)
  {
    var r := ResolveDerivedTypes(ds, given);
    if r.Ok? {
      assert ValidOrder(ds, given.Keys, r.value.order) && Covers(r.value.order, |ds|);
    } else {
      var s :| Blocked(ds, given.Keys, s);
      forall order | ValidOrder(ds, given.Keys, order)
        ensures !Covers(order, |ds|)
      {
        BlockedNotCovered(ds, given.Keys, s, order);
      }
    }
  }

  /** The first pass over a chain listed base-last: it resolves `B` (base
      `A`) and skips `C` (base `B`), which moved into the deleted slot. */
  lemma ChainFirstPass(a: QNameRef, b: QNameRef, c: QNameRef)
    requires a != b && b != c && a != c
    ensures var ds := [Derivation(b, a, []), Derivation(c, b, [])];
            Pass(ds, Initial(ds, map[a := []]), 0) == PassState([1], map[a := [], b := []], [0], true)
  {
    var ds := [Derivation(b, a, []), Derivation(c, b, [])];
    var given: Built := map[a := []];
    var first := PassState([1], map[a := [], b := []], [0], true);
    assert Indices(2) == [0, 1];
    assert ResolveOne(given, ds[0]) == first.built;
    assert [0, 1][..0] + [0, 1][1..] == [1];
    assert Pass(ds, first, 1) == first;
  }

  /** The second pass over the same chain resolves `C`. */
  lemma ChainSecondPass(a: QNameRef, b: QNameRef, c: QNameRef)
    requires a != b && b != c && a != c
    ensures var ds := [Derivation(b, a, []), Derivation(c, b, [])];
            Pass(ds, PassState([1], map[a := [], b := []], [0], false), 0)
              == PassState([], map[a := [], b := [], c := []], [0, 1], true)
  {
    var ds := [Derivation(b, a, []), Derivation(c, b, [])];
    var b1: Built := map[a := [], b := []];
    var second := PassState([], map[a := [], b := [], c := []], [0, 1], true);
    assert ResolveOne(b1, ds[1]) == second.built;
    assert [1][..0] + [1][1..] == [];
    assert Pass(ds, second, 1) == second;
  }

  /** A chain listed base-last needs two passes and resolves in list order. */
  lemma ChainResolves(a: QNameRef, b: QNameRef, c: QNameRef)
    requires a != b && b != c && a != c
    ensures var ds := [Derivation(b, a, []), Derivation(c, b, [])];
            var r := ResolveDerivedTypes(ds, map[a := []]);
            r.Ok? && r.value.order == [0, 1] && r.value.built.Keys == {a, b, c}
  {
    var ds := [Derivation(b, a, []), Derivation(c, b, [])];
    var given: Built := map[a := []];
    var st := Initial(ds, given);
    var first := PassState([1], map[a := [], b := []], [0], true);
    var second := PassState([], map[a := [], b := [], c := []], [0, 1], true);
    InitialInv(ds, given);
    ChainFirstPass(a, b, c);
    ChainSecondPass(a, b, c);
    assert st.(progress := false) == st;
    PassKeepsInv(ds, given, st, 0);
    assert ResolveFrom(ds, given, st) == ResolveFrom(ds, given, first);
    PassKeepsInv(ds, given, first.(progress := false), 0);
    assert ResolveFrom(ds, given, first) == ResolveFrom(ds, given, second);
  }

  // ------------------------------------------------------- element types

  /** The grammars a string-table row holds (typeGrammar,
      typeEmptyGrammar), as opaque grammar handles; NULL is `None`. */
  datatype RowGrammars = RowGrammars(content: Option<nat>, empty: Option<nat>)

  /** An entry of elNotResolvedArray: an element and the type it names. */
  datatype ElementRef = ElementRef(element: QNameRef, typeName: QNameRef)

  predicate HasGrammars(g: map<QNameRef, RowGrammars>, t: QNameRef) {
    t in g && g[t].content.Some? && g[t].empty.Some?
  }

  /** Giving `e` the grammars of `t` adds `e` and keeps every other row. */
  lemma TakeGrammars(g: map<QNameRef, RowGrammars>, e: QNameRef, t: QNameRef)
    requires HasGrammars(g, t)
    ensures g.Keys <= g[e := g[t]].Keys
    ensures forall u :: HasGrammars(g[e := g[t]], u) <==> u == e || HasGrammars(g, u)
  {
    var g1 := g[e := g[t]];
    forall u
      ensures HasGrammars(g1, u) <==> u == e || HasGrammars(g, u)
    {
      assert u in g1 && (u == e || u in g) ==> g1[u] == if u == e then g[t] else g[u];
    }
  }

  /** resolveElementTypes: in list order, each element takes both grammars
      of its type; a type lacking either grammar is UNEXPECTED_ERROR. */
  function ResolveElementTypes(els: seq<ElementRef>, g: map<QNameRef, RowGrammars>): (r: Result<map<QNameRef, RowGrammars>>)
    ensures r.Err? ==> r.code == UnexpectedError && exists i :: 0 <= i < |els| && !HasGrammars(g, els[i].typeName)
    ensures r.Ok? ==> (forall i :: 0 <= i < |els| ==> HasGrammars(r.value, els[i].element))
                      && (forall t :: HasGrammars(g, t) ==> HasGrammars(r.value, t))
                      && g.Keys <= r.value.Keys
    ensures (forall i, j :: 0 <= i < |els| && 0 <= j < |els| ==> els[i].element != els[j].typeName) ==>
              (r.Ok? <==> forall i :: 0 <= i < |els| ==> HasGrammars(g, els[i].typeName))
    decreases |els|
  {
    if |els| == 0 then Ok(g)
    else if HasGrammars(g, els[0].typeName) then
      var g1 := g[els[0].element := g[els[0].typeName]];
      var r := ResolveElementTypes(els[1..], g1);
      assert forall i :: 1 <= i < |els| ==> els[i] == els[1..][i - 1];
      TakeGrammars(g, els[0].element, els[0].typeName);
      r
    else Err(UnexpectedError)
  }

  /** An element may name another element's type row: the row it takes
      grammars from is read after earlier elements were written. */
  lemma ElementTypesInListOrder(e: QNameRef, t: QNameRef, f: QNameRef)
    requires e != t && f != e && f != t
    ensures var g := map[t := RowGrammars(Some(1), Some(2))];
            var els := [ElementRef(e, t), ElementRef(f, e)];
            ResolveElementTypes(els, g) == Ok(g[e := g[t]][f := g[t]])
            && ResolveElementTypes([els[1], els[0]], g).Err?
  {
    var g := map[t := RowGrammars(Some(1), Some(2))];
    var els := [ElementRef(e, t), ElementRef(f, e)];
    var g1 := g[e := g[t]];
    assert els[1..] == [ElementRef(f, e)];
    assert [ElementRef(f, e)][1..] == [];
    assert ResolveElementTypes([], g1[f := g1[e]]) == Ok(g1[f := g1[e]]);
    assert ResolveElementTypes([ElementRef(f, e)], g1) == Ok(g1[f := g1[e]]);
    assert [els[1], els[0]][0].typeName == e;
  }
}
