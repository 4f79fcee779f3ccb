/** Grammar rules as the processor uses them: the shape conditions an
    event-code assignment must meet, the grammar-learning insertion of a
    zero-code production, and production matching by event-code parts as
    processNextProduction (grammars.c) performs it. */
module GrammarRules {
  import opened ErrorHandle
  import opened ProcTypes
  import opened StreamIO
  import opened StreamDecode
  import opened StreamEncode

  /** A production with no value type and no QName reference, as
      addProduction creates it from getEventDefType. */
  function Prod(code: CodeParts, e: EventType, nt: nat): (p: Production)
    ensures p.code == code && p.event == e && p.nonTermID == nt
  {
    Production(code, e, NoValue, nt, 0, 0)
  }

  /** The rule for non-terminal `nt` (the first, as the C search finds it). */
  function FindRule(rules: seq<GrammarRule>, nt: nat): (r: Option<nat>)
    ensures r.Some? ==> r.value < |rules| && rules[r.value].nonTermID == nt
                        && forall k :: 0 <= k < r.value ==> rules[k].nonTermID != nt
    ensures r.None? ==> forall k :: 0 <= k < |rules| ==> rules[k].nonTermID != nt
    decreases |rules|
  {
    if |rules| == 0 then None
    else if rules[|rules| - 1].nonTermID == nt && FindRule(rules[..|rules| - 1], nt).None? then Some(|rules| - 1)
    else FindRule(rules[..|rules| - 1], nt)
  }

  // -------------------------------------------------------- code shapes

  /** Every part of every event code fits the rule's width for that part. */
  predicate CodesFit(r: GrammarRule) {
    forall i, b :: 0 <= i < |r.prods| && 0 <= b < |r.prods[i].code| ==> r.prods[i].code[b] < Pow2(r.bits[b])
  }

  /** No width is wider than needed: each non-zero width is reached by some
      code part. With `CodesFit`, `bits[b]` is getBitsNumber of the largest
      part-`b` value, the width of EXI 1.0 section 6.2. */
  predicate WidthsTight(r: GrammarRule) {
    forall b :: 0 <= b < 3 && r.bits[b] > 0 ==> PartReached(r, b)
  }

  /** Some code's part `b` reaches the upper half of width `bits[b]`. */
  predicate PartReached(r: GrammarRule, b: nat)
    requires b < 3 && r.bits[b] > 0
  {
    exists i :: 0 <= i < |r.prods| && b < |r.prods[i].code| && r.prods[i].code[b] >= Pow2(r.bits[b] - 1)
  }

  predicate IsPrefix(a: seq<nat>, b: seq<nat>) {
    |a| <= |b| && b[..|a|] == a
  }

  /** No event code is a prefix of another production's code, so a code
      names at most one production. */
  predicate PrefixFree(r: GrammarRule) {
    forall i, j :: 0 <= i < |r.prods| && 0 <= j < |r.prods| && i != j ==> !IsPrefix(r.prods[i].code, r.prods[j].code)
  }

  /** Two codes that agree on part `b` agree on every part before it. The
      matcher compares only the current part, so this is what keeps it from
      continuing into the wrong branch; the built-in grammars have it. */
  predicate PartsDetermine(r: GrammarRule) {
    forall i, j, b ::
      (0 <= i < |r.prods| && 0 <= j < |r.prods| && 0 <= b < |r.prods[i].code| && b < |r.prods[j].code|
       && r.prods[i].code[b] == r.prods[j].code[b]) ==> r.prods[i].code[..b] == r.prods[j].code[..b]
  }

  /** Each part of each code is either read (non-zero width) or passed over
      by the matcher's zero-width skip, which applies only while the rule has
      more than `b` productions and cannot end a code. */
  predicate PartsReadable(r: GrammarRule) {
    forall i, b :: 0 <= i < |r.prods| && 0 <= b < |r.prods[i].code| ==>
      r.bits[b] > 0 || (b + 1 < |r.prods[i].code| && |r.prods| > b)
  }

  /** The shape every rule of the model keeps: codes fit their widths,
      widths are tight, no code is a prefix of another and part values
      determine the parts before them. */
  predicate WellFormed(r: GrammarRule) {
    CodesFit(r) && WidthsTight(r) && PrefixFree(r) && PartsDetermine(r)
  }

  /** The largest first part among the productions (0 if there are none). */
  function MaxFirstPart(prods: seq<Production>): (m: nat)
    ensures forall i :: 0 <= i < |prods| ==> prods[i].code[0] <= m
    ensures |prods| > 0 ==> exists i :: 0 <= i < |prods| && prods[i].code[0] == m
    ensures |prods| == 0 ==> m == 0
    decreases |prods|
  {
    if |prods| == 0 then 0
    else
      var m := MaxFirstPart(prods[..|prods| - 1]);
      var last := prods[|prods| - 1].code[0];
      assert forall i :: 0 <= i < |prods| - 1 ==> prods[i] == prods[..|prods| - 1][i];
      if last > m then last else m
  }

  // ------------------------------------------------------ grammar learning

  /** The code with its first part incremented. */
  function Bump(p: Production): (q: Production)
    ensures |q.code| == |p.code| && q.code[0] == p.code[0] + 1
    ensures forall b :: 1 <= b < |p.code| ==> q.code[b] == p.code[b]
    ensures q.event == p.event && q.valueType == p.valueType && q.nonTermID == p.nonTermID
    ensures q.uriRowID == p.uriRowID && q.lnRowID == p.lnRowID
  {
    p.(code := [p.code[0] + 1] + p.code[1..])
  }

  function BumpAll(prods: seq<Production>): (q: seq<Production>)
    ensures |q| == |prods| && forall i :: 0 <= i < |prods| ==> q[i] == Bump(prods[i])
  {
    if |prods| == 0 then [] else [Bump(prods[0])] + BumpAll(prods[1..])
  }

  /** insertZeroProduction: a production for `e` with the one-part code 0 is
      added, every other production's first part moves up by one, and the
      first-part width becomes the width of the new largest first part.
      (EXI 1.0 section 8.4.3, rules #1# and #2#.) */
  function InsertZeroProduction(r: GrammarRule, e: EventType, nt: nat, lnRowID: nat, uriRowID: nat): (r': GrammarRule)
    ensures r'.nonTermID == r.nonTermID && |r'.prods| == |r.prods| + 1
    ensures r'.prods[|r.prods|] == Production([0], e, NoValue, nt, uriRowID, lnRowID)
    ensures forall i :: 0 <= i < |r.prods| ==> r'.prods[i] == Bump(r.prods[i])
    ensures r'.bits[0] == GetBitsNumber(MaxFirstPart(r'.prods))
    ensures r'.bits[1] == r.bits[1] && r'.bits[2] == r.bits[2]
  {
    var prods := BumpAll(r.prods) + [Production([0], e, NoValue, nt, uriRowID, lnRowID)];
    GrammarRule(r.nonTermID, prods, [GetBitsNumber(MaxFirstPart(prods)), r.bits[1], r.bits[2]])
  }

  /** Learning keeps the code assignment well formed: codes still fit, widths
      stay tight and no code becomes a prefix of another. */
  lemma InsertZeroKeepsShape(r: GrammarRule, e: EventType, nt: nat, ln: nat, uri: nat)
    requires CodesFit(r) && WidthsTight(r) && PrefixFree(r)
    ensures var r' := InsertZeroProduction(r, e, nt, ln, uri);
            CodesFit(r') && WidthsTight(r') && PrefixFree(r')
  {
    var r' := InsertZeroProduction(r, e, nt, ln, uri);
    InsertZeroKeepsFit(r, r', e, nt, ln, uri);
    InsertZeroKeepsTight(r, r', e, nt, ln, uri);
    InsertZeroKeepsPrefixFree(r, r', e, nt, ln, uri);
  }

  lemma InsertZeroKeepsFit(r: GrammarRule, r': GrammarRule, e: EventType, nt: nat, ln: nat, uri: nat)
    requires CodesFit(r) && r' == InsertZeroProduction(r, e, nt, ln, uri)
    ensures CodesFit(r')
  {
    var m := MaxFirstPart(r'.prods);
    forall i, b | 0 <= i < |r'.prods| && 0 <= b < |r'.prods[i].code|
      ensures r'.prods[i].code[b] < Pow2(r'.bits[b])
    {
      if b == 0 {
        assert r'.prods[i].code[0] <= m;
      } else {
        assert r'.prods[i].code[b] == r.prods[i].code[b];
      }
    }
  }

  lemma InsertZeroKeepsTight(r: GrammarRule, r': GrammarRule, e: EventType, nt: nat, ln: nat, uri: nat)
    requires WidthsTight(r) && r' == InsertZeroProduction(r, e, nt, ln, uri)
    ensures WidthsTight(r')
  {
    forall b | 0 <= b < 3 && r'.bits[b] > 0
      ensures PartReached(r', b)
    {
      if b == 0 {
        FirstPartReached(r');
      } else {
        assert PartReached(r, b);
        LaterPartReached(r, r', b);
      }
    }
  }

  lemma FirstPartReached(r: GrammarRule)
    requires |r.prods| > 0 && r.bits[0] == GetBitsNumber(MaxFirstPart(r.prods)) && r.bits[0] > 0
    ensures PartReached(r, 0)
  {
    var m := MaxFirstPart(r.prods);
    var i :| 0 <= i < |r.prods| && r.prods[i].code[0] == m;
    assert r.prods[i].code[0] >= Pow2(r.bits[0] - 1);
  }

  lemma LaterPartReached(r: GrammarRule, r': GrammarRule, b: nat)
    requires 1 <= b < 3 && r.bits[b] > 0 && PartReached(r, b)
    requires |r'.prods| > |r.prods| && r'.bits[b] == r.bits[b]
    requires forall i :: 0 <= i < |r.prods| ==> r'.prods[i] == Bump(r.prods[i])
    ensures PartReached(r', b)
  {
    var i :| 0 <= i < |r.prods| && b < |r.prods[i].code| && r.prods[i].code[b] >= Pow2(r.bits[b] - 1);
    assert r'.prods[i].code[b] == r.prods[i].code[b];
  }

  lemma InsertZeroKeepsPrefixFree(r: GrammarRule, r': GrammarRule, e: EventType, nt: nat, ln: nat, uri: nat)
    requires PrefixFree(r) && r' == InsertZeroProduction(r, e, nt, ln, uri)
    ensures PrefixFree(r')
  {
    var n := |r.prods|;
    forall i, j | 0 <= i < |r'.prods| && 0 <= j < |r'.prods| && i != j
      ensures !IsPrefix(r'.prods[i].code, r'.prods[j].code)
    {
      var a := r'.prods[i].code;
      var c := r'.prods[j].code;
      if i == n {
        assert c[0] >= 1;
        assert a == [0];
      } else if j == n {
        assert a[0] >= 1;
      } else if IsPrefix(a, c) {
        BumpedPrefix(r.prods[i], r.prods[j]);
      }
    }
  }

  /** Bumping both codes keeps prefix relations as they were. */
  lemma BumpedPrefix(p: Production, q: Production)
    requires IsPrefix(Bump(p).code, Bump(q).code)
    ensures IsPrefix(p.code, q.code)
  {
    var a := Bump(p).code;
    var c := Bump(q).code;
    forall k | 0 <= k < |p.code|
      ensures q.code[k] == p.code[k]
    {
      assert c[k] == a[k];
    }
  }

  // ------------------------------------------------------------ matching

  /** The outcome of reading an event code against one rule:
      - `Matched(j, b, rest)`: production `j`, whose code has `b + 1` parts,
        matched the value read for part `b`;
      - `Picked(j, b, rest)`: a zero-width part `b` chose production `j`,
        the last partial match (or the first production);
      - `FellThrough(read, rest)`: every part was tried without a match;
        `read` says whether any bits were read;
      - `Failed(e)`: the bit reader failed. */
  datatype MatchOutcome =
    | Matched(j: nat, b: nat, rest: Bits)
    | Picked(j: nat, b: nat, rest: Bits)
    | FellThrough(read: bool, rest: Bits)
    | Failed(code: ErrorCode)
  {
    predicate Selected() {
      Matched? || Picked?
    }
  }

  /** The first production whose code has a part `b` equal to `v`; only part
      `b` is compared, as in the C scan. */
  function FirstWithPart(prods: seq<Production>, b: nat, v: nat): (r: Option<nat>)
    ensures r.Some? ==> r.value < |prods| && b < |prods[r.value].code| && prods[r.value].code[b] == v
                        && forall k :: 0 <= k < r.value ==> !(b < |prods[k].code| && prods[k].code[b] == v)
    ensures r.None? ==> forall k :: 0 <= k < |prods| ==> !(b < |prods[k].code| && prods[k].code[b] == v)
    decreases |prods|
  {
    if |prods| == 0 then None
    else
      var earlier := FirstWithPart(prods[..|prods| - 1], b, v);
      if earlier.Some? then earlier
      else if b < |prods[|prods| - 1].code| && prods[|prods| - 1].code[b] == v then Some(|prods| - 1)
      else None
  }

  /** The part loop of processNextProduction from part `b` on, with `cur`
      the production chosen by the last partial match. A zero-width part is
      skipped while the rule has more than `b` productions, and otherwise
      selects `cur`; a non-zero width reads that many bits and scans for the
      first production with that part value. */
  function MatchFrom(o: Options, r: GrammarRule, b: nat, cur: nat, s: Bits, read: bool): (m: MatchOutcome)
    requires b <= 3
    ensures m.Selected() ==> m.j < |r.prods| && b <= m.b < 3
    ensures m.Matched? ==> |r.prods[m.j].code| == m.b + 1 && r.bits[m.b] > 0
    ensures m.Picked? ==> r.bits[m.b] == 0 && |r.prods| <= m.b
    decreases 3 - b
  {
    if b == 3 then FellThrough(read, s)
    else if r.bits[b] == 0 && |r.prods| > b then MatchFrom(o, r, b + 1, cur, s, read)
    else if r.bits[b] == 0 then
      if cur < |r.prods| then Picked(cur, b, s) else Failed(OutOfBoundBuffer)
    else
      match DecodeNBitUnsignedInteger(o, s, r.bits[b])
      case Err(e) => Failed(e)
      case Ok((v, s')) =>
        match FirstWithPart(r.prods, b, v)
        case None => MatchFrom(o, r, b + 1, cur, s', true)
        case Some(j) =>
          if |r.prods[j].code| == b + 1 then Matched(j, b, s')
          else MatchFrom(o, r, b + 1, j, s', true)
  }

  function Match(o: Options, r: GrammarRule, s: Bits): MatchOutcome {
    MatchFrom(o, r, 0, 0, s, false)
  }

  /** The matcher never gives bits back, and once it has read a part the
      stream is strictly shorter. */
  lemma {:induction false} MatchFromConsumes(o: Options, r: GrammarRule, b: nat, cur: nat, s: Bits, read: bool)
    requires b <= 3
    ensures var m := MatchFrom(o, r, b, cur, s, read);
            m.FellThrough? ==> |m.rest| <= |s| && (m.read ==> read || |m.rest| < |s|)
    decreases 3 - b
  {
    if b < 3 && r.bits[b] > 0 {
      var d := DecodeNBitUnsignedInteger(o, s, r.bits[b]);
      if d.Ok? {
        var (v, s') := d.value;
        assert |s'| < |s| by { PartShortens(o, s, r.bits[b]); }
        var next := if FirstWithPart(r.prods, b, v).Some? then FirstWithPart(r.prods, b, v).value else cur;
        MatchFromConsumes(o, r, b + 1, next, s', true);
      }
    } else if b < 3 && |r.prods| > b {
      MatchFromConsumes(o, r, b + 1, cur, s, read);
    }
  }

  /** Reading an event-code part of positive width consumes at least one bit. */
  lemma PartShortens(o: Options, s: Bits, n: nat)
    requires n > 0 && DecodeNBitUnsignedInteger(o, s, n).Ok?
    ensures |DecodeNBitUnsignedInteger(o, s, n).value.1| < |s|
  {
  }

  /** A fall-through after a read has consumed part of the stream. */
  lemma MatchConsumes(o: Options, r: GrammarRule, s: Bits)
    ensures var m := Match(o, r, s); m.FellThrough? && m.read ==> |m.rest| < |s|
  {
    MatchFromConsumes(o, r, 0, 0, s, false);
  }

  // ------------------------------------------------ event-code round trip

  /** An event code written part by part, each part in its rule's width, as
      EXI 1.0 section 6.2 lays it out; this is the writer the matcher must
      invert. */
  function EncodeCodeFrom(o: Options, r: GrammarRule, code: CodeParts, b: nat): Bits
    requires b <= |code|
    decreases |code| - b
  {
    if b == |code| then [] else EncodeNBitUnsignedInteger(o, code[b], r.bits[b]) + EncodeCodeFrom(o, r, code, b + 1)
  }

  function EncodeEventCode(o: Options, r: GrammarRule, code: CodeParts): Bits {
    EncodeCodeFrom(o, r, code, 0)
  }

  lemma SamePrefixOneMore(x: seq<nat>, y: seq<nat>, b: nat)
    requires b < |x| && b < |y| && x[..b] == y[..b] && x[b] == y[b]
    ensures x[..b + 1] == y[..b + 1]
  {
    assert x[..b + 1] == x[..b] + [x[b]];
    assert y[..b + 1] == y[..b] + [y[b]];
  }

  /** The production the scan finds for the part read at `b` is the target
      itself when `b` is the target's last part, and a longer production
      otherwise. */
  lemma FirstWithPartOfTarget(r: GrammarRule, j: nat, b: nat) returns (i: nat)
    requires PrefixFree(r) && PartsDetermine(r)
    requires j < |r.prods| && b < |r.prods[j].code|
    ensures FirstWithPart(r.prods, b, r.prods[j].code[b]) == Some(i)
    ensures b + 1 == |r.prods[j].code| ==> i == j
    ensures b + 1 < |r.prods[j].code| ==> i < |r.prods| && |r.prods[i].code| != b + 1
  {
    var c := r.prods[j].code;
    var f := FirstWithPart(r.prods, b, c[b]);
    i := f.value;
    var ci := r.prods[i].code;
    assert ci[..b] == c[..b];
    SamePrefixOneMore(ci, c, b);
    assert |ci| == b + 1 ==> ci == ci[..b + 1] && IsPrefix(ci, c);
    assert |c| == b + 1 ==> c == c[..b + 1] && IsPrefix(c, ci);
  }

  lemma {:induction false} MatchFromEncoded(o: Options, r: GrammarRule, j: nat, b: nat, cur: nat, rest: Bits, read: bool)
    requires CodesFit(r) && PrefixFree(r) && PartsDetermine(r) && PartsReadable(r)
    requires j < |r.prods| && b < |r.prods[j].code|
    ensures MatchFrom(o, r, b, cur, EncodeCodeFrom(o, r, r.prods[j].code, b) + rest, read)
            == Matched(j, |r.prods[j].code| - 1, rest)
    decreases 3 - b
  {
    var c := r.prods[j].code;
    if r.bits[b] == 0 {
      assert b + 1 < |c|;
      MatchFromEncoded(o, r, j, b + 1, cur, rest, read);
      SkippedPart(o, r, j, b, cur, rest, read);
    } else {
      var i := FirstWithPartOfTarget(r, j, b);
      if b + 1 < |c| {
        MatchFromEncoded(o, r, j, b + 1, i, rest, true);
      }
      ReadPart(o, r, j, b, cur, rest, read, i);
    }
  }

  /** A zero-width part writes nothing and the matcher skips it. */
  lemma SkippedPart(o: Options, r: GrammarRule, j: nat, b: nat, cur: nat, rest: Bits, read: bool)
    requires CodesFit(r) && PartsReadable(r)
    requires j < |r.prods| && b + 1 < |r.prods[j].code| && r.bits[b] == 0
    requires MatchFrom(o, r, b + 1, cur, EncodeCodeFrom(o, r, r.prods[j].code, b + 1) + rest, read)
             == Matched(j, |r.prods[j].code| - 1, rest)
    ensures MatchFrom(o, r, b, cur, EncodeCodeFrom(o, r, r.prods[j].code, b) + rest, read)
            == Matched(j, |r.prods[j].code| - 1, rest)
  {
    var c := r.prods[j].code;
    assert |r.prods| > b;
    assert EncodeNBitUnsignedInteger(o, c[b], r.bits[b]) == [];
    assert EncodeCodeFrom(o, r, c, b) == EncodeCodeFrom(o, r, c, b + 1);
    MatchFromSkips(o, r, b, cur, EncodeCodeFrom(o, r, c, b + 1) + rest, read);
  }

  /** A part with non-zero width is read back and the scan finds production
      `i`: the target itself at the last part, a longer one before it. */
  lemma ReadPart(o: Options, r: GrammarRule, j: nat, b: nat, cur: nat, rest: Bits, read: bool, i: nat)
    requires CodesFit(r)
    requires j < |r.prods| && b < |r.prods[j].code| && r.bits[b] > 0
    requires FirstWithPart(r.prods, b, r.prods[j].code[b]) == Some(i)
    requires b + 1 == |r.prods[j].code| ==> i == j
    requires b + 1 < |r.prods[j].code| ==> i < |r.prods| && |r.prods[i].code| != b + 1
    requires b + 1 < |r.prods[j].code| ==>
               MatchFrom(o, r, b + 1, i, EncodeCodeFrom(o, r, r.prods[j].code, b + 1) + rest, true)
               == Matched(j, |r.prods[j].code| - 1, rest)
    ensures MatchFrom(o, r, b, cur, EncodeCodeFrom(o, r, r.prods[j].code, b) + rest, read)
            == Matched(j, |r.prods[j].code| - 1, rest)
  {
    var c := r.prods[j].code;
    var part := EncodeNBitUnsignedInteger(o, c[b], r.bits[b]);
    var later := EncodeCodeFrom(o, r, c, b + 1);
    var tail := later + rest;
    assert EncodeCodeFrom(o, r, c, b) == part + later;
    ConcatAssoc(part, later, rest);
    NBitRoundTrip(o, c[b], r.bits[b], tail);
    MatchFromReads(o, r, b, cur, part + tail, read, c[b], tail, i);
    if b + 1 == |c| {
      assert later == [];
    }
  }

  /** One step of the matcher at a skipped zero-width part. */
  lemma MatchFromSkips(o: Options, r: GrammarRule, b: nat, cur: nat, s: Bits, read: bool)
    requires b < 3 && r.bits[b] == 0 && |r.prods| > b
    ensures MatchFrom(o, r, b, cur, s, read) == MatchFrom(o, r, b + 1, cur, s, read)
  {
  }

  /** One step of the matcher at a part with non-zero width. */
  lemma MatchFromReads(o: Options, r: GrammarRule, b: nat, cur: nat, s: Bits, read: bool, v: nat, s': Bits, i: nat)
    requires b < 3 && r.bits[b] > 0
    requires DecodeNBitUnsignedInteger(o, s, r.bits[b]) == Ok((v, s'))
    requires FirstWithPart(r.prods, b, v) == Some(i)
    ensures MatchFrom(o, r, b, cur, s, read)
            == if |r.prods[i].code| == b + 1 then Matched(i, b, s') else MatchFrom(o, r, b + 1, i, s', true)
  {
  }

  /** Event-code round trip: in a rule whose codes fit, are prefix free,
      determined part by part and readable, the matcher selects exactly the
      production whose code was written. */
  lemma EventCodeRoundTrip(o: Options, r: GrammarRule, j: nat, rest: Bits)
    requires CodesFit(r) && PrefixFree(r) && PartsDetermine(r) && PartsReadable(r)
    requires j < |r.prods|
    ensures Match(o, r, EncodeEventCode(o, r, r.prods[j].code) + rest) == Matched(j, |r.prods[j].code| - 1, rest)
  {
    MatchFromEncoded(o, r, j, 0, 0, rest, false);
  }

  /** After learning, the new production is selected by the one-part code
      0, and every earlier production by its code with the first part
      bumped. */
  lemma LearnedCodesDecode(o: Options, r: GrammarRule, e: EventType, nt: nat, ln: nat, uri: nat, j: nat, rest: Bits)
    requires WellFormed(r) && PartsReadable(r) && |r.prods| > 0 && j <= |r.prods|
    ensures var r' := InsertZeroProduction(r, e, nt, ln, uri);
            && r'.prods[|r.prods|].code == [0]
            && (j < |r.prods| ==> r'.prods[j].code == [r.prods[j].code[0] + 1] + r.prods[j].code[1..])
            && Match(o, r', EncodeEventCode(o, r', r'.prods[j].code) + rest) == Matched(j, |r'.prods[j].code| - 1, rest)
  {
    var r' := InsertZeroProduction(r, e, nt, ln, uri);
    InsertZeroKeepsWellFormed(r, e, nt, ln, uri);
    InsertZeroKeepsReadable(r, e, nt, ln, uri);
    EventCodeRoundTrip(o, r', j, rest);
  }

  /** A rule with one production and no widths needs no bits: the matcher
      skips part 0 and picks the production at part 1. */
  lemma SingleProductionPicked(o: Options, r: GrammarRule, rest: Bits)
    requires CodesFit(r) && |r.prods| == 1 && r.bits == [0, 0, 0]
    ensures EncodeEventCode(o, r, r.prods[0].code) == []
    ensures Match(o, r, EncodeEventCode(o, r, r.prods[0].code) + rest) == Picked(0, 1, rest)
  {
    var c := r.prods[0].code;
    forall b | 0 <= b < |c|
      ensures EncodeNBitUnsignedInteger(o, c[b], r.bits[b]) == []
    {
    }
    if |c| > 2 { assert EncodeCodeFrom(o, r, c, 2) == []; }
    if |c| > 1 { assert EncodeCodeFrom(o, r, c, 1) == []; }
    assert EncodeCodeFrom(o, r, c, 0) == [];
  }

  /** Learning keeps a rule well formed. */
  lemma InsertZeroKeepsWellFormed(r: GrammarRule, e: EventType, nt: nat, ln: nat, uri: nat)
    requires WellFormed(r)
    ensures WellFormed(InsertZeroProduction(r, e, nt, ln, uri))
  {
    InsertZeroKeepsShape(r, e, nt, ln, uri);
    InsertZeroKeepsDetermined(r, e, nt, ln, uri);
  }

  /** Learning keeps the parts determined: first parts move together and the
      new code has one part. */
  lemma InsertZeroKeepsDetermined(r: GrammarRule, e: EventType, nt: nat, ln: nat, uri: nat)
    requires PartsDetermine(r)
    ensures PartsDetermine(InsertZeroProduction(r, e, nt, ln, uri))
  {
    var r' := InsertZeroProduction(r, e, nt, ln, uri);
    BumpedDetermined(r, r');
  }

  /** A rule whose codes are the bumped codes of `r` followed by a one-part
      code keeps the parts determined. */
  lemma BumpedDetermined(r: GrammarRule, r': GrammarRule)
    requires PartsDetermine(r) && |r'.prods| == |r.prods| + 1 && |r'.prods[|r.prods|].code| == 1
    requires forall k :: 0 <= k < |r.prods| ==> r'.prods[k] == Bump(r.prods[k])
    ensures PartsDetermine(r')
  {
    forall i, j, b | 0 <= i < |r'.prods| && 0 <= j < |r'.prods| && 0 <= b < |r'.prods[i].code| && b < |r'.prods[j].code|
      && r'.prods[i].code[b] == r'.prods[j].code[b]
      ensures r'.prods[i].code[..b] == r'.prods[j].code[..b]
    {
      if b > 0 {
        LearnedPairDetermined(r, r', i, j, b);
      }
    }
  }

  /** Two learned codes that agree on a later part `b` were bumped from
      original codes that agree on it. */
  lemma LearnedPairDetermined(r: GrammarRule, r': GrammarRule, i: nat, j: nat, b: nat)
    requires PartsDetermine(r) && |r'.prods| == |r.prods| + 1 && |r'.prods[|r.prods|].code| == 1
    requires forall k :: 0 <= k < |r.prods| ==> r'.prods[k] == Bump(r.prods[k])
    requires i < |r'.prods| && j < |r'.prods| && 0 < b < |r'.prods[i].code| && b < |r'.prods[j].code|
    requires r'.prods[i].code[b] == r'.prods[j].code[b]
    ensures r'.prods[i].code[..b] == r'.prods[j].code[..b]
  {
    var n := |r.prods|;
    assert i < n && j < n;
    var p, q := r.prods[i], r.prods[j];
    assert r'.prods[i] == Bump(p) && r'.prods[j] == Bump(q);
    assert p.code[b] == q.code[b];
    assert p.code[..b] == q.code[..b];
    BumpedPrefixes(p, q, b);
  }

  lemma BumpedPrefixes(p: Production, q: Production, b: nat)
    requires 0 < b <= |p.code| && b <= |q.code| && p.code[..b] == q.code[..b]
    ensures Bump(p).code[..b] == Bump(q).code[..b]
  {
    assert p.code[0] == p.code[..b][0];
    assert q.code[0] == q.code[..b][0];
    forall k | 0 <= k < b
      ensures Bump(p).code[k] == Bump(q).code[k]
    {
      assert p.code[k] == p.code[..b][k];
      assert q.code[k] == q.code[..b][k];
    }
  }

  /** Learning makes a non-empty rule readable if it was: the first-part width
      becomes positive because the bumped codes start at 1 or more. */
  lemma InsertZeroKeepsReadable(r: GrammarRule, e: EventType, nt: nat, ln: nat, uri: nat)
    requires PartsReadable(r) && |r.prods| > 0
    ensures PartsReadable(InsertZeroProduction(r, e, nt, ln, uri))
  {
    var r' := InsertZeroProduction(r, e, nt, ln, uri);
    assert r'.prods[0].code[0] >= 1;
    assert MaxFirstPart(r'.prods) >= 1;
    assert r'.bits[0] > 0;
    forall i, b | 0 <= i < |r'.prods| && 0 <= b < |r'.prods[i].code|
      ensures r'.bits[b] > 0 || (b + 1 < |r'.prods[i].code| && |r'.prods| > b)
    {
      if b > 0 {
        assert r.bits[b] > 0 || (b + 1 < |r.prods[i].code| && |r.prods| > b);
      }
    }
  }

  /** The matcher can recover every production of the rule: either each
      part is read or skipped as it should be, or the rule is a single
      production picked without reading. */
  predicate Decodable(r: GrammarRule) {
    PartsReadable(r) || (|r.prods| == 1 && r.bits == [0, 0, 0])
  }

  /** Every rule of the grammar is well formed and decodable. */
  predicate GrammarWellFormed(g: Grammar) {
    forall k :: 0 <= k < |g.rules| ==> WellFormed(g.rules[k]) && Decodable(g.rules[k])
  }

  /** In a well-formed, decodable rule the code written for production `j`
      selects production `j` and consumes exactly that code. */
  lemma RuleDecodes(o: Options, r: GrammarRule, j: nat, rest: Bits)
    requires WellFormed(r) && Decodable(r) && j < |r.prods|
    ensures var m := Match(o, r, EncodeEventCode(o, r, r.prods[j].code) + rest);
            m.Selected() && m.j == j && m.rest == rest
  {
    if PartsReadable(r) {
      EventCodeRoundTrip(o, r, j, rest);
    } else {
      SingleProductionPicked(o, r, rest);
    }
  }
}
