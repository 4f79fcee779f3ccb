/** The shared processor types: event types, value types, event codes,
    productions, grammar rules, grammars, EXI options and the bit-width
    helper `GetBitsNumber`. */
module ProcTypes {
  import opened ErrorHandle

  /** A string of code points. The C `StringType` stores each decoded code
      point in one `CharType`, an `unsigned char` unless `CHAR_TYPE` is
      overridden; the model keeps the code point itself. */
  type Str = seq<nat>

  /** Lifts an ASCII literal into a `Str`. */
  function Ascii(s: string): (r: Str)
    ensures |r| == |s|
    ensures forall i :: 0 <= i < |s| ==> r[i] == s[i] as nat
  {
    seq(|s|, i requires 0 <= i < |s| => s[i] as nat)
  }

  function Pow2(n: nat): (r: nat)
    ensures r >= 1
  {
    if n == 0 then 1 else 2 * Pow2(n - 1)
  }

  lemma {:induction false} Pow2Monotone(a: nat, b: nat)
    requires a <= b
    ensures Pow2(a) <= Pow2(b)
    decreases b
  {
    if a < b {
      Pow2Monotone(a, b - 1);
    }
  }

  lemma {:induction false} Pow2Add(a: nat, b: nat)
    ensures Pow2(a + b) == Pow2(a) * Pow2(b)
    decreases a
  {
    if a > 0 {
      Pow2Add(a - 1, b);
    }
  }

  /** The number of bits needed to write `v` in binary: the least `r` with
      `v < 2^r` (0 for 0). This is the width EXI gives an n-bit event-code
      part or row id whose largest value is `v`. */
  function GetBitsNumber(v: nat): (r: nat)
    ensures v < Pow2(r)
    ensures r == 0 || Pow2(r - 1) <= v
    decreases v
  {
    if v == 0 then 0 else 1 + GetBitsNumber(v / 2)
  }

  /** `GetBitsNumber` is minimal: no narrower width holds `v`. */
  lemma {:induction false} BitsNumberIsMinimal(v: nat, k: nat)
    requires v < Pow2(k)
    ensures GetBitsNumber(v) <= k
    decreases v
  {
    if v > 0 {
      BitsNumberIsMinimal(v / 2, k - 1);
    }
  }

  /** `GetBitsNumber` is monotone in its argument. */
  lemma BitsNumberMonotone(a: nat, b: nat)
    requires a <= b
    ensures GetBitsNumber(a) <= GetBitsNumber(b)
  {
    BitsNumberIsMinimal(a, GetBitsNumber(b));
  }

  lemma BitsNumberOfU32Max()
    ensures GetBitsNumber(0xFFFF_FFFF) == 32
  {
    assert Pow2(15) == 0x8000 && Pow2(16) == 0x1_0000;
    Pow2Add(15, 16);
    Pow2Add(16, 16);
    BitsNumberIsMinimal(0xFFFF_FFFF, 32);
    var r := GetBitsNumber(0xFFFF_FFFF);
    if r < 32 {
      Pow2Monotone(r, 31);
    }
  }

  /** The C code computes `rowCount - 1` on an unsigned 32-bit count before
      taking its bit width; for an empty table that wraps to 2^32-1. */
  function PredU32(n: nat): (r: nat)
    ensures n > 0 ==> r + 1 == n
    ensures n == 0 ==> GetBitsNumber(r) == 32
  {
    if n == 0 then
      BitsNumberOfU32Max();
      0xFFFF_FFFF
    else n - 1
  }

  // ---------------------------------------------------------------- events

  datatype EventType =
    | SD | ED | SEQName | SEUri | SEAll | EE | ATQName | ATUri | ATAll
    | CH | NS | CM | PI | DT | ER | SC
  {
    /** The numeric event type of the C code (EVENT_SD .. EVENT_SC). */
    function Code(): (c: nat)
      ensures c <= 15
    {
      match this
      case SD => 0
      case ED => 1
      case SEQName => 2
      case SEUri => 3
      case SEAll => 4
      case EE => 5
      case ATQName => 6
      case ATUri => 7
      case ATAll => 8
      case CH => 9
      case NS => 10
      case CM => 11
      case PI => 12
      case DT => 13
      case ER => 14
      case SC => 15
    }
  }

  /** The inverse of `EventType.Code`: every number 0..15 names exactly one
      event type and no other number names one. */
  function EventOfCode(c: nat): (r: Option<EventType>)
    ensures r.Some? <==> c <= 15
    ensures r.Some? ==> r.value.Code() == c
  {
    if c == 0 then Some(SD) else if c == 1 then Some(ED)
    else if c == 2 then Some(SEQName) else if c == 3 then Some(SEUri)
    else if c == 4 then Some(SEAll) else if c == 5 then Some(EE)
    else if c == 6 then Some(ATQName) else if c == 7 then Some(ATUri)
    else if c == 8 then Some(ATAll) else if c == 9 then Some(CH)
    else if c == 10 then Some(NS) else if c == 11 then Some(CM)
    else if c == 12 then Some(PI) else if c == 13 then Some(DT)
    else if c == 14 then Some(ER) else if c == 15 then Some(SC)
    else None
  }

  /** Decoding the code of an event type gives that event type back, so the
      sixteen codes are pairwise distinct. */
  lemma EventTypeCodeRoundTrip(e: EventType)
    ensures EventOfCode(e.Code()) == Some(e)
  {
  }

  datatype ValueType =
    | NoValue | StringValue | IntegerValue | FloatValue | DecimalValue
    | DateTimeValue | BooleanValue | BinaryValue

  // ------------------------------------------------------- non-terminals

  const GrVoidNonTerminal: nat := 0
  const GrDocument: nat := 1
  const GrDocContent: nat := 2
  const GrDocEnd: nat := 3
  const GrStartTagContent: nat := 4
  const GrElementContent: nat := 5
  const GrFragment: nat := 6

  // ----------------------------------------------------- fidelity options

  const PreserveComments: bv8 := 1
  const PreservePis: bv8 := 2
  const PreserveDtd: bv8 := 4
  const PreservePrefixes: bv8 := 8
  const PreserveLexValues: bv8 := 16

  predicate IsPreserved(p: bv8, mask: bv8) {
    p & mask != 0
  }

  /** The five PRESERVE_* masks, in the order of procTypes.h. */
  const PreserveFlags: seq<bv8> := [PreserveComments, PreservePis, PreserveDtd, PreservePrefixes, PreserveLexValues]

  /** The five fidelity flags are five different single bits, so each can
      be set and tested on its own: setting one turns it on and leaves
      every other flag as it was, and no flag is set in 0. */
  lemma PreserveFlagsIndependent(p: bv8)
    ensures forall i :: 0 <= i < |PreserveFlags| ==>
              PreserveFlags[i] != 0 && PreserveFlags[i] & (PreserveFlags[i] - 1) == 0
    ensures forall i, k :: 0 <= i < |PreserveFlags| && 0 <= k < |PreserveFlags| && i != k ==>
              PreserveFlags[i] & PreserveFlags[k] == 0
    ensures forall i :: 0 <= i < |PreserveFlags| ==> IsPreserved(p | PreserveFlags[i], PreserveFlags[i])
    ensures forall i, k :: 0 <= i < |PreserveFlags| && 0 <= k < |PreserveFlags| && i != k ==>
              IsPreserved(p | PreserveFlags[i], PreserveFlags[k]) == IsPreserved(p, PreserveFlags[k])
    ensures forall i :: 0 <= i < |PreserveFlags| ==> !IsPreserved(0, PreserveFlags[i])
  {
  }

  // ------------------------------------------------------------ alignment

  const BitPacked: nat := 0
  const ByteAlignment: nat := 1
  const PreCompression: nat := 2

  /** The bit pointer counts 0..7 from the most significant bit; the shift
      that isolates position `p` is `7 - p`. */
  function ReverseBitPosition(p: nat): (r: nat)
    requires p <= 7
    ensures r <= 7 && p + r == 7
  {
    7 - p
  }

  lemma ReverseBitPositionInvolution(p: nat)
    requires p <= 7
    ensures ReverseBitPosition(ReverseBitPosition(p)) == p
  {
  }

  // ----------------------------------------------------- grammar records

  /** The parts of an event code: one to three non-negative integers. */
  type CodeParts = s: seq<nat> | 1 <= |s| <= 3 witness [0]

  /** The bit widths of the three parts of a rule's event codes. */
  type Bits3 = s: seq<nat> | |s| == 3 witness [0, 0, 0]

  datatype Production = Production(
    code: CodeParts,
    event: EventType,
    valueType: ValueType,
    nonTermID: nat,   // right-hand side non-terminal
    uriRowID: nat,    // for SE(qname) and AT(qname): the qname's URI row
    lnRowID: nat)     // ... and its local-name row

  datatype GrammarRule = GrammarRule(
    nonTermID: nat,   // left-hand side non-terminal
    prods: seq<Production>,
    bits: Bits3)

  /** A grammar: its rules and the non-terminal to return to once the
      grammar pushed on top of it is popped. */
  datatype Grammar = Grammar(rules: seq<GrammarRule>, lastNonTermID: nat)

  // -------------------------------------------------------------- options

  /** The 64-bit SIZE_MAX used as "unbounded" for the value-table limits. */
  const SizeMax: nat := 0xFFFF_FFFF_FFFF_FFFF

  const DefaultBlockSize: nat := 1000000

  datatype Options = Options(
    alignment: nat,
    compression: bool,
    strict: bool,
    fragment: bool,
    preserve: bv8,
    selfContained: bool,
    schemaID: Str,
    hasDrMap: bool,          // drMap != NULL
    blockSize: nat,
    valueMaxLength: nat,
    valuePartitionCapacity: nat)

  /** The options of EXI section 5.4 when nothing is specified. */
  const DefaultOptions := Options(BitPacked, false, false, false, 0, false, [], false,
                                  DefaultBlockSize, SizeMax, SizeMax)

  /** The only stream layout in which n-bit integers are packed bit by bit. */
  predicate IsBitPacked(o: Options) {
    !o.compression && o.alignment == BitPacked
  }
}
