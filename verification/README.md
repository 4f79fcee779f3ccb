# EXIP codec core in Dafny

This project models the grammar-driven core of EXIP, a C implementation of
the W3C Efficient XML Interchange (EXI 1.0) format, and proves properties
of that model. Four cooperating parts of the C code are modelled:

- **Primitive decoders** (`streamDecode.c`). These read the EXI primitive
  types from a bit stream: n-bit unsigned integers, the 7-bit-group
  unsigned integer of section 7.1.6 of EXI 1.0, the sign-and-magnitude
  integer, code-point strings, binary, and the special values of the float
  encoding. A matching encoder is written for each decoder so that the
  round trips can be stated.
- **Grammars and the decoding runtime** (`grammars.c`). This covers:
  - the built-in document and element grammars of EXI 1.0 sections 8.4.1
    and 8.4.3;
  - event-code matching over a grammar rule (`processNextProduction`);
  - grammar learning (the zero-code productions of rules #1# and #2#);
  - the element-grammar pool and the grammar stack;
  - the string-table codecs of section 7.3 for QNames and values.
- **The EXI header writer** (`headerEncode.c`). This covers the cookie,
  the distinguishing bits, the presence and preview flags, the version
  field, the option categories and the padding.
- **Schema-grammar builder helpers** (`grammarGenerator.c`). These are:
  - occurrence parsing;
  - type-QName resolution with its namespace check;
  - lookup-or-insert on the paired initial and meta string tables;
  - the sort that keeps the reserved rows in place;
  - the attribute-use comparator;
  - the `namespace` list of `<any>`;
  - the `<schema>` root and form-default handling;
  - the fixed-point resolution of derived types, and the resolution of
    element types.

The shared data model of `procTypes.h` lives in `ProcTypes`: event and value
types, non-terminal IDs, productions, rules, grammars, options,
`getBitsNumber`, the preserve masks and the bit-position macro.

The bit stream is a `seq<bool>` read from the front. A decoder takes the
remaining bits and returns its value together with the bits left over.
"Consumes n bits" therefore reads as "the rest is n bits shorter". The
round trips all have the form `Decode(Encode(x) + rest) == Ok((x, rest))`.
Errors are the C `errorCode` values in a `Result` datatype.

Modules, one per file:

| file | module | models |
|---|---|---|
| error_handle.dfy | ErrorHandle | the error codes, `Result`, `Option` |
| proc_types.dfy | ProcTypes | the procTypes.h data model and `getBitsNumber` |
| stream_io.dfy | StreamIO | reading and writing n bits, with the arithmetic behind them |
| stream_decode.dfy | StreamDecode | streamDecode.c |
| stream_encode.dfy | StreamEncode | the encoders that pair with each decoder, and the round trips |
| string_tables.dfy | STables | URI, local-name and value tables with their lookups and appends |
| qname_codec.dfy | QNameCodec | decodeQName, decodeStringValue, encodeQName, encodeStringData |
| grammar_rules.dfy | GrammarRules | rules, event-code matching, insertZeroProduction |
| builtin_grammars.dfy | BuiltinGrammars | createDocGrammar, createBuildInElementGrammar |
| grammar_stack.dfy | GrammarStack | pushGrammar, popGrammar, copyGrammar |
| runtime.dfy | Runtime | decodeEventContent, processNextProduction, the pool |
| runtime_props.dfy | RuntimeProps, FallThroughExample | the invariant the runtime keeps, and a worked example |
| header_encode.dfy | HeaderEncode | encodeHeader |
| schema_strings.dfy | SchemaStrings | addURIString, addLocalName, the sort, compareAttrUse |
| grammar_gen.dfy | GrammarGen | occurrence parsing, getTypeQName, handleAnyEl, the `<schema>` callbacks |
| type_resolution.dfy | TypeResolution | resolveDerivedTypes, resolveElementTypes |

## Model

| member | source | states |
|---|---|---|
| ProcTypes.GetBitsNumber | trunk/common/include/procTypes.h:597-603 | the result is the least width that can hold v: v < 2^r and, for r > 0, 2^(r-1) <= v; hence getBitsNumber(0) = 0 |
| ProcTypes.BitsNumberIsMinimal | trunk/common/include/procTypes.h:597-603 | every width k with v < 2^k is at least getBitsNumber(v) |
| ProcTypes.BitsNumberMonotone | trunk/src/grammar/src/grammars.c:134-138 | more choices never need fewer bits, so n+1 choices need at least as many bits as n |
| ProcTypes.BitsNumberOfU32Max | trunk/src/grammar/src/grammars.c:456 | the width of the largest unsigned 32-bit value is 32 |
| ProcTypes.PredU32 | trunk/src/grammar/src/grammars.c:456 | rowCount - 1 on an unsigned count: the predecessor for a non-zero count; for 0 it wraps to a value 32 bits wide |
| ProcTypes.EventOfCode | trunk/common/include/procTypes.h:303-318 | codes 0..15 name an event type and give it back; every other code names none |
| ProcTypes.EventTypeCodeRoundTrip | trunk/common/include/procTypes.h:303-318 | the sixteen event types SD=0 .. SC=15 have distinct codes: each type is recovered from its code |
| ProcTypes.PreserveFlagsIndependent | trunk/common/include/procTypes.h:77-83 | the five PRESERVE_* masks are non-zero single bits and pairwise disjoint; for each flag, setting it with `\|` turns IS_PRESERVED on for it and leaves IS_PRESERVED of every other flag as it was; no flag is set in 0 |
| ProcTypes.ReverseBitPosition | trunk/common/include/procTypes.h:57 | REVERSE_BIT_POSITION maps a bit position 0..7 to 7 - p |
| ProcTypes.ReverseBitPositionInvolution | trunk/common/include/procTypes.h:57 | reversing a bit position twice gives it back |
| StreamIO.ReadBits | streamIO/src/streamDecode.c:50-58 | reading n bits succeeds exactly when n bits remain, drops exactly those bits, and gives a value below 2^n; otherwise it fails with BUFFER_END_REACHED |
| StreamIO.ValueOfWriteBits | streamIO/src/streamDecode.c:50-58 | writing v in n bits and reading them back gives v mod 2^n |
| StreamIO.WriteBitsOfValue | streamIO/src/streamDecode.c:50-58 | every n-bit sequence is the n-bit writing of its own value |
| StreamIO.ReadWritten | streamIO/src/streamDecode.c:50-58 | reading n bits gives back a value below 2^n written in n bits, and leaves the rest of the stream |
| StreamDecode.ByteCount | streamIO/src/streamDecode.c:60-62 | the number of bytes a byte-aligned n-bit integer occupies: the least c with n <= 8c |
| StreamDecode.DecodeNBitUnsignedInteger | streamIO/src/streamDecode.c:50-74 | bit-packed: consumes exactly n bits and yields a value below 2^n; otherwise consumes whole bytes, 8 * ceil(n/8) bits |
| StreamDecode.BytesLEStep | streamIO/src/streamDecode.c:60-71 | in byte-aligned mode the first byte read is the least significant: value = first byte + 256 * the value of the rest |
| StreamDecode.DecodeBoolean | streamIO/src/streamDecode.c:76-81 | a boolean is one bit: it succeeds exactly when a bit remains and returns that bit |
| StreamDecode.DecodeUnsignedInteger | streamIO/src/streamDecode.c:83-108 | consumes a whole number of 8-bit groups, at least one |
| StreamDecode.UnsignedIntegerStep | streamIO/src/streamDecode.c:83-108 | a group with bit 7 clear ends the integer; a group with bit 7 set contributes its low seven bits and is followed by groups worth 128 times as much |
| StreamDecode.DecodeUnsignedIntegerLoop | streamIO/src/streamDecode.c:83-108 | the C loop, with its running multiplier, computes the same result as the recursive definition |
| StreamDecode.DecodeStringOnly | streamIO/src/streamDecode.c:126-147 | reads exactly len code points, each an unsigned integer, so the result has length len |
| StreamDecode.StringOnlyStep | streamIO/src/streamDecode.c:126-147 | a string of len > 0 code points is its first code point followed by the remaining len - 1 |
| StreamDecode.DecodeString | streamIO/src/streamDecode.c:110-124 | a string is its length followed by that many code points; it fails when the length cannot be read |
| StreamDecode.ReadByteSeq | streamIO/src/streamDecode.c:151-168 | reading count bytes succeeds exactly when 8 * count bits remain and consumes exactly those |
| StreamDecode.DecodeBinary | streamIO/src/streamDecode.c:151-168 | binary is a length followed by that many bytes |
| StreamDecode.DecodeIntegerValue | streamIO/src/streamDecode.c:170-195 | it fails exactly when the sign bit or the magnitude cannot be read; the result has the magnitude of the unsigned integer after the sign bit, is negative only with the sign bit set and positive only with it clear, and leaves the bits after the magnitude |
| StreamDecode.DecodeDecimalValue | streamIO/src/streamDecode.c:197-200 | decimals are not implemented: always NOT_IMPLEMENTED_YET |
| StreamDecode.FloatOf | streamIO/src/streamDecode.c:218-235 | exponent -16384 is the special-value sentinel: mantissa 1 is +INF, -1 is -INF, anything else NaN; every other exponent gives the number mantissa * 10^exponent |
| StreamDecode.DecodeFloatValue | streamIO/src/streamDecode.c:204-235 | a float is a mantissa integer followed by an exponent integer, classified as above |
| StreamDecode.DecodeFloatValueAsWritten | streamIO/src/streamDecode.c:218-235 | as written, the sentinel branch stores bit patterns as ordinary numbers, so every result is a plain number |
| StreamEncode.EncodeNBitUnsignedInteger | streamIO/src/streamDecode.c:50-74 | the encoder the n-bit reader inverts: n bits when bit-packed, else 8 * ceil(n/8) bits |
| StreamEncode.BytesLERoundTrip | streamIO/src/streamDecode.c:60-71 | a value below 256^count written least-significant byte first reads back unchanged |
| StreamEncode.NBitRoundTrip | streamIO/src/streamDecode.c:50-74 | in either alignment an n-bit unsigned integer below 2^n reads back unchanged and leaves the rest |
| StreamEncode.EncodeUnsignedInteger | streamIO/src/streamDecode.c:83-108 | the 7-bit-group encoding is a non-empty whole number of bytes |
| StreamEncode.UnsignedIntegerRoundTrip | streamIO/src/streamDecode.c:83-108 | every natural number survives encoding as 7-bit groups and decoding |
| StreamEncode.UnsignedInteger300 | streamIO/src/streamDecode.c:83-108 | the example of section 7.1.6 of EXI 1.0: 300 is the two bytes 0xAC 0x02 |
| StreamEncode.StringOnlyRoundTrip | streamIO/src/streamDecode.c:126-147 | any code-point sequence reads back from its encoding when its length is given |
| StreamEncode.StringRoundTrip | streamIO/src/streamDecode.c:110-124 | any code-point string reads back from its length-prefixed encoding |
| StreamEncode.ByteSeqRoundTrip | streamIO/src/streamDecode.c:151-168 | any sequence of byte values reads back unchanged |
| StreamEncode.BinaryRoundTrip | streamIO/src/streamDecode.c:151-168 | any sequence of byte values reads back from its length-prefixed encoding |
| StreamEncode.IntegerRoundTrip | streamIO/src/streamDecode.c:170-195 | every integer, negative ones included, reads back from its sign-and-magnitude encoding |
| StreamEncode.SignedDecode | streamIO/src/streamDecode.c:170-195 | a sign bit followed by a readable magnitude decodes to that magnitude, negated when the sign is 1 |
| StreamEncode.FloatParts | streamIO/src/streamDecode.c:218-235 | every representable float, the specials included, is the classification of the mantissa and exponent it is written as |
| StreamEncode.TwoIntegersRoundTrip | streamIO/src/streamDecode.c:204-235 | a mantissa and exponent written as two integers decode to their classification |
| StreamEncode.FloatRoundTrip | streamIO/src/streamDecode.c:204-235 | +INF, -INF, NaN and every number read back from their encoding |
| StreamEncode.FloatInfinityAsWritten | streamIO/src/streamDecode.c:218-225 | the encoding of +INF decodes, as written, to the number 0x7f800000 and, corrected, to +INF |
| STables.FindUri | trunk/src/grammar/src/grammars.c:973 | URI lookup: a hit is a row holding the URI, and a miss means no row holds it |
| STables.FindLn | trunk/src/grammar/src/grammars.c:996 | local-name lookup in an optional table: a hit is a row holding the name, and a miss means no row of an existing table holds it |
| STables.FindValue | trunk/src/grammar/src/grammars.c:1056 | global value lookup: a hit is a row holding the value, and a miss means no row holds it |
| STables.FindLocalValue | trunk/src/grammar/src/grammars.c:1040 | local value lookup through the cross table of a QName: a hit is a local index whose global row holds the value |
| STables.AddUriRow | trunk/src/grammar/src/grammars.c:988 | addURIRow appends one row with no local names and keeps every earlier row |
| STables.AddLnRow | trunk/src/grammar/src/grammars.c:1023 | addLNRow appends one name to the local-name table of one URI, creating the table if needed, and changes no other URI |
| STables.AddValueRow | trunk/src/grammar/src/grammars.c:1080-1084 | a miss appends the value to the global table and its global index to the cross table of the QName, and changes nothing else |
| STables.ExtendsTrans | trunk/src/grammar/src/grammars.c:438-533 | the tables only grow: growth composes |
| STables.AddValueRowKeepsCrossIds | trunk/src/grammar/src/grammars.c:529-533 | after a value miss every cross-table entry still points at a global row |
| STables.AddUriRowKeepsCrossIds | trunk/src/grammar/src/grammars.c:438 | adding a URI keeps every cross-table entry pointing at a global row |
| STables.AddLnRowKeepsCrossIds | trunk/src/grammar/src/grammars.c:476 | adding a local name keeps every cross-table entry pointing at a global row |
| QNameCodec.DecodeUriPart | trunk/src/grammar/src/grammars.c:421-448 | the URI part is read in getBitsNumber(rowCount) bits; 0 is a miss that appends the decoded string, and k > 0 is a hit on row k-1 that leaves the table unchanged |
| QNameCodec.DecodeLocalNamePart | trunk/src/grammar/src/grammars.c:450-480 | prefix 0 is a hit read in getBitsNumber(rowCount - 1) bits; prefix L+1 is a miss of length L appended to the table; the result always names a row |
| QNameCodec.DecodeQName | trunk/src/grammar/src/grammars.c:416-484 | a QName is a URI part and then a local-name part; the result names an existing row of the grown tables |
| QNameCodec.LnRowAt | trunk/src/grammar/src/grammars.c:642-643 | the row of the current QName exists exactly when the IDs are in range |
| QNameCodec.DecodeStringValue | trunk/src/grammar/src/grammars.c:488-540 | 0 is a local hit, 1 a global hit, L+2 a miss of length L; the value ends up in the global table, and only a miss changes the tables, by one AddValueRow |
| QNameCodec.EncodeUriPart | trunk/src/grammar/src/grammars.c:971-992 | the URI is found or appended, the ID names it, and a hit leaves the table unchanged |
| QNameCodec.EncodeLocalNamePart | trunk/src/grammar/src/grammars.c:996-1027 | the local name is found or appended under its URI, and a hit leaves the table unchanged |
| QNameCodec.EncodeQName | trunk/src/grammar/src/grammars.c:964-1031 | the encoded QName names a row holding exactly that URI and local name |
| QNameCodec.EncodeStringData | trunk/src/grammar/src/grammars.c:1033-1091 | it succeeds for an existing QName row; a value already in the global table changes nothing, and a new value is one AddValueRow |
| QNameCodec.RowIdFits | trunk/src/grammar/src/grammars.c:456 | a row ID below the row count fits in getBitsNumber(rowCount - 1) bits |
| QNameCodec.UriPartRoundTrip | trunk/src/grammar/src/grammars.c:421-448 | the decoder, run on the tables before encoding, returns the encoder's URI ID and tables |
| QNameCodec.LocalNamePartRoundTrip | trunk/src/grammar/src/grammars.c:450-480 | the same for the local-name part, hit and miss |
| QNameCodec.QNameRoundTrip | trunk/src/grammar/src/grammars.c:416-484 | encodeQName followed by decodeQName agree on the QName and on the grown tables |
| QNameCodec.StringValueRoundTrip | trunk/src/grammar/src/grammars.c:488-540 | every value written by encodeStringData decodes to itself with the same table growth |
| QNameCodec.LocalHitRoundTrip | trunk/src/grammar/src/grammars.c:498-509 | a value in the local cross table of the QName is written as 0 plus a local index and read back |
| QNameCodec.GlobalHitRoundTrip | trunk/src/grammar/src/grammars.c:510-518 | a value only in the global table is written as 1 plus a global index and read back |
| QNameCodec.ValueMissRoundTrip | trunk/src/grammar/src/grammars.c:519-538 | a new value is written as its length + 2 and its code points, and read back with the same table growth |
| GrammarRules.FindRule | trunk/src/grammar/src/grammars.c:738-740 | the rule search finds a rule with the current non-terminal, or reports that no rule has it |
| GrammarRules.InsertZeroProduction | trunk/src/grammar/src/grammars.c:709-724 | learning adds a production with the one-part code 0 and bumps the first part of every other code; the first width becomes that of the largest first part, and nothing else changes |
| GrammarRules.InsertZeroKeepsWellFormed | trunk/src/grammar/src/grammars.c:709-724 | learning keeps a rule well formed: codes fit their widths, widths are tight, no code is a prefix of another, and a part value determines its prefix |
| GrammarRules.InsertZeroKeepsReadable | trunk/src/grammar/src/grammars.c:709-724 | learning keeps every code part read from the stream |
| GrammarRules.MatchFrom | trunk/src/grammar/src/grammars.c:742-904 | the part loop: a selected production comes from the rule; a match has exactly b+1 parts read in a positive width, and a zero-width pick happens only past the production count |
| GrammarRules.MatchConsumes | trunk/src/grammar/src/grammars.c:800-809 | a scan that read a part and matched nothing has still consumed bits |
| GrammarRules.EventCodeRoundTrip | trunk/src/grammar/src/grammars.c:800-896 | in a well-formed, readable rule every production is matched from the encoding of its own event code, and the rest of the stream is left |
| GrammarRules.LearnedCodesDecode | trunk/src/grammar/src/grammars.c:840-888 | after learning, the new zero-code production and every bumped production are still matched from their codes |
| GrammarRules.SingleProductionPicked | trunk/src/grammar/src/grammars.c:744-799 | a rule of one production with no bits writes nothing, and that production is picked without reading |
| GrammarRules.RuleDecodes | trunk/src/grammar/src/grammars.c:742-904 | in a well-formed, decodable rule, matching the encoding of any production selects it and leaves the rest |
| BuiltinGrammars.GlobalElementProds | trunk/src/grammar/src/grammars.c:112-120 | one SE(qname) DocEnd production per global element e, with the one-part code e and the element's QName |
| BuiltinGrammars.CreateDocGrammar | trunk/src/grammar/src/grammars.c:62-204 | the document grammar has exactly three rules, Document, DocContent and DocEnd, in that order |
| BuiltinGrammars.DocGrammarLayout | trunk/src/grammar/src/grammars.c:81-201 | Document is SD DocContent with code 0 and no bits. DocContent holds SE(G-e) with code e, then SE(*) with code n, in getBitsNumber(n) bits. Outside default fidelity it takes getBitsNumber(n+1) bits and adds DT (n+1).0, CM (n+1).1.0 and PI (n+1).1.1. DocEnd is ED, plus CM 1.0 and PI 1.1 outside default fidelity |
| BuiltinGrammars.CreateDocGrammarWellFormed | trunk/src/grammar/src/grammars.c:62-204 | every rule of the document grammar is well formed and decodable |
| BuiltinGrammars.DocGrammarDecodes | trunk/src/grammar/src/grammars.c:62-204 | every production of the document grammar is recovered from its event code |
| BuiltinGrammars.CreateBuiltInElementGrammar | trunk/src/grammar/src/grammars.c:206-369 | the element grammar has two rules, StartTagContent and ElementContent, with no resume non-terminal; the productions are given by the two layout lemmas below |
| BuiltinGrammars.ElementGrammarFullLayout | trunk/src/grammar/src/grammars.c:244-366 | outside default fidelity: StartTagContent is EE 0.0, AT(*) 0.1, NS 0.2, SC 0.3, SE(*) 0.4, CH 0.5, ER 0.6, CM 0.7.0, PI 0.7.1 with bits {0,3,1}; ElementContent is EE 0, SE(*) 1.0, CH 1.1, ER 1.2, CM 1.3.0, PI 1.3.1 with bits {1,2,1} |
| BuiltinGrammars.ElementGrammarAgainstAsWritten | trunk/src/grammar/src/grammars.c:244-249 | the corrected grammar and the grammar as written have the same rules and productions; they differ only outside default fidelity, in the StartTagContent widths: {0,3,1} against {0,4,1} |
| BuiltinGrammars.ElementGrammarLayout | trunk/src/grammar/src/grammars.c:238-348 | with default fidelity: StartTagContent is EE 0.0, AT(*) 0.1, SE(*) 0.2, CH 0.3 with bits {0,2}; ElementContent is EE 0, SE(*) 1.0, CH 1.1 with bits {1,1} |
| BuiltinGrammars.CreateBuiltInElementGrammarWellFormed | trunk/src/grammar/src/grammars.c:206-369 | with corrected widths both rules are well formed and every code part is read, at every fidelity |
| BuiltinGrammars.ElementGrammarDecodes | trunk/src/grammar/src/grammars.c:206-369 | every production of the element grammar is matched from its event code |
| BuiltinGrammars.CreateBuiltInElementGrammarAsWritten | trunk/src/grammar/src/grammars.c:206-369 | the element grammar as written, with StartTagContent widths {0,4,1} outside default fidelity |
| BuiltinGrammars.StartTagContentAsWrittenNotTight | trunk/src/grammar/src/grammars.c:246-248 | as written, the second part of StartTagContent is four bits wide although no code reaches 8 |
| BuiltinGrammars.StartTagContentAsWrittenMisreads | trunk/src/grammar/src/grammars.c:246-248 | with comments preserved and bit-packing, CH (code 0.5) is the three bits 101: the corrected rule matches CH, and the rule as written runs off the end of the stream |
| GrammarStack.PushLinked | trunk/src/grammar/src/grammars.c:399-404 | pushGrammar links the grammar in front of the old top and touches no other grammar |
| GrammarStack.PopLinked | trunk/src/grammar/src/grammars.c:406-412 | popGrammar returns the top, makes its successor the top, and clears its link |
| GrammarStack.CopyGrammar | trunk/src/grammar/src/grammars.c:371-397 | copyGrammar refuses a grammar that is linked into a stack with INVALID_OPERATION, and otherwise returns an unlinked copy of its rules |
| GrammarStack.PushRefines | trunk/src/grammar/src/grammars.c:399-404 | pushing a grammar not yet on the linked stack is pushing onto the stack as a sequence |
| GrammarStack.PopRefines | trunk/src/grammar/src/grammars.c:406-412 | popping the linked stack is popping its sequence, and the popped grammar is left unlinked |
| GrammarStack.LinkedGrammarNotCopied | trunk/src/grammar/src/grammars.c:375-376 | a grammar with something below it on the stack cannot be copied |
| GrammarStack.NestedSameElementLosesDocument | trunk/src/grammar/src/grammars.c:580-590 | pushing the pooled grammar that is already on top, as a nested element of the same name does, makes it its own successor; popping it then leaves the same grammar on top, and the document grammar is no longer reachable |
| GrammarStack.PushPop | trunk/src/grammar/src/grammars.c:399-412 | pop after push returns the pushed grammar and the stack as it was |
| Runtime.LearnIn | trunk/src/grammar/src/grammars.c:632-634 | learning changes only rule i of the grammar, by insertZeroProduction |
| Runtime.Learn | trunk/src/grammar/src/grammars.c:632-634 | learning in the top grammar writes the changed grammar back to its pool entry; the stack, tables and everything else stay the same |
| Runtime.Invoke | trunk/src/grammar/src/grammars.c:562-566 | a callback that is set is called and recorded; its stop answer becomes HANDLER_STOP_RECEIVED; a callback that is not set changes nothing |
| Runtime.IsDocumentGrammar | trunk/src/grammar/src/grammars.c:950-962 | a grammar with no rules is NULL_POINTER_REF; otherwise the result says whether its first rule is Document |
| Runtime.DocumentGrammarRecognised | trunk/src/grammar/src/grammars.c:950-962 | the document grammar is recognised as one, and the built-in element grammar is not |
| Runtime.DecodeValue | trunk/src/grammar/src/grammars.c:620-631 | a string value, or one of no declared type, is decoded and reported; other value types leave the stream untouched |
| Runtime.PushElement | trunk/src/grammar/src/grammars.c:583-590 | the current grammar records the non-terminal to resume in, and the element grammar of the key goes on top; the rest of the stack, the pool and the tables are unchanged |
| Runtime.EnterElement | trunk/src/grammar/src/grammars.c:580-606 | the element grammar of the QName is pushed, and the current grammar resumes at the given non-terminal. A QName missing from the pool gets a new built-in element grammar there first; otherwise the pool is unchanged |
| Runtime.LearnUnlessDocument | trunk/src/grammar/src/grammars.c:568-577 | SE(*) learns SE(qname) in an element grammar and never in the document grammar |
| Runtime.ReadCurrentQName | trunk/src/grammar/src/grammars.c:559-566 | the QName read becomes the current one and names an existing row; the grammars are untouched |
| Runtime.DecodeStartElementAll | trunk/src/grammar/src/grammars.c:551-608 | SE(*) leaves the grammar of the new current QName on top of the stack, pooling a built-in one if needed, and continues in StartTagContent |
| Runtime.DecodeAttributeAll | trunk/src/grammar/src/grammars.c:609-635 | AT(*) learns a zero-code AT(qname) for the QName just read, in the current rule, written back to the pool |
| Runtime.DecodeStartElementQName | trunk/src/grammar/src/grammars.c:636-666 | SE(qname) pushes the pooled grammar of the current QName, and with no pooled grammar it is INCONSISTENT_PROC_STATE |
| Runtime.DecodeAttributeQName | trunk/src/grammar/src/grammars.c:667-689 | AT(qname) reads a value and leaves grammars and stack as they were |
| Runtime.DecodeEventContent | trunk/src/grammar/src/grammars.c:545-707 | the content of an event only grows the string tables and reports that event |
| Runtime.Dispatch | trunk/src/grammar/src/grammars.c:811-896 | a selected production is reported as the event, and the tables only grow |
| Runtime.DispatchLearns | trunk/src/grammar/src/grammars.c:831-889 | for EE and CH, rule i of the top grammar gains one production exactly when the code was matched by reading its last part, that part is not the first, and the top grammar is not the document grammar. The new production is insertZeroProduction of EE with the production's QName, or of CH with the current QName; otherwise the top grammar is unchanged |
| Runtime.ProcessNextProduction | trunk/src/grammar/src/grammars.c:726-910 | no rule for the current non-terminal is UNEXPECTED_ERROR; a code that matches no production after a part was read is INVALID_EXI_INPUT; a success reports the event of a production of that rule, and the tables only grow |
| RuntimeProps.ProcessSelectsEncoded | trunk/src/grammar/src/grammars.c:726-900 | under the invariant, when the stream starts with the event code of production j of the current rule, processNextProduction dispatches production j on the bits after the code and reports its event; in an element grammar it is matched at the last part of its code |
| Runtime.ProcessNextProductionAsWritten | trunk/src/grammar/src/grammars.c:905-910 | as written, a scan that matches no production still returns ERR_OK, with no event and with the bits of the code consumed |
| RuntimeProps.InitialStream | trunk/src/grammar/src/grammars.c:62-204 | decoding starts with the document grammar alone on the stack |
| RuntimeProps.InitialStreamInv | trunk/src/grammar/src/grammars.c:62-204 | the initial state satisfies the runtime invariant: the document grammar is well formed and has no AT(*), and every pooled grammar is readable |
| RuntimeProps.DocGrammarNoAttributeWildcard | trunk/src/grammar/src/grammars.c:62-204 | the document grammar has no AT(*) production, so AT(*) learning only ever happens in a pooled element grammar |
| RuntimeProps.BuiltInElementGrammarOk | trunk/src/grammar/src/grammars.c:206-369 | a new element grammar can learn in every rule and stay decodable |
| RuntimeProps.LearnedGrammarOk | trunk/src/grammar/src/grammars.c:840-888 | learning in any rule keeps an element grammar decodable |
| RuntimeProps.EnterKeepsInv | trunk/src/grammar/src/grammars.c:580-606 | pushing an element grammar keeps the invariant and the document grammar |
| RuntimeProps.StartElementAllKeepsInv | trunk/src/grammar/src/grammars.c:551-608 | SE(*) keeps the invariant and the document grammar |
| RuntimeProps.AttributeAllKeepsInv | trunk/src/grammar/src/grammars.c:609-635 | AT(*) in an element grammar keeps the invariant and the document grammar |
| RuntimeProps.EventContentKeepsInv | trunk/src/grammar/src/grammars.c:545-707 | decoding event content keeps the invariant and the document grammar |
| RuntimeProps.EndElementKeepsInv | trunk/src/grammar/src/grammars.c:831-856 | EE, with or without learning, keeps the invariant |
| RuntimeProps.CharactersKeepsInv | trunk/src/grammar/src/grammars.c:865-894 | CH, with or without learning, keeps the invariant |
| RuntimeProps.QNameEventKeepsInv | trunk/src/grammar/src/grammars.c:865-894 | SE and AT events keep the invariant |
| RuntimeProps.DispatchKeepsInv | trunk/src/grammar/src/grammars.c:811-896 | every selected event keeps the invariant |
| RuntimeProps.ProcessKeepsInv | trunk/src/grammar/src/grammars.c:726-910 | every step of processNextProduction keeps the invariant: the document grammar never changes and every pooled grammar stays decodable |
| RuntimeProps.TopRulesDecode | trunk/src/grammar/src/grammars.c:800-896 | under the invariant, every production of the grammar on top of the stack is matched from its event code |
| FallThroughExample.UnmatchedCodeFallsThrough | trunk/src/grammar/src/grammars.c:805-909 | with four global elements and default fidelity, the three bits 101 (value 5) match no DocContent production |
| FallThroughExample.FallThroughAsWrittenReportsNothing | trunk/src/grammar/src/grammars.c:905-910 | on that stream processNextProduction as written returns success with no event, and corrected it returns INVALID_EXI_INPUT |
| HeaderEncode.VersionBits | trunk/src/contentIO/src/headerEncode.c:95-109 | the version field of section 5.3 of EXI 1.0: a non-empty run of 4-bit groups |
| HeaderEncode.VersionBitsAsWritten | trunk/src/contentIO/src/headerEncode.c:95-109 | as written: 4 bits up to version 15, then 15 and a second group of 4 bits |
| HeaderEncode.DecodeVersion | trunk/src/contentIO/src/headerEncode.c:95-109 | reading a version field gives a version of at least 1 and consumes at least one group |
| HeaderEncode.VersionRoundTrip | trunk/src/contentIO/src/headerEncode.c:95-109 | every version of 1 or more reads back from its version field |
| HeaderEncode.VersionAsWrittenAgrees | trunk/src/contentIO/src/headerEncode.c:95-109 | versions 1..30 are written as section 5.3 writes them |
| HeaderEncode.VersionAsWrittenMisread | trunk/src/contentIO/src/headerEncode.c:95-109 | version 32 as written reads back as 16; the corrected field reads back as 32 |
| HeaderEncode.OptionCategories | trunk/src/contentIO/src/headerEncode.c:156-169 | uncommon implies lesscommon |
| HeaderEncode.CategoriesAgainstDefaults | trunk/src/contentIO/src/headerEncode.c:156-169 | uncommon holds exactly when alignment, selfContained, valueMaxLength, valuePartitionCapacity or the datatype representation map differs from its default; lesscommon holds exactly when one of those, preserve or blockSize does; common holds exactly when compression, fragment or schemaId does |
| HeaderEncode.NoCategoryMeansDefault | trunk/src/contentIO/src/headerEncode.c:156-284 | no category and no strict flag means exactly the default options |
| HeaderEncode.PadCursor | trunk/src/contentIO/src/headerEncode.c:292-301 | outside bit-packing, a part-written byte is closed by moving to the next byte at bit 0, which advances the offset by less than 8; otherwise the position is unchanged |
| HeaderEncode.PadBits | trunk/src/contentIO/src/headerEncode.c:292-301 | padding appends fewer than 8 zero bits up to a byte boundary outside bit-packing, and nothing in bit-packed mode |
| HeaderEncode.PadBitsAtCursor | trunk/src/contentIO/src/headerEncode.c:292-301 | padding bits and moving the cursor agree on where the body starts |
| HeaderEncode.EncodeHeader | trunk/src/contentIO/src/headerEncode.c:59-309 | without options the header is the prefix alone; with options it is prefix, options document and padding; a datatype map or schemaId with options is NOT_IMPLEMENTED_YET |
| HeaderEncode.EncodeHeaderAsWritten | trunk/src/contentIO/src/headerEncode.c:59-309 | the header as written starts with the prefix as written and fails in the same cases |
| HeaderEncode.CookieOpening | trunk/src/contentIO/src/headerEncode.c:64-78 | the cookie is 32 bits ("$EXI") and starts with 00, so it cannot be taken for the distinguishing bits 10 |
| HeaderEncode.FieldsRoundTrip | trunk/src/contentIO/src/headerEncode.c:81-109 | the distinguishing bits, the options and preview flags and the version read back |
| HeaderEncode.PrefixRoundTrip | trunk/src/contentIO/src/headerEncode.c:64-109 | cookie, flags and version read back, with or without the cookie |
| HeaderEncode.HeaderRoundTrip | trunk/src/contentIO/src/headerEncode.c:59-112 | a header without options is followed directly by the body: the prefix reads back and the body is left |
| HeaderEncode.HeaderWithOptionsRoundTrip | trunk/src/contentIO/src/headerEncode.c:112-306 | with options the prefix reads back, the options document follows it, and the padding takes fewer than 8 bits |
| SchemaStrings.StrCompare | src/grammarGen/src/grammarGenerator.c:1984-1998 | comparison returns -1, 0 or 1, and 0 exactly for equal strings |
| SchemaStrings.StrCompareIsLexicographic | src/grammarGen/src/grammarGenerator.c:1984-1998 | a negative result is exactly lexicographic order of code points, a proper prefix coming first |
| SchemaStrings.StrCompareAntisymmetric | src/grammarGen/src/grammarGenerator.c:1984-1998 | swapping the arguments negates the result |
| SchemaStrings.StrCompareTransitive | src/grammarGen/src/grammarGenerator.c:1984-1998 | the order is transitive, so qsort has a total preorder to sort by |
| SchemaStrings.InsertBySorted | src/grammarGen/src/grammarGenerator.c:2047 | inserting into a sorted sequence keeps it sorted |
| SchemaStrings.SortBy | src/grammarGen/src/grammarGenerator.c:2047-2057 | the sort returns a sorted permutation of its input |
| SchemaStrings.SortFrom | src/grammarGen/src/grammarGenerator.c:2046-2057 | sorting from position k keeps the first k rows and sorts a permutation of the rest |
| SchemaStrings.LnPrefix | src/grammarGen/src/grammarGenerator.c:2028-2044 | the local names kept in place: 4 under URI 1, 2 under URI 2, 46 under URI 3, none elsewhere |
| SchemaStrings.SortLocalNames | src/grammarGen/src/grammarGenerator.c:2026-2048 | every URI keeps its string and table presence, and each local-name table keeps its reserved prefix and sorts the rest |
| SchemaStrings.SortInitialStringTables | src/grammarGen/src/grammarGenerator.c:2020-2058 | URI rows 0-3 stay in place and the rest are sorted; the result is a permutation of the rows, and the value table is untouched |
| SchemaStrings.AddUriString | src/grammarGen/src/grammarGenerator.c:1922-1941 | a hit changes nothing; a miss appends one row to both the initial and the meta table; the ID names the URI and the tables stay in lockstep |
| SchemaStrings.AddUriStringIdempotent | src/grammarGen/src/grammarGenerator.c:1922-1941 | adding the same URI twice is adding it once |
| SchemaStrings.AddLocalName | src/grammarGen/src/grammarGenerator.c:1944-1982 | a hit changes nothing; a miss appends the name under the URI in both tables, creating the tables when absent; no other URI changes |
| SchemaStrings.AddLocalNameIdempotent | src/grammarGen/src/grammarGenerator.c:1944-1982 | adding the same local name twice is adding it once |
| SchemaStrings.CompareAttrUse | src/grammarGen/src/grammarGenerator.c:2000-2018 | attribute uses compare equal exactly when local name and URI are both equal |
| SchemaStrings.CompareAttrUseIsLexicographic | src/grammarGen/src/grammarGenerator.c:2000-2018 | a use comes first when its local name does, or when local names are equal and its URI does |
| SchemaStrings.CompareAttrUseAntisymmetric | src/grammarGen/src/grammarGenerator.c:2000-2018 | swapping two uses negates the result |
| SchemaStrings.CompareAttrUseTransitive | src/grammarGen/src/grammarGenerator.c:2000-2018 | the order on attribute uses is transitive |
| GrammarGen.DecimalStringValue | src/grammarGen/src/grammarGenerator.c:2068 | the decimal digits of n denote n |
| GrammarGen.StringToInteger | src/grammarGen/src/grammarGenerator.c:2068 | stringToInteger succeeds exactly on digits or a minus sign and digits, and fails otherwise with INVALID_STRING_OPERATION |
| GrammarGen.IntegerRoundTrip | src/grammarGen/src/grammarGenerator.c:2068 | every integer parses back from its decimal string |
| GrammarGen.ParseOccurrence | src/grammarGen/src/grammarGenerator.c:2060-2072 | it succeeds exactly on an empty attribute, "unbounded" or an integer literal, and fails otherwise with INVALID_STRING_OPERATION; it gives -1 exactly for "unbounded" or a literal worth -1, and a non-negative count only from the literal that denotes it |
| GrammarGen.OccurrenceSentinels | src/grammarGen/src/grammarGenerator.c:2062-2066 | an absent attribute means 1, and "-1" cannot be told apart from "unbounded": both give -1 |
| GrammarGen.OccurrenceOfCount | src/grammarGen/src/grammarGenerator.c:2060-2072 | a count written in decimal is parsed back as that count |
| GrammarGen.OccurrenceBounds | src/grammarGen/src/grammarGenerator.c:1604-1610 | both attributes parse, or it fails; parsed bounds with minOccurs < 0 or maxOccurs < -1 are UNEXPECTED_ERROR |
| GrammarGen.OccurrenceDefaults | src/grammarGen/src/grammarGenerator.c:1513-1519 | absent attributes give (1, 1), and n with "unbounded" gives (n, -1) |
| GrammarGen.IndexOf | src/grammarGen/src/grammarGenerator.c:2092 | getIndexOfChar finds the first occurrence, or reports that there is none |
| GrammarGen.FindPrefix | src/grammarGen/src/grammarGenerator.c:2100-2108 | the first declaration of the prefix, or none declares it |
| GrammarGen.SplitTypeLiteral | src/grammarGen/src/grammarGenerator.c:2092-2146 | splitting the literal at ':' fails only with INVALID_EXI_INPUT, for an unbound prefix |
| GrammarGen.GetTypeQName | src/grammarGen/src/grammarGenerator.c:2074-2186 | success exactly when the literal splits and its namespace passes clause 4 of the src-resolve constraint of XML Schema 1.1 Part 1 (absent only without a target namespace; otherwise the target namespace or one of the two XML Schema namespaces); failure is INVALID_EXI_INPUT; the tables stay in lockstep |
| GrammarGen.PrefixedTypeQName | src/grammarGen/src/grammarGenerator.c:2092-2183 | a bound prefix resolves to its namespace and the name after the first ':', and the result names that URI and local name |
| GrammarGen.UnboundPrefixRejected | src/grammarGen/src/grammarGenerator.c:2110-2118 | an unbound prefix is INVALID_EXI_INPUT |
| GrammarGen.GetTypeQNameIdempotent | src/grammarGen/src/grammarGenerator.c:2177-2183 | resolving the same literal again gives the same QName and changes no table |
| GrammarGen.RegisterNamespace | src/grammarGen/src/grammarGenerator.c:1579-1587 | a namespace token other than the four keywords ends up in the URI table, and the tables only grow |
| GrammarGen.AnyNamespacesAsWritten | src/grammarGen/src/grammarGenerator.c:1553-1602 | as written, an empty attribute gives the list ["##any"] |
| GrammarGen.AnyNamespacesOf | src/grammarGen/src/grammarGenerator.c:1553-1602 | corrected, an empty attribute gives the list ["##any"] |
| GrammarGen.SplitSpacesJoin | src/grammarGen/src/grammarGenerator.c:1571-1599 | the space split gives back the attribute when rejoined with spaces, and no token holds a space |
| GrammarGen.SplitLoopWithIsFold | src/grammarGen/src/grammarGenerator.c:1573-1599 | the C loop registers the tokens of the split in order, the last one only when asked to |
| GrammarGen.RegisterAllFinds | src/grammarGen/src/grammarGenerator.c:1579-1587 | registering a token list puts every non-keyword token in the URI table |
| GrammarGen.AnyNamespacesRegistered | src/grammarGen/src/grammarGenerator.c:1564-1602 | corrected, the list is the space split of the attribute and every non-keyword namespace in it is in the URI table |
| GrammarGen.AnyNamespacesAsWrittenSkipsLast | src/grammarGen/src/grammarGenerator.c:1573-1599 | as written, namespace="a b" lists both but adds only "a" to the URI table |
| GrammarGen.AnyNamespacesAddsLast | src/grammarGen/src/grammarGenerator.c:1564-1602 | corrected, namespace="a b" adds both |
| GrammarGen.EnterSchemaContent | src/grammarGen/src/grammarGenerator.c:556-591 | the first element after `<schema>` settles both form defaults (unset becomes unqualified) and registers a non-empty target namespace |
| GrammarGen.XsdStartElement | src/grammarGen/src/grammarGenerator.c:534-710 | the root must be the `<schema>` element of the XML Schema namespace; a later element is accepted exactly when it is in that namespace and is one of the eighteen elements the builder handles (element, attribute, choice, complexType, complexContent, group, import, sequence, all, extension, restriction, simpleContent, any, simpleType, minInclusive, annotation, documentation, maxLength); refusal is a handler stop |
| GrammarGen.ContentElementSettles | src/grammarGen/src/grammarGenerator.c:556-591 | the target namespace is registered once, at the first element after `<schema>`, and later elements leave the tables alone |
| GrammarGen.XsdAttribute | src/grammarGen/src/grammarGenerator.c:818-914 | an attribute of `<schema>` marks the form default or target namespace it sets, and data is then expected |
| GrammarGen.FormValue | src/grammarGen/src/grammarGenerator.c:937-957 | only "qualified" and "unqualified" are form values |
| GrammarGen.SchemaAttributeData | src/grammarGen/src/grammarGenerator.c:928-963 | the data of a `<schema>` attribute fills the pending slot or form default; a bad form value is a handler stop |
| GrammarGen.XsdStringData | src/grammarGen/src/grammarGenerator.c:916-993 | string data clears the pending target and, when the target is the targetNamespace, stores the data there, whether or not attribute data was expected; only a `<schema>` attribute's data can stop the handler, and expected data is consumed |
| GrammarGen.QualifiedElementsScenario | src/grammarGen/src/grammarGenerator.c:534-702 | `<schema elementFormDefault="qualified">` followed by one of the eighteen handled content elements ends with qualified elements and unqualified attributes |
| TypeResolution.ResolveOne | src/grammarGen/src/grammarGenerator.c:2219-2261 | a resolved type gets its own attribute uses plus those of its base, and no other type changes |
| TypeResolution.Pass | src/grammarGen/src/grammarGenerator.c:2214-2299 | a pass makes progress, or it changes nothing because no remaining base is built |
| TypeResolution.PassKeepsInv | src/grammarGen/src/grammarGenerator.c:2214-2299 | a pass keeps the split between waiting and resolved entries, and every built type is explained by a valid order |
| TypeResolution.EmptyListResolved | src/grammarGen/src/grammarGenerator.c:2212 | an empty list means every derivation was resolved and its type built |
| TypeResolution.StuckIsBlocked | src/grammarGen/src/grammarGenerator.c:2300-2303 | a pass with no progress leaves a set of derivations whose bases can never be built |
| TypeResolution.ResolveDerivedTypes | src/grammarGen/src/grammarGenerator.c:2194-2307 | success gives a valid order covering every derivation, each after its base; UNEXPECTED_ERROR comes with a blocked set |
| TypeResolution.BlockedNotCovered | src/grammarGen/src/grammarGenerator.c:2300-2303 | no valid order covers a blocked derivation |
| TypeResolution.ResolveDerivedTypesComplete | src/grammarGen/src/grammarGenerator.c:2212-2304 | resolution succeeds exactly when some order resolves every derivation after its base |
| TypeResolution.ChainResolves | src/grammarGen/src/grammarGenerator.c:2212-2304 | a chain listed base-last resolves in two passes, because the entry after a deleted one is skipped in its pass |
| TypeResolution.ResolveElementTypes | src/grammarGen/src/grammarGenerator.c:2309-2329 | each element takes both grammars of its type in list order; a type lacking either is UNEXPECTED_ERROR; when no element names another's type, success holds exactly when every type has both |
| TypeResolution.ElementTypesInListOrder | src/grammarGen/src/grammarGenerator.c:2314-2323 | an element naming another element's row succeeds only when that element comes first in the list |

## Left out

- I/O, buffering and the refill of the stream buffer are not modelled. The
  stream is the sequence of bits still to read, and running out of bits is
  BUFFER_END_REACHED.
- Memory management (allocation lists, `memManagedAllocate`) and its
  MEMORY_ALLOCATION_ERROR paths are not modelled. The grammar pool's
  hashtable is a map keyed by (URI ID, local-name ID).
- Content-handler callbacks are a set of callbacks that are present, plus
  an oracle that says whether a call answers "stop". The calls made are
  recorded as a trace. EXIP_HANDLER_STOP becomes HANDLER_STOP_RECEIVED.
- The floating-point arithmetic of `decodeFloatValue` (the `long double`
  power-of-ten loop) is not modelled. A float is its mantissa and exponent
  pair, or one of the three special values.
- StreamDecode.DecodeIntegerValue: a negative integer decodes to -magnitude,
  as the C code does. Section 7.1.5 of EXI 1.0 encodes a negative value as
  magnitude - 1, so the model follows the code and not the standard.
- StreamDecode.DecodeUnsignedInteger: the magnitude is an unbounded
  natural number. The C code adds into an `unsigned int`, which wraps
  modulo 2^32, and its `int` multiplier overflows from the sixth 7-bit group
  on; the model does not promise the wrapped value for such inputs.
- StreamDecode.DecodeUnsignedIntegerLoop: the same unbounded sum as
  DecodeUnsignedInteger, without the 32-bit wrap of the accumulator or the
  overflow of the multiplier.
- StreamEncode.UnsignedIntegerRoundTrip: holds for every natural number;
  the C code only round-trips values below 2^32 that fit in five groups.
- StreamEncode.IntegerRoundTrip: holds for every integer; the C code reads
  the magnitude through an `int*` and negates it, so magnitudes of 2^31 and
  more do not come back.
- StreamDecode.DecodeIntegerValue: the result is an unbounded integer, not
  the `int` the C code writes through its pointer.
- Runtime.EnterElement: pools the element grammar with the corrected
  StartTagContent widths of the first finding below, not the grammar
  `createBuiltInElementGrammar` builds. The two differ only outside default
  fidelity (ElementGrammarAgainstAsWritten), and the as-written grammar is
  kept as StartTagContentAsWrittenMisreads.
- BuiltinGrammars.CreateBuiltInElementGrammar: builds the corrected grammar
  and not the one written in grammars.c, for the same reason.
- RuntimeProps.BuiltInElementGrammarOk: holds for the corrected grammar; the
  as-written one also has readable parts but misreads codes.
- Runtime.PushElement: the grammar stack is a sequence of frames, one per
  open element, and each frame keeps its own resume non-terminal. The C
  code links the pooled grammar objects themselves into the stack and
  writes the shared grammar's `lastNonTermID` (grammars.c lines 583 and
  654), so nested elements with the same QName share one entry; the model
  follows the corrected stack of the fifth finding below.
- Runtime.DecodeStartElementQName: resumes each element in its own frame's
  non-terminal, for the same reason; the C code resumes in the one value
  last written into the shared grammar.
- Runtime.DecodeStartElementAll: pushes on the same per-element stack.
- The options document inside the header is a parameter of EncodeHeader.
  Its serializer (`serEXI.*`) is not part of this model, and neither are
  the option-category element codes.
- HeaderEncode.EncodeHeader: requires a version of at least 1. The C code
  writes version - 1 in four bits and would wrap for version 0.
- HeaderEncode.PadBits: the padding decision uses the same options as the
  categories. The C code reads the header options for the categories and
  the stream's options for the padding; the model has one options record.
- The bodies of several helpers are not part of this model. They are
  modelled from their uses and from EXI 1.0:
  - `insertZeroProduction`: new code 0, every other first part bumped by
    one, the first width recomputed;
  - `lookupURI`, `lookupLN`, `lookupLV`, `lookupVal`: first match;
  - `addLVRow`;
  - `getBitsNumber`: the least width;
  - `stringCompare`: code-point lexicographic order;
  - `stringToInteger`: an optional '-' and decimal digits;
  - `getIndexOfChar`;
  - `delDynElement`: removes the entry and shifts the rest;
  - `UCSToChar`: a decoded code point is kept as it is (see the
    StreamDecode.DecodeStringOnly line below).
- StreamDecode.DecodeStringOnly: keeps every decoded code point. The C
  code narrows each one through `UCSToChar` into a `CharType`, which is
  `unsigned char` unless `CHAR_TYPE` is overridden at build time, so in the
  default build a code point above 255 cannot survive. The string round
  trips hold in the C code only for strings whose code points `CharType`
  can hold.
- StreamDecode.DecodeString: the same, for the length-prefixed string.
- QNameCodec.DecodeUriPart: a URI added on a miss keeps its code points
  unnarrowed, as DecodeStringOnly does; later lookups compare those.
- QNameCodec.DecodeLocalNamePart: the same, for a local name added on a
  miss.
- QNameCodec.DecodeStringValue: the same, for a value added on a miss.
- GrammarRules.MatchFrom: a zero-width part whose chosen production index
  is at or past the production count returns OUT_OF_BOUND_BUFFER. The C
  code indexes `prodArray` there without a check, which is undefined
  behaviour.
- QNameCodec.LnRowAt: an out-of-range URI or local-name ID read from the
  stream is undefined behaviour in the C code. The model returns
  OUT_OF_BOUND_BUFFER or NULL_POINTER_REF instead.
- GrammarGen.OccurrenceBounds: the C code adds the two error codes of
  `parseOccuranceAttribute` together. The model returns the first error
  instead of their sum.
- SchemaStrings.SortFrom: a local-name table shorter than its reserved
  prefix would make the C length `rowCount - initialEntries` wrap. The model
  leaves such a table as it is.
- SchemaStrings.AddLocalName: requires a URI ID in range, as the C code
  indexes the row without a check.
- GrammarGen.GetTypeQName: requires the initial and meta tables to be in
  lockstep, which every builder step keeps.
- The XML Schema 1.1 src-resolve clauses 4.1.2 and 4.2.2 (`<import>`) are
  not modelled. The C code stubs them with `TRUE`, and the model does the
  same.
- `sortAttributeUseGrammars` and the proto-grammar composition calls are
  not modelled. These calls are `createSequenceModelGroupsGrammar`,
  `createComplexTypeGrammar`, `assignCodes` and `convertProtoGrammar`, and
  their bodies are not part of this model. A resolved type is its list of
  attribute uses.
- The element-description attribute slots (`name`, `type`, `ref`, …) that
  `xsd_attribute` points `charDataPointer` at are not modelled. Only the
  `<schema>` attributes and the targetNamespace slot are.
- The other `handle*El` functions of grammarGenerator.c are not modelled.
  The exceptions are the occurrence checks and the namespace list of
  `handleAnyEl`.
- Runtime.DecodeEventContent: only the event kinds the C function handles
  are modelled: SE(*), AT(*), SE(qname), AT(qname) and CH. The others
  report their event with no content, as the C code does.

## Findings

| source | as written | input that shows it | evidently intended | confidence | as-written member | corrected member |
|---|---|---|---|---|---|---|
| trunk/src/grammar/src/grammars.c:246-248 | outside default fidelity the second part of StartTagContent is 4 bits wide | bit-packed stream with comments preserved, CH event written as 0.5 in 3 bits: `101` | getBitsNumber(7) = 3 bits, as EXI 1.0 section 6.2 gives for codes 0..7 | not executed | BuiltinGrammars.StartTagContentAsWrittenMisreads | BuiltinGrammars.CreateBuiltInElementGrammarWellFormed |
| trunk/src/contentIO/src/headerEncode.c:95-109 | versions above 15 are written as 15 and then version - 16 in 4 bits, whatever their size | version 32 is written as `1111 0000`, which reads back as 16 | the 4-bit groups of EXI 1.0 section 5.3, with 15 repeated while the remainder is 15 or more | not executed | HeaderEncode.VersionAsWrittenMisread | HeaderEncode.VersionRoundTrip |
| trunk/src/grammar/src/grammars.c:905-910 | when the part read matches no production the loops end and ERR_OK is returned with no event | DocContent with four global elements at default fidelity, stream `101` | an error for an event code that names no production | not executed | FallThroughExample.FallThroughAsWrittenReportsNothing | Runtime.ProcessNextProduction |
| src/grammarGen/src/grammarGenerator.c:1573-1599 | the token after the last space is put in the wildcard list but never passed to `addURIString` | `<any namespace="a b">`: "b" is not added to the URI table | every namespace of the list registered | not executed | GrammarGen.AnyNamespacesAsWrittenSkipsLast | GrammarGen.AnyNamespacesAddsLast |
| trunk/src/grammar/src/grammars.c:580-590 | a nested element with the same QName pushes the pooled grammar that is already on top, linking it to itself | `<a><a/></a>` in schema-less decoding: the inner start tag is SE(*) in the grammar of `a`, which learns SE(a); the pool hit then pushes the grammar of `a` onto itself | a stack entry per element, as a sequence stack gives | not executed | GrammarStack.NestedSameElementLosesDocument | GrammarStack.PushPop |
| streamIO/src/streamDecode.c:218-235 | the special values are stored as the bit patterns 0x7f800000, 0xff800000 and 0x7fc00000, converted to numbers | the float +INF (mantissa 1, exponent -16384) decodes to 2139095040 | +INF, -INF and NaN themselves | not executed | StreamEncode.FloatInfinityAsWritten | StreamEncode.FloatRoundTrip |
