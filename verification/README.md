# Protowire: verified core

A Dafny model of the parts of protowire that carry a correctness rule of their
own, with proofs that they keep it. Each module follows one component:

- `Powers`, `Rounding`, `Decimals`, `BigFloatText`, `BigFloat`, `BigFloatShape`,
  `BigFloatReading`, `BigFloatCodec`, `BigFloatWire`: the text and binary forms of a BigFloat. The loops work on
  integers and pairs of integers and are proved against exact numbers
  (roundTiesToEven of section 4.3.1 of IEEE 754-2008, the `%g` layout of section
  7.21.6.1 of C11). The central results are that writing and then reading at P bits
  is rounding to P bits, for every input, and that the text written is the one text of
  the general form that denotes the decimal shown.
- `Wire`, `WireGrammar`, `FieldOrder`, `Carriers`, `CarrierMembers`, `CarrierOrder`, `CarrierCodec`,
  `CarrierTrees`: field records of the Protocol Buffers encoding and their grammar, the tool that puts them in field-number order, and
  the readers of annotation and function carriers. Reordering is a normal form, and
  the readers are shown to agree before and after it exactly when each argument ends
  in its highest-numbered kind of value.
- `RuleText`, `RuleLexical`, `RuleMapper`, `RuleConstraints`, `JsonValues`, `RuleFields`:
  validation rules to JSON Schema keywords (sections 6.1.2 and 6.2 to 6.5 of JSON Schema
  Validation 2020-12), from the rule language's literals to the JSON forms of field values
  (section 4 of RFC 4648 for bytes). `RuleReading`, `RuleLimits`, `RuleRows` and `RuleTruth`
  say of the shapes of rules when the translation keeps a meaning and when not, `RuleTaken`
  when a conjunct is taken in whatever came before it, and `RuleExamples` shows it at texts.
- `ApiModel`, `SchemaBuilder`, `SchemaMeaning`, `Audience`, `AudienceClosure`: components of an
  OpenAPI document, emitted depth first, the JSON values they accept, and the check that makes filtering by audience
  reference-closed.
- `PathTemplate`, `Binding`: path templates, and which fields of a request bind to
  the path, the query string or the body.
- `Operations`: what operations refer to, and the components of the whole document.
- `PageLines`, `Paginator`: the draft paginator, on lines and byte for byte.
- `Tokenizer`, `TokenRuns`, `SearchIndex`, `Chains`, `Redirects`, `ParentChains`: the doc-pack
  compiler's full-text index, redirect table and navigation tree.
- `SchemaRegistry`, `RegistryRuns`: the schema registry, in which a document's types
  shadow external ones.
- `SbeLayout`, `SbeBlocks`, `SbeEncodings`: the block layout of FIX Simple Binary Encoding.
- `EditDistance`, `AnonymousProtos`, `Inference`: the suggestion distance, the
  matching of anonymous protos to datasets, and column type inference.
- `Options`, `Seqs`, `Sorting`, `Lexical`, `GoText`: what several of these share.

Code that works step by step is written with methods, loops, classes and arrays, each
proved equal to a function of its input or old state; what the source promises is
then proved of that function.

`dafny verify dfyconfig.toml` checks the project.

## Where the code and its own comments differ

- `docpack/index.go:39-40` says that the parts of a joined token share its position.
  The code gives every emitted token an ordinal of its own: they share one exactly when
  the token has no part that is indexed beside it (`SearchIndex.TokenSharesIff`;
  `SearchIndex.ThreePositions` is an example).
- `scripts/repaginate_draft.py:29-30` promises idempotence outright. It fails when an
  entirely blank page 2 is followed by a blank line (`Paginator.BlankPageTwoShifts`);
  `Paginator.RepaginateTwice` says exactly when it holds.
- `scripts/pb_field_order/main.go:94-95` reorders records of different numbers freely.
  The argument reader lets the last of several value members win across numbers, so an
  argument that carries two is read differently afterwards
  (`CarrierOrder.TwoMembersNotKept`); `CarrierOrder.ArgKept` says exactly when it is not.
- `internal/openapi/validate.go:10-13` says that no constraint disappears at the boundary.
  Keywords look at the JSON form of a value, and rules at the value. `RuleFields` says for
  each kind of field and each keyword exactly when the two agree. They do not for sizes of
  bytes, which are strings in base 64 (`RuleExamples.BytesOf32Refused`), for bounds on
  64-bit integers, which are strings (`RuleExamples.WideAboveZeroLost`), for lists of
  numbers on these and on enums (`RuleExamples.OneTwoRefused`), for lists on a field whose
  type admits null, and for patterns on anything but strings.
- `internal/openapi/validate.go:362-375` reads a literal by dropping backslashes, where
  `docs/RFC-001-schema-extensions.md:381-392` gives it the escapes of Protocol Buffers:
  `RuleLimits.PatternKeepsIff` and `RuleLimits.ElementSumKeepsIff` say exactly when that is
  the same, and `RuleExamples.NewlineRead` when not. Integers with a leading zero are octal
  in the rule language and decimal to the mapper (`RuleMapper.SizeKeepsIff`,
  `RuleMapper.NumericKeepsIff`, `RuleExamples.OctalSizeRead`).
- `internal/openapi/validate.go:57-83` splits a rule at `&&` alone. A rule whose top
  level holds an `||` is split inside its operand: `RuleLimits.OrOfAndsKept`, and
  `RuleMapper.LooserOr`, `RuleLimits.LooserOrBefore` and `RuleLimits.LooserOrBetween` for
  single shapes, say for which values the meaning stays, and `RuleTruth.OrTextRefused`
  gives a rule and a value. Lists of literals joined by `||` are read as one list, and the
  literals next to the `||` as one text (`RuleRows.OrListsKeepIff`, `RuleRows.OrNotInLost`,
  `RuleExamples.OrInRefused`). A size bound at the end of the
  64-bit range wraps around (`RuleMapper.SizeKeepsIff`).
- `?:` and `+` are not in the grammar of `docs/RFC-001-schema-extensions.md:386-404`, so a
  conforming compiler refuses them, and only images lowered before that grammar can hold
  them; `RuleLimits.LooserCondition`, `RuleLimits.LooserBranch` and
  `RuleLimits.MatchSumKeepsIff` say what the mapper makes of such images.
- `internal/openapi/operations.go:365-382` lets one path bind a message and a field inside
  it, where the message is a well-known type; the binding is then no exact cut
  (`Binding.CutIffPrefixFree`, `Operations.AnyTwiceBound`).
- `internal/schemaresolve/schemaresolve.go:138-140` says that a replaced type's nested
  types go with it. Those of the definition registered last do; all of them do exactly
  when no other known name of the scope comes from elsewhere
  (`RegistryRuns.ScopeGoesIff`, `RegistryRuns.RunScopesGoIff`). With two external
  definitions of one name, those of the first stay (`RegistryRuns.TwoExternalsLeaveOne`).

## Model

| member | source | states |
|---|---|---|
| Rounding.HalfEvenNearest | testdata/bigfloat/generate.py:81-86 | the half-even quotient is the integer nearest to the fraction, the even one on a tie, against every other integer |
| Rounding.RoundIsNearest | testdata/bigfloat/generate.py:89-97 | no number of at most P bits is nearer to v than v rounded to P bits; on a tie the significand is even |
| Rounding.RoundMonotone | testdata/bigfloat/generate.py:89-97 | rounding to P bits keeps the order of positive numbers |
| Rounding.RoundIdempotent | testdata/bigfloat/generate.py:89-97 | a rounded number rounds to itself at the same precision |
| Rounding.NormalUnique | testdata/bigfloat/generate.py:136-147 | the P-bit significand and exponent of a rounded number are the only ones of that size, the carry to 2^P included |
| Powers.ExponentUnique | testdata/bigfloat/generate.py:106-111 | one exponent only has base^e <= v < base^(e+1) |
| Decimals.NumeralLengthIs | testdata/bigfloat/generate.py:41-43 | a positive number has k decimal digits exactly when it lies between 10^(k-1) and 10^k |
| BigFloat.DigitsForBound | testdata/bigfloat/generate.py:41-43 | N, one more than the digits of 2^P, gives 10^(N-1) > 2^P |
| BigFloat.LeadingRange | testdata/bigfloat/generate.py:106-115 | the N digits shown lie between 10^(N-1) and 10^N, after the carry when they round up to 10^N |
| BigFloat.ShownIsNear | testdata/bigfloat/generate.py:106-115 | the decimal shown is within half a unit of its last digit |
| BigFloat.ShownRoundsBack | testdata/bigfloat/generate.py:100-147 | whenever 10^(N-1) > 2^P, the N-digit decimal of a P-bit number rounds back to that number, next to a power of two as well |
| BigFloat.PowerOfTwoEdge | testdata/bigfloat/generate.py:100-147 | the power-of-two edge, where the binade below is twice as fine: the decimal of 2^e still rounds back to it |
| BigFloatText.LayoutValue | testdata/bigfloat/generate.py:116-124 | each of the %g layouts (exponent, positional, leading zeros) denotes the digits at their decimal exponent |
| BigFloatText.LayoutWellFormed | testdata/bigfloat/generate.py:116-124 | every layout is a literal of the form the reader takes apart |
| BigFloatText.SplitOfRender | testdata/bigfloat/generate.py:126-132 | taking a rendered literal apart at sign, p, e and point gives back its parts |
| Decimals.ValueOfStripped | testdata/bigfloat/generate.py:116 | stripping trailing zeros of the digits loses exactly that power of ten |
| BigFloat.ReadOfLayout | testdata/bigfloat/generate.py:126-147 | reading a layout with precision P is reading the number it denotes at P bits |
| BigFloat.RoundTrip | testdata/bigfloat/generate.py:41-43 | for every mantissa, exponent, precision and sign, reading what was written gives the unique P-bit significand and exponent of mantissa times 2^exponent rounded to P bits; a zero keeps precision and sign |
| BigFloat.WrittenInjective | testdata/bigfloat/generate.py:100-147 | equal texts mean equal rounded values, precisions and signs |
| BigFloatShape.WrittenGeneral | testdata/bigfloat/generate.py:100-124 | taken apart, the text of a positive BigFloat is the general form of the decimal shown: with an exponent exactly when the decimal's own exponent is below -4 or at least the number of digits, then one nonzero digit before the point and the exponent signed in two digits or more; no needless zero before the point, in the exponent or in the precision, none at the end of the fraction; and it is spelled from these parts |
| BigFloatShape.GeneralUnique | testdata/bigfloat/generate.py:116-124 | one number has one text of that form |
| BigFloatShape.WrittenIsTheGeneral | testdata/bigfloat/generate.py:100-124 | so any text of that form that denotes the decimal shown, with the precision and sign, is the text written |
| BigFloatShape.WrittenZero | testdata/bigfloat/generate.py:100-104 | a zero is the digit alone with its sign and precision, and without a precision when there is none |
| BigFloatReading.ReadIff | testdata/bigfloat/generate.py:126-147 | a text is read exactly when it is signs, digits, a point with digits, an exponent and a precision, of which any may be missing |
| BigFloatReading.ReadOfSpelled | testdata/bigfloat/generate.py:126-147 | every such text is read as what it denotes: its digits shifted by the exponent, rounded to its precision, 256 bits when it names none, in the one normal form; a zero keeps the precision it names |
| BigFloatCodec.RoundHalfEven | testdata/bigfloat/generate.py:81-86 | the division with remainder computes the half-even rounding of the fraction |
| BigFloatCodec.FindScale | testdata/bigfloat/generate.py:92-95 | both scaling loops end, at the exponent that puts v between 2^(P-1) and 2^P |
| BigFloatCodec.RoundToPrec | testdata/bigfloat/generate.py:89-97 | the result is v rounded to P bits |
| BigFloatCodec.FindExponent | testdata/bigfloat/generate.py:107-111 | both decimal loops end with 10^k <= v < 10^(k+1) |
| BigFloatCodec.WriteLiteral | testdata/bigfloat/generate.py:100-124 | writing with fractions of integers gives the text of the exact-number specification, which BigFloatShape.WrittenIsTheGeneral says is the one text of the general form |
| BigFloatCodec.ReadLiteral | testdata/bigfloat/generate.py:126-147 | reading with fractions of integers gives the mantissa, exponent, precision and sign of the exact-number specification, which BigFloatReading.ReadOfSpelled says is the number the text denotes |
| BigFloatWire.Varint | testdata/bigfloat/generate.py:52-62 | the loop writes the base-128 form of n modulo 2^64 |
| BigFloatWire.EncodeRoundTrip | testdata/bigfloat/generate.py:65-78 | reading the message written for a mantissa, int32 exponent, uint32 precision and sign gives them back, zero fields left out and negative exponents included |
| BigFloatWire.EncodeInjective | testdata/bigfloat/generate.py:65-78 | two BigFloats with the same bytes are the same |
| BigFloatWire.EncodeSpelled | testdata/bigfloat/generate.py:65-78 | the message byte by byte: fields that are not zero in the order of their numbers, after the tag of field 1 and their number |
| BigFloatWire.BigEndianIs | testdata/bigfloat/generate.py:69-71 | the mantissa's bytes are the ones without a leading zero that stand for it |
| BigFloatWire.BigFloatPb | testdata/bigfloat/generate.py:65-78 | the bytes are the field records in number order inside field 1 of the holder |
| Wire.ConsumeEncoded | cmd/protoc-gen-pxf-go/schema_extensions.go:298-320 | every number below 2^64 written as a varint is read back with its length, whatever follows |
| Wire.RecordLocal | scripts/pb_field_order/main.go:102-114 | what record stands at the front of a message does not depend on the bytes after it, groups included |
| Wire.RecordsOfConcat | scripts/pb_field_order/main.go:102-114 | the records of concatenated records are those records |
| WireGrammar.ConsumeVarintIff | cmd/protoc-gen-pxf-go/schema_extensions.go:298-320 | a varint is consumed exactly when up to ten bytes of the grammar stand at the front, and its value is the sum of byte i's low seven bits times 128^i |
| WireGrammar.NextRecordIff | scripts/pb_field_order/main.go:102-114 | the record at the front is the tag and value that the grammar has there (varint, 4 or 8 bytes, bytes after their length, a group of fields nested to at most 10000), and there is none exactly when the grammar has none |
| WireGrammar.EncodedIsLeast | testdata/bigfloat/generate.py:52-62 | the varint written for a number has that value and no needless byte |
| WireGrammar.LeastVarintUnique | testdata/bigfloat/generate.py:52-62 | and there is no other such varint |
| FieldOrder.CanonEqual | scripts/pb_field_order/main.go:94-130 | two record trees have one normal form exactly when, for every field number and at every level, they hold the same records in the same order |
| FieldOrder.SameIsEquivalence | scripts/pb_field_order/main.go:94-130 | agreeing number by number at every level is reflexive, symmetric and transitive |
| FieldOrder.CanonSame | scripts/pb_field_order/main.go:94-130 | the normal form holds the same records and is its own normal form |
| FieldOrder.CanonLength | scripts/pb_field_order/main.go:94-130 | every message and every length prefix keeps its length |
| FieldOrder.OrderedDecodes | scripts/pb_field_order/main.go:96-130 | the reordered message is accepted again and decodes to the normal form |
| FieldOrder.OrderedIdempotent | scripts/pb_field_order/main.go:96-130 | the output is as long as the input, and reordering it changes nothing |
| FieldOrder.OrderedEqual | scripts/pb_field_order/main.go:94-130 | two accepted messages are reordered to the same bytes exactly when they agree number by number, at every level |
| FieldOrder.OrderedIff | scripts/pb_field_order/main.go:94-130 | the output is the one message with ascending numbers, at every level, that agrees with the input number by number at every level |
| FieldOrder.DecodeIff | scripts/pb_field_order/main.go:96-130 | a message is accepted exactly when its bytes are those of a valid tree of records, which is what it decodes to |
| FieldOrder.SameBySwaps | scripts/pb_field_order/main.go:94-130 | messages agree number by number exactly when swaps of neighbouring records of different numbers, at any depth, bring both to one message |
| FieldOrder.StepCanon | scripts/pb_field_order/main.go:94-130 | one such swap does not change the normal form |
| FieldOrder.Reorder | scripts/pb_field_order/main.go:96-130 | the loop over records with its recursion and stable sort returns the bytes of the normal form, or fails exactly on malformed input |
| Carriers.ForEachMessageField | cmd/protoc-gen-pxf-go/schema_extensions.go:298-320 | exactly the length-delimited payloads of the field number, in order, up to the first malformed record |
| Carriers.LastStrings | cmd/protoc-gen-pxf-go/schema_extensions.go:324-346 | the last string of each number, empty when there is none |
| Carriers.ParseAnnotationArg | cmd/protoc-gen-pxf-go/schema_extensions.go:177-237 | the last name, the last value of each member, and the kind of the last value member of all, from the bytes as CarrierMembers says |
| CarrierMembers.LastValueSays | cmd/protoc-gen-pxf-go/schema_extensions.go:177-237 | the last value member, by its bytes and whatever stands around it, gives the kind and the value: bytes after their length, a varint as a signed number of 64 bits or as whether it is zero, eight bytes as the sum of byte i times 256^i, or only the kind of a literal or expression |
| CarrierMembers.LastNameSays | cmd/protoc-gen-pxf-go/schema_extensions.go:177-191 | the last name, whatever stands around it, is the argument's name |
| CarrierMembers.OtherFieldsIgnored | cmd/protoc-gen-pxf-go/schema_extensions.go:177-237 | any other field, in any place, changes nothing of what is read |
| Carriers.ParseAnnotation | cmd/protoc-gen-pxf-go/schema_extensions.go:145-174 | the last name and every argument in order |
| Carriers.ParseAnnotationList | cmd/protoc-gen-pxf-go/schema_extensions.go:136-142 | every annotation of the list in order |
| Carriers.ParseFunctionDecl | cmd/protoc-gen-pxf-go/schema_extensions.go:249-294 | name, parameters in order, and options by key, the last entry of a key winning and an empty key dropped |
| Carriers.ParseFileFunctions | cmd/protoc-gen-pxf-go/schema_extensions.go:240-246 | every declaration of the file in order |
| CarrierOrder.ArgKept | cmd/protoc-gen-pxf-go/schema_extensions.go:177-237 | reordering an argument keeps what is read exactly when its last value member is of the kind of its highest-numbered one |
| CarrierOrder.OneMemberKeeps | cmd/protoc-gen-pxf-go/schema_extensions.go:177-237 | an argument with at most one value member meets that condition |
| CarrierOrder.ListKept | cmd/protoc-gen-pxf-go/schema_extensions.go:136-174 | reordering an annotation list keeps what is read exactly when every argument in it is kept |
| CarrierOrder.DeclKept | cmd/protoc-gen-pxf-go/schema_extensions.go:249-294 | reordering a function declaration keeps what is read exactly when the last value of every option is kept |
| CarrierOrder.FunctionsKept | cmd/protoc-gen-pxf-go/schema_extensions.go:240-294 | reordering a file's declarations keeps what is read exactly when each declaration is kept |
| CarrierOrder.TwoMembersNotKept | cmd/protoc-gen-pxf-go/schema_extensions.go:177-237 | an integer value followed by a string value is read differently once reordered |
| CarrierCodec.ArgRoundTrip | cmd/protoc-gen-pxf-go/schema_extensions_test.go:32-58 | reading an encoded string, integer, float, boolean, bytes, literal or expression argument gives its name and value, of the last two the kind only |
| CarrierCodec.AnnotationRoundTrip | cmd/protoc-gen-pxf-go/schema_extensions_test.go:61-67 | reading an encoded annotation gives its name and what its arguments read as |
| CarrierCodec.ListRoundTrip | cmd/protoc-gen-pxf-go/schema_extensions_test.go:70-76 | reading an encoded list gives what each of its annotations reads as |
| CarrierCodec.ParamRoundTrip | cmd/protoc-gen-pxf-go/schema_extensions_test.go:79-82 | reading an encoded parameter gives its name and type |
| CarrierCodec.OptionRoundTrip | cmd/protoc-gen-pxf-go/schema_extensions_test.go:85-88 | reading an encoded option entry gives its key and value |
| CarrierCodec.DeclRoundTrip | cmd/protoc-gen-pxf-go/schema_extensions_test.go:92-101 | reading an encoded declaration gives its name, parameters and options |
| CarrierTrees.ListReadsBack | cmd/protoc-gen-pxf-go/schema_extensions_test.go:32-76 | nested annotations, written as carrier bytes all the way down, are read back as the same names, arguments and values, whenever integers and floats are 64 bits wide and the whole is shorter than 2^64 bytes |
| CarrierTrees.FileReadsBack | cmd/protoc-gen-pxf-go/schema_extensions_test.go:79-110 | the functions of a file, written as carrier bytes all the way down, are read back with the same names, parameters and settings, a later setting of a key replacing an earlier one |
| CarrierTrees.FunctionsRoundTrip | cmd/protoc-gen-pxf-go/schema_extensions_test.go:104-110 | reading an encoded file function list gives what each of its declarations reads as |
| CarrierCodec.OptionsValue | cmd/protoc-gen-pxf-go/schema_extensions.go:249-294 | an option has the value of the last entry with its key |
| CarrierCodec.OptionsKeys | cmd/protoc-gen-pxf-go/schema_extensions.go:249-294 | an option is there exactly when an entry has its key and the key is not empty |
| CarrierCodec.ReadOfConcat | cmd/protoc-gen-pxf-go/schema_extensions.go:136-142 | reading two well-formed carriers in a row is reading one and then the other |
| CarrierCodec.ReadAnnotations | cmd/protoc-gen-pxf-go/schema_extensions.go:92-98 | the annotations of every occurrence of the carrier, in order |
| CarrierCodec.SplitCarrier | cmd/protoc-gen-pxf-go/schema_extensions.go:89-98 | a carrier split over two occurrences is read like the whole |
| RuleText.SplitOfJoin | internal/openapi/validate.go:255-278 | closed pieces joined by a separator are split into just those pieces |
| RuleText.JoinOfPieces | internal/openapi/validate.go:255-278 | the pieces of any text, joined by the separator, are the text |
| RuleText.ComparedSplits | internal/openapi/validate.go:337-359 | a comparison's left side, operator and right side make up the text |
| RuleText.RawArgsSplit | internal/openapi/validate.go:296-312 | a call's arguments, joined by commas inside name and parentheses, are the text |
| RuleText.SkipString | internal/openapi/validate.go:281-292 | past the closing quote of the literal; one past the end of the text when an escape is cut off there |
| RuleText.SplitTopLevel | internal/openapi/validate.go:255-278 | the scan over quotes and brackets returns the top-level pieces |
| RuleText.Balanced | internal/openapi/validate.go:314-332 | true exactly when brackets outside literals never close early and all close |
| RuleText.BalancedIff | internal/openapi/validate.go:314-332 | a text without literals is balanced exactly when no front of it closes more brackets than it opens, and all of it as many |
| RuleText.SplitComparison | internal/openapi/validate.go:337-359 | the first comparison operator at the top level and its two sides, or none |
| RuleText.CallArgs | internal/openapi/validate.go:296-312 | the trimmed arguments of a call that is the whole text, or none |
| RuleLexical.UnescapeIsProto | internal/openapi/validate.go:362-375 | the unquoted inside of a literal is never shorter than what the literal denotes by the lexical forms of Protocol Buffers (simple, octal, hexadecimal and Unicode escapes, as UTF-8), and is the same exactly when every escape stands for its own character |
| RuleLexical.LiteralTextIff | internal/openapi/validate.go:362-375 | a literal is read as the text it denotes exactly when every escape in it is of a backslash, a quote or a question mark |
| RuleLexical.Utf8Injective | docs/RFC-001-schema-extensions.md:381-392 | texts with the same UTF-8 bytes are the same, so a literal denotes one text at most |
| RuleLexical.ParseIntIff | internal/openapi/validate.go:105-121 | an integer literal is read as the number it denotes exactly when it is decimal, that is, when a leading zero leaves the octal number the same |
| RuleMapper.ConjunctKeeps | internal/openapi/validate.go:86-198 | one conjunct that is plain (literals without other escapes than a character's own, decimal integers, lists of one kind, no bound that wraps): taken in, it adds exactly its meaning to the bounds; not taken in, no more than its meaning, the half-applied == included |
| RuleMapper.SizeKeepsIff | internal/openapi/validate.go:154-176 | a size bound keeps its meaning for every value exactly when its number is decimal and adding or taking one does not wrap the 64-bit integer |
| RuleMapper.NumericKeepsIff | internal/openapi/validate.go:178-198 | a numeric bound keeps its meaning for every value exactly when it is an == (which is carried through) or its number, if an integer, is decimal |
| RuleTaken.NumberTakenIff | internal/openapi/validate.go:178-198 | whatever has been accumulated, a numeric bound is taken in exactly when its number is read and no bound of its own side is set; it sets that bound and nothing else |
| RuleTaken.SizeTakenIff | internal/openapi/validate.go:154-176 | whatever has been accumulated, a size bound is taken in exactly when its integer is read and the bounds it sets are free, both for ==, which sets the least even when the greatest is not free; what it sets is its integer, or one less or more as 64 bits wrap |
| RuleTaken.PatternTakenIff | internal/openapi/validate.go:86-95 | a pattern is taken in exactly when none is set, and sets the pattern only |
| RuleTaken.ListTakenIff | internal/openapi/validate.go:127-152 | a list is taken in exactly when none is set, and sets the list only |
| RuleTaken.ConjunctsInTurn | internal/openapi/validate.go:57-83 | conjuncts in two parts are taken in one part after the other, and the leftovers of the first come first |
| RuleTaken.RuleOfAnd | internal/openapi/validate.go:57-83 | of a rule that is a conjunction the leftovers are its conjuncts not taken in, with its code and message |
| RuleTaken.RangeTranslated | internal/openapi/validate.go:57-243 | a rule of a lower and an upper bound, in either order, is translated to just these two keywords and no x-validation |
| RuleTaken.UnitRangeTranslated | docs/RFC-001-schema-extensions.md:460 | so at the text this >= 0.0 && this <= 1.0: minimum 0, maximum 1, and nothing besides |
| RuleTaken.KeywordsOrdered | internal/openapi/validate.go:202-243 | the keywords stand in one order, each at most once |
| RuleReading.UnquoteOfSum | internal/openapi/validate.go:362-375 | literals with any text between them, a plus sign or the brackets and the OR of two lists, are unquoted as one text, quotes and all |
| RuleReading.TakenIsMeantIff | internal/openapi/validate.go:362-375 | the text literals in a row are unquoted to is the text they denote exactly when there is one literal and every escape in it stands for its own character |
| RuleReading.MatchFound | internal/openapi/validate.go:86-95 | a call of matches on the subject and a sum of literals is taken apart into just these two arguments |
| RuleLimits.PatternKeepsIff | internal/openapi/validate.go:86-95 | a pattern written as one literal keeps its meaning for every value exactly when every escape in the literal stands for its own character |
| RuleLimits.MatchSumTaken | internal/openapi/validate.go:86-95 | a call of matches on a sum sets the pattern to the unquoted text of the sum |
| RuleLimits.MatchSumKeepsIff | internal/openapi/validate.go:86-95 | a pattern written as a sum of literals keeps its meaning for every value exactly when the sum is one such literal |
| RuleLimits.MatchSumWitness | internal/openapi/validate.go:86-95 | otherwise, a value that the rule takes and the written pattern refuses |
| RuleLimits.ListKeepsIff | internal/openapi/validate.go:127-152 | a list of integers and sums of literals keeps its meaning for every value exactly when the elements as read are the elements as denoted |
| RuleLimits.ElementSumKeepsIff | internal/openapi/validate.go:127-152 | a list of one element written as a sum keeps its meaning for every value exactly when the sum is one literal and every escape in it stands for its own character |
| RuleLimits.ElementIntKeepsIff | internal/openapi/validate.go:127-152 | a list of one integer keeps its meaning for every value exactly when the integer is decimal |
| RuleRows.OrListsKeepIff | internal/openapi/validate.go:127-152 | any number of lists of literals joined by an OR keep their meaning for every value exactly when the texts the mapper reads, in which what stands between two lists and the literals beside it are one text, are the texts of the lists |
| RuleRows.RowTaken | internal/openapi/validate.go:127-152 | lists of literals with any calm text between them, an OR, an OR with a negation or other, are read as one list of just these texts |
| RuleRows.OtherListsLost | internal/openapi/validate.go:127-152 | such a row that means something of a value equal to none of any texts never keeps its meaning |
| RuleRows.OrNotInLost | internal/openapi/validate.go:127-152 | so for a list or not another |
| RuleRows.OrPairLost | internal/openapi/validate.go:127-152 | two lists of one literal each, with any calm text between them, never keep the meaning of an OR |
| RuleMapper.RuleMeansPieces | internal/openapi/validate.go:57-83 | whatever a rule means, its keywords and leftovers together mean that all its top-level pieces are true |
| RuleMapper.LooserOr | internal/openapi/validate.go:57-83 | for a rule a && b OR c, the OR binding looser, the translation keeps the meaning for a value exactly when the value meets a or does not meet c |
| RuleLimits.LooserOrBefore | internal/openapi/validate.go:57-83 | for a rule a OR b && c, read as (a OR b) && c, the translation keeps the meaning for a value exactly when the value meets c or does not meet a |
| RuleLimits.LooserOrBetween | internal/openapi/validate.go:57-83 | for a rule a && b OR c && d, exactly when the value meets d or not both a and b, and meets a or not both c and d |
| RuleLimits.OrOfAndsKept | internal/openapi/validate.go:57-83 | for a rule of any number of conjunctions joined by ORs, split at every &&: the translation takes no value that the rule refuses, and keeps the meaning for a value exactly when the value fails the rule or meets a part of every piece |
| RuleLimits.LooserCondition | internal/openapi/validate.go:57-83 | for a rule a && b ? c : d, exactly when the value meets a or does not meet d |
| RuleLimits.LooserBranch | internal/openapi/validate.go:57-83 | for a rule b ? c : d && e, exactly when the value meets e or does not meet b and c |
| RuleTruth.OrTextRefused | internal/openapi/validate.go:57-83 | at the text this > 1 && this < 5 OR this == 0, under a truth that gives every conjunct its meaning, the value 0 meets the rule and the translation refuses it |
| RuleTruth.FaithfulExists | docs/RFC-001-schema-extensions.md:381-478 | for every value and every reasonable reading of numbers there is a truth that gives all conjuncts of the known shapes their meaning |
| RuleMapper.RulesKeep | internal/openapi/validate.go:57-198 | a value meets what any list of conjunctive rules of plain conjuncts accumulates, read as rules are, exactly when it satisfies every rule, repeated bounds included |
| JsonValues.Base64Length | internal/openapi/schemas.go:590-591 | the JSON string of n bytes has four characters for every three bytes or part of three |
| JsonValues.Base64Reads | internal/openapi/schemas.go:590-591 | and it reads as those bytes, by section 4 of RFC 4648 |
| JsonValues.WholeTextReads | internal/openapi/schemas.go:582-585 | the JSON string of a 64-bit integer reads as the integer |
| RuleConstraints.KeywordsMean | internal/openapi/validate.go:202-243 | the written keywords accept exactly the JSON values that the accumulated bounds allow, each keyword letting every type of JSON but its own pass, and for which the rules carried through hold |
| RuleFields.PatternKeepsIff | internal/openapi/schemas.go:421-442 | on any kind of field, a pattern says of the JSON form what the rule says of the value, for every value and every matcher, exactly when the field is a string |
| RuleFields.MinKeepsIff | internal/openapi/schemas.go:421-442 | a least size does so exactly when the field is not bytes or the size is at most 1 |
| RuleFields.MaxKeepsIff | internal/openapi/schemas.go:421-442 | a greatest size does so exactly when the field is not bytes or the size is at most 0 |
| RuleFields.LowKeepsIff | internal/openapi/schemas.go:421-442 | a lower bound does so exactly when the field is not a 64-bit integer or every number of the field meets the bound |
| RuleFields.HighKeepsIff | internal/openapi/schemas.go:421-442 | an upper bound likewise |
| RuleFields.ListKeepsAllIff | internal/openapi/validate.go:127-152 | a list does so exactly when null is not admitted by the list of types, no 64-bit number is listed by number without its text or the other way, no enum value by number without its name or the other way, no text of a list on bytes is the base 64 of any, and the field is no message |
| RuleFields.SafeKeeps | internal/openapi/schemas.go:263-308 | keywords that are safe for the kind of field keep their meaning on every value together, null and rules carried through included |
| RuleFields.SchemaMeansRules | internal/openapi/validate.go:57-243 | the schema of a field with conjunctive rules accepts a value's JSON form exactly when the type of the schema does and the value is null or satisfies every rule, whenever what the rules accumulate is safe for the kind of field |
| RuleFields.FamilyIs | internal/openapi/schemas.go:421-442 | a kind of field has a size family exactly when its values have a size, and takes numeric bounds when they are numbers, enums aside |
| RuleFields.FormAllowedIff | internal/openapi/schemas.go:577-615 | the type of a field's schema takes the JSON form of each of its values, but for infinities, what is not a number, and enum numbers without a name |
| RuleExamples.BytesOfSizeRefused | internal/openapi/schemas.go:427-429 | a rule that asks a bytes field for n > 0 bytes: the schema refuses every value of n bytes |
| RuleExamples.BytesOf32Refused | testdata/schema-extensions/24_expression_language.proto:87-88 | so at the text this.size() == 32 |
| RuleExamples.WideBoundLost | internal/openapi/schemas.go:582-585 | a rule that asks a 64-bit field for a bound: the schema accepts every value of the field |
| RuleExamples.WideAboveZeroLost | internal/openapi/schemas.go:582-585 | so at the text this > 0 |
| RuleExamples.NumberListRefused | internal/openapi/validate.go:127-152 | a rule that asks a 64-bit or an enum field for one of some numbers: the schema refuses every value of the field |
| RuleExamples.OneTwoRefused | internal/openapi/validate.go:127-152 | so at the text this in [1, 2] |
| RuleExamples.PatternRead | internal/openapi/validate.go:86-95 | a rule that asks a string field for the pattern of one literal: it asks for the text the literal denotes, the schema for the text the mapper reads |
| RuleExamples.NewlineRead | internal/openapi/validate.go:362-375 | at a literal of an escaped n: the rule asks for a line feed, the schema for the letter n |
| RuleExamples.OctalSizeRead | internal/openapi/validate.go:105-112 | at the text this.size() == 010: the rule asks for 8 characters, the schema for 10 |
| RuleExamples.OrListsRead | internal/openapi/validate.go:127-152 | two lists of literals joined by an OR on a string field: the schema accepts just the texts the mapper reads |
| RuleExamples.OrInRefused | internal/openapi/validate.go:127-152 | at the text of a list of a OR a list of b: the rule takes a and b, the schema neither |
| RuleExamples.OrInTruth | internal/openapi/validate.go:127-152 | for every value there is a truth that gives this text the meaning of its OR and every conjunct of a known shape its own |
| RuleConstraints.Constraints.MapSize | internal/openapi/validate.go:154-176 | the accumulator after a size comparison, and whether it was taken in |
| RuleConstraints.Constraints.MapNumeric | internal/openapi/validate.go:178-198 | the accumulator after a numeric comparison, and whether it was taken in, which RuleTaken.NumberTakenIff says exactly |
| RuleConstraints.Constraints.MapEnum | internal/openapi/validate.go:127-152 | the accumulator after an enum list, and whether it was taken in |
| RuleConstraints.Constraints.MapConjunct | internal/openapi/validate.go:86-125 | the accumulator after one conjunct, branch by branch |
| RuleConstraints.Constraints.MapValidate | internal/openapi/validate.go:57-83 | the accumulator after one rule, its leftovers in order with code and message |
| RuleConstraints.Constraints.Apply | internal/openapi/validate.go:202-243 | the keywords in their fixed order, named by the kind of size |
| RuleConstraints.Translate | internal/openapi/validate.go:57-243 | the schema of a list of rules folded into one accumulator; RuleMapper, RuleTaken and RuleFields say what is taken in and what it means |
| SchemaBuilder.Builder.Component | internal/openapi/schemas.go:79-103 | depth-first emission with a reserved slot: on success fqn and exactly what it leads to are added, each complete, the rest as it was; it fails only when an element it leads to has no schema |
| SchemaBuilder.Builder.AliasSchema | internal/openapi/schemas.go:132-185 | inline for a primitive or well-known base, by reference for a named one, its component forced |
| SchemaBuilder.Builder.TypeSchema | internal/openapi/schemas.go:376-402 | inline for scalars and well-known types, by reference for messages and enums, none for groups |
| SchemaBuilder.Builder.Element | internal/openapi/schemas.go:352-373 | the most derived alias of the chain, or the descriptor type |
| SchemaBuilder.Builder.PropertySchema | internal/openapi/schemas.go:263-308 | map, repeated and singular fields, a reference wrapped where keywords or null stand beside it; SchemaMeaning.PropertyShape says which, and SchemaMeaning.MessageAccepts what it accepts |
| SchemaBuilder.Builder.MessageSchema | internal/openapi/schemas.go:222-260 | every field's schema in order, with all it refers to emitted |
| SchemaBuilder.Builder.BuildAll | internal/openapi/schemas.go:45-76 | succeeds exactly when no admitted element leads to one without a schema, and then the components are exactly what the admitted elements lead to |
| SchemaBuilder.Builder.ComponentAll | internal/openapi/schemas.go:79-103 | the same for further roots, such as what operations refer to |
| SchemaBuilder.NoDanglingRef | internal/openapi/schemas.go:79-107 | every $ref of a complete document has a component that is not nil, cyclic types included |
| SchemaMeaning.AcceptsForms | internal/openapi/schemas.go:79-402 | every component of a complete document accepts, keywords of rules aside, exactly the JSON forms of its element: of an alias its base's, of an enum its own, of a message those of its fields, whatever cycles the types have |
| SchemaMeaning.MessageAccepts | internal/openapi/schemas.go:222-308 | the component of a message accepts exactly the objects in which each member with a field's name holds an object of values for a map, an array of values for a repeated field, else one value, or null where the field may be null |
| SchemaMeaning.PropertyShape | internal/openapi/schemas.go:263-308 | a property is a map exactly for a map, else an array exactly when repeated; its one reference is to the last alias or to the type that is not well known; allOf and a null branch stand exactly where keywords or null are put beside the reference of a singular field |
| SchemaMeaning.PropertiesAre | internal/openapi/schemas.go:222-260 | the properties of a message are those of its fields, in their order and under their names |
| SchemaMeaning.HasComponentIff | internal/openapi/schemas.go:79-402 | an alias has a component exactly when its base is a scalar, well known or an element, a message when every field has a form, and every enum has one |
| SchemaMeaning.EveryElementEmitted | internal/openapi/schemas.go:45-76 | every admitted message, enum and alias of the user's has a component |
| Audience.MostRestrictive | internal/openapi/audience.go:70-79 | after any topics in any order an element's contributed tier is the greatest given to it |
| Audience.RankIsTier | internal/openapi/audience.go:38-54 | an element's rank is the greatest of the rank of the first rule that takes its name, 1 when none does, and the ranks its topics give, and no other number is; a glob ending in .* takes the name before it, the names below that, and whatever path.Match takes |
| Audience.RankIsPlace | docpack/compile.go:552-571 | a tier's rank is its place among public, community, partner, enterprise and internal; no tier is public, and any other name has no rank |
| Audience.Index.Contribute | internal/openapi/audience.go:70-79 | one contribution: the greater rank stays, with its topic key |
| Audience.Index.ContributeAll | internal/openapi/generate.go:65-73 | the contributions of a pack, topic by topic |
| Audience.CollectEdges | internal/openapi/audience.go:95-153 | exactly the references of user messages, aliases and methods that are checked |
| Audience.Index.CheckTransitive | internal/openapi/audience.go:155-173 | accepts exactly when no reference goes to an element of a greater rank, the rank being as Index.RankOf's contract says of rules and recorded tiers, and otherwise reports the first such reference in order |
| AudienceClosure.RefsAreEdges | internal/openapi/schemas.go:222-391 | every $ref in a user element's component has been checked, or leads into google.protobuf |
| AudienceClosure.NothingAboveTier | internal/openapi/generate.go:74-97 | once the check accepts, no user element above the tier is among the components that visible roots lead to |
| AudienceClosure.ReachedVisible | internal/openapi/generate.go:74-97 | once the check accepts, whatever user element a visible element leads to is no more restricted, whatever cycles the types have |
| AudienceClosure.OperationRefsVisible | internal/openapi/operations.go:204-310 | what an emitted operation refers to, through request, response, parameters or inlined bodies, is visible at the tier |
| ApiModel.WktInGoogle | internal/openapi/schemas.go:619-643 | every well-known type with a schema of its own is a name under google.protobuf, where the check does not look |
| Operations.UseRefsAreOperationRefs | internal/openapi/operations.go:240-288 | whatever the schemas of an operation's path parameters, query parameters, body and response refer to is its request, its response, or what a field of its request's containers refers to, and no map entry |
| Operations.WalkContainers | internal/openapi/operations.go:713-745 | a field path that walks goes through a chain of containers to the message that declares its leaf |
| Operations.RestWalks | internal/openapi/operations.go:465-577 | every remaining field, of the query string or the body, lies on a path that walks, has a schema, and is flat in the query string |
| Operations.OperationsBuilder.PathParams | internal/openapi/operations.go:262-283 | succeeds exactly when every variable names a singular flat field with a schema and nothing these lead to lacks one; their components are forced |
| Operations.OperationsBuilder.RestSchemas | internal/openapi/operations.go:285-300 | the remaining fields, or the whole request: succeeds exactly when the descent does and nothing it refers to leads to an element without a schema; the components are forced |
| Operations.OperationsBuilder.Response | internal/openapi/operations.go:581-617 | the success response: refused exactly when its message is not in the image or leads to an element without a schema; the report is needed |
| Operations.OperationsBuilder.Render | internal/openapi/operations.go:257-326 | the parameters, body and response of one use of @http render exactly when nothing about them is refused and everything they refer to leads to schemas only; then the components are exactly those there were and what their references lead to |
| Operations.OperationsBuilder.Operation | internal/openapi/operations.go:204-354 | one operation more is built exactly when it renders, names an id where it must, shares its id and its verb and path with no operation before it, and its security schemes are defined; then ids, places, schemes and components are those of all operations so far |
| Operations.OperationsBuilder.Secure | internal/openapi/operations.go:310-320 | each security scheme is defined, and recorded as used |
| Operations.OperationsBuilder.BuildAll | internal/openapi/operations.go:158-192 | every use of every admitted method of every admitted service: succeeds exactly when each is right by itself and no two share an id, or a verb and a path; the components are exactly what they refer to and lead to, and the report is needed exactly when there is one |
| Operations.AllOpsAre | internal/openapi/operations.go:158-192 | the operations are every use of every admitted method of every admitted service |
| Operations.AllOkMore | internal/openapi/operations.go:234-247 | operations with one more are right exactly when they were and the one more is right by itself, with an id and a place not taken |
| Operations.OpsRefsAre | internal/openapi/operations.go:158-192 | what the operations refer to is what each refers to |
| Operations.UseRefsIff | internal/openapi/operations.go:240-288 | an operation refers to what the fields in its path refer to; to the whole request when its verb is none of GET, HEAD, DELETE and OPTIONS and nothing is in the path, and else to what the remaining fields refer to; and to its response unless that is Empty |
| Operations.MessageNeedsBody | internal/openapi/operations.go:43-51 | a message-typed field left over is right exactly when the verb is none of GET, HEAD, DELETE and OPTIONS |
| Operations.PlacesClashIff | internal/openapi/operations.go:328-352 | two operations claim one place exactly when their verbs agree in lower case and their paths differ in sub-path patterns only |
| Operations.ReportComponents | internal/openapi/report.go:22-70 | the report message and exactly what it leads to, in a model of its own |
| Operations.DocumentComponents | internal/openapi/generate.go:93-177 | succeeds exactly when no admitted element is blocked, all operations are right by themselves and together, and the report renders where needed; the components are exactly what admitted elements, operations and the report lead to, and no reference dangles |
| Operations.WantedVisible | internal/openapi/generate.go:74-97 | no component of the document is a user element above the tier |
| Operations.Generate | internal/openapi/generate.go:64-177 | contributions, check and document: fails exactly when a reference leads to a more restricted element, an admitted element is blocked, an operation is not right, or the report is blocked; then every reference, those of operations included, has its component and nothing is above the tier, the tier of each element being that of the first rule that takes it and of its topics |
| Binding.ResolveFieldPath | internal/openapi/operations.go:713-745 | finds the leaf exactly when the path walks through singular messages and does not end at a repeated field |
| Binding.CutPrefixIsUnder | internal/openapi/operations.go:386-408 | on dotted names, cutting off name and a point is taking off the first component |
| Binding.Into | internal/openapi/operations.go:431-455 | the container's message and the state below it, or the refusal of a message already on the way |
| Binding.QueryParams | internal/openapi/operations.go:465-504 | the descent lists the remaining paths in order under their dotted names, or the first error |
| Binding.BodyObject | internal/openapi/operations.go:530-577 | the inlined object takes exactly the remaining paths, or the first error |
| Binding.CutIffPrefixFree | internal/openapi/operations.go:386-577 | bound and remaining paths cut the request exactly (no member below another, every path a caller can walk meeting a member or naming a container of one) if and only if the bound paths are prefix-free |
| Operations.AnyTwiceBound | internal/openapi/operations.go:365-382 | the failing side is reached: a google.protobuf.Any bound as a whole and at its type_url in one path is taken, and is no exact cut |
| Operations.AnyModel | internal/openapi/operations.go:365-382 | there is such an image |
| Binding.MeetsOne | internal/openapi/operations.go:386-577 | in a prefix-free cut a path meets one member only and then names no container of a member |
| Binding.LeafMeetsOne | internal/openapi/operations.go:386-577 | every path from the request to a leaf meets exactly one member of a cut |
| Binding.RemainingOnce | internal/openapi/operations.go:465-577 | no remaining path is listed twice |
| Binding.BodyOkIff | internal/openapi/operations.go:431-455 | the descent ends, and fails exactly when the containers of a bound path come back to a message already on the way |
| Binding.QueryIsBody | internal/openapi/operations.go:465-577 | where query parameters are possible they are the paths the body would take |
| PathTemplate.TemplateSegments | internal/openapi/operations.go:72-96 | the segments in order, each with its variable and range |
| PathTemplate.OpenApiPath | internal/openapi/operations.go:104-121 | the path with each segment reduced to its variable |
| PathTemplate.OpenApiStays | internal/openapi/operations.go:104-121 | the OpenAPI spelling is stable and binds the same variables in the same order |
| PathTemplate.CollideIff | internal/openapi/operations.go:328-352 | two bindings share an OpenAPI path exactly when they differ only in sub-path patterns and white space around variables |
| PathTemplate.VariableIs | internal/openapi/operations.go:83-95 | a segment's variable is its name without the white space around it and without the pattern after an equals sign |
| PathTemplate.OpenApiOfSegment | internal/openapi/operations.go:104-121 | text, a segment and a rest are written as the text, the variable in braces and the rest's spelling, and bind the variable first |
| PathTemplate.OpenApiOfText | internal/openapi/operations.go:104-121 | a text in which no brace opens, or none closes after the first that does, is written as it is and binds nothing |
| PageLines.FooterMatches | scripts/repaginate_draft.py:45-47 | the matcher takes exactly the lines of the footer pattern |
| PageLines.HeaderMatches | scripts/repaginate_draft.py:48 | the matcher takes exactly the lines of the header pattern |
| PageLines.EmitFooter | scripts/repaginate_draft.py:51-56 | the written footer matches the footer pattern and closes at column 72 for page numbers of up to 15 digits |
| PageLines.FooterSays | scripts/repaginate_draft.py:51-56 | the footer's number is the page's, and it ends at column 72, or one space after the date when it is too long for that |
| PageLines.HeaderFills | scripts/repaginate_draft.py:36-38 | the running header matches the header pattern and ends at column 72 |
| Paginator.ContentOfEmit | scripts/repaginate_draft.py:81-158 | stripping emitted pages gives back the body, without the blank or header lines its first page opens with |
| Paginator.EmitInjective | scripts/repaginate_draft.py:139-158 | different bodies give different pages |
| Paginator.RepaginateTwice | scripts/repaginate_draft.py:59-164 | repaginating twice is repaginating once exactly when the first content line is neither blank nor a header |
| Paginator.RepaginateTextTwice | scripts/repaginate_draft.py:59-164 | the same byte for byte on the text of the file, final line break included |
| Paginator.StableAfterOne | scripts/repaginate_draft.py:59-164 | a draft whose first line of text after page 1's chrome is no footer is stable after one run |
| Paginator.BlankPageTwoShifts | scripts/repaginate_draft.py:81-87 | an entirely blank page 2 with a blank line at the top of page 3 makes the second run drop that line |
| Paginator.TextKept | scripts/repaginate_draft.py:59-164 | on any draft, no line that carries text is lost, added or moved |
| Paginator.EmitAt | scripts/repaginate_draft.py:143-158 | the 58 lines of each page: blank, running header, two blanks, content lines 50 i to 50 i + 49 with blanks past the end, three blanks, and the page's footer |
| Paginator.PageCount | scripts/repaginate_draft.py:143-158 | as many pages of 58 lines as the content needs |
| Paginator.StripBody | scripts/repaginate_draft.py:103-137 | the stripping loop and the trim return the content stream |
| Paginator.EmitPages | scripts/repaginate_draft.py:141-158 | the emitting loop appends exactly the pages of the body |
| Paginator.Repaginate | scripts/repaginate_draft.py:59-164 | the whole script on the text: the new text, or none when there is no footer |
| Tokenizer.TermFindsItself | docpack/index.go:44-65 | tokenizing an indexed term gives that term first, and only terms indexed with it |
| Tokenizer.AsciiIsSound | docpack/index.go:44-65 | the ASCII letters, digits and lower case are such an alphabet as the other results ask for |
| Tokenizer.OneTermIff | docpack/index.go:35-65 | a long enough token is its only term exactly when no part of it between joiners is long enough and different from it |
| Tokenizer.TermsOfTerm | docpack/index.go:44-65 | tokenizing a term gives it and its parts |
| Tokenizer.AllAreTerms | docpack/index.go:44-65 | every term emitted is folded, trimmed and long enough, the terms of one field together |
| TokenRuns.TermsOfTwo | docpack/index.go:44-65 | the terms of two texts with a character between them that is in no word are those of the one and then of the other |
| TokenRuns.TermsOfWord | docpack/index.go:44-65 | the terms of one word, joiners around it dropped: itself folded when it has two bytes, and, when joiners cut it in pieces, then its pieces of two bytes and more in order |
| TokenRuns.TextIsLaid | docpack/index.go:45-56 | every text is pieces of kept characters with gaps of others between them |
| TokenRuns.FieldsOfLaid | docpack/index.go:45-56 | pieces with gaps between them are cut into just these pieces |
| Tokenizer.Tokenize | docpack/index.go:44-65 | the loops emit each trimmed lower-case field and its parts in order |
| SearchIndex.ScanIsExact | docpack/index.go:114-138 | the positions recorded for a term are exactly the ascending ordinals at which the token stream has it |
| SearchIndex.TokenSharesIff | docpack/index.go:35-65 | the terms of one token carry one and the same ordinal exactly when no part of the token between joiners is long enough and different from it |
| SearchIndex.ThreePositions | docpack/index.go:35-65 | the token ab.cd is indexed as itself, ab and cd, at positions 0, 1 and 2 |
| SearchIndex.StreamOfText | docpack/index.go:114-138 | a field's token stream is the tokens of its texts, one text after the other |
| SearchIndex.PostedMatches | docpack/index.go:120-137 | posting one token keeps the postings equal to the naive scan of every document |
| SearchIndex.IndexBuilder.Begin | docpack/index.go:106-111 | a new document with no tokens; the postings still equal the scan |
| SearchIndex.IndexBuilder.Add | docpack/index.go:114-138 | the text's tokens are appended to the document's stream of the class, every token with its own ordinal, and the postings equal the scan |
| SearchIndex.IndexBuilder.Emit | docpack/index.go:146-198 | the emitted index is the index of the documents, in strict order, and the counts of each document add up to its token count |
| SearchIndex.IndexUnique | docpack/index.go:140-146 | one emitted index only fits the documents, so no map order can show |
| SearchIndex.IndexInOrder | docpack/index.go:163-196 | terms come in the order of their first difference, a term's occurrences by document and then by class |
| SearchIndex.CountsAreTokens | docpack/index.go:97-137 | in the index of any documents the counts of a document's occurrences add up to its tokens |
| Chains.Walk | docpack/compile.go:397-413 | the walk with its seen set returns the terminus and chain, or the id at which it comes back |
| Chains.FollowIsRight | docpack/compile.go:394-413 | the chain has no repeats, each id leads to the next, and its last is no source; a reported cycle is one |
| Chains.CyclesIffLoops | docpack/compile.go:394-413 | a cycle is reported exactly when one is reachable |
| Chains.HopsShareTerminus | docpack/compile.go:394-413 | every hop of a chain has the same terminus, by the rest of the chain |
| Chains.EndIsUnique | docpack/compile.go:394-413 | terminus and chain are determined by the table |
| Chains.SettledIffRanked | docpack/compile.go:387-392 | no source loops exactly when some rank falls along every entry of the table |
| Chains.NoWayBack | docpack/compile.go:387-392 | in a table without cycles no path leads back to its start |
| Chains.OneLookup | docpack/pack.go:132-139 | one lookup in the compressed table is the whole walk, and ends there |
| Chains.CompressedKeeps | docpack/pack.go:132-139 | compressing keeps every terminus, leaves no cycle, and is idempotent |
| Redirects.Compiler.CollectRedirects | docpack/compile.go:334-392 | the table holds the first sound declaration of each source; the problems are exactly the complaints of the declarations that do not win and the cycles of looping sources, so nothing is reported exactly when all declarations win and no source loops |
| Redirects.Compiler.ReportCycles | docpack/compile.go:387-392 | a cycle problem for exactly the sources whose walk comes back |
| Redirects.Compiler.ResolveAnchors | docpack/compile.go:430-458 | the anchors taken, in order, and the problems reported, in order |
| Redirects.TakenLand | docpack/compile.go:430-458 | every anchor taken has an id that is no redirect's source, by a repeat-free chain from its own id |
| Redirects.NoneReported | docpack/compile.go:430-458 | without cycles, nothing is reported exactly when every anchor is found where its redirects end |
| Redirects.AnswerIff | docpack/compile.go:430-458 | an anchor is taken where its redirects land, when that is found, else the place is reported as dangling; one without a target is reported, and one that leads into a cycle is passed over |
| Redirects.AnchorsInTurn | docpack/compile.go:430-458 | anchors in two parts are answered one part after the other |
| Redirects.ComplaintsAre | docpack/compile.go:334-386 | exactly the declarations that do not win are complained of, each once, by the first thing wrong with it |
| Redirects.Compiler.EmitRedirects | docpack/pack.go:132-154 | one entry per source in order, with terminus, and chain where there is more than one hop |
| Redirects.EmittedEnds | docpack/pack.go:132-154 | in a pack without cycles every emitted redirect ends at no redirect's source, with the chain exactly when there is more than one hop, and since and note of its own declaration |
| ParentChains.ValidateParents | docpack/validate.go:210-263 | no problem exactly when every parent is a key of a topic of the same locale and no chain comes back; the problems are, topic by topic, the first thing wrong with its parent and the cycle its chain comes into |
| ParentChains.SoundIsForest | docpack/validate.go:241-263 | accepted topics form a finite forest in each locale: a depth falls from every topic to its parent |
| ParentChains.ForestIsSound | docpack/validate.go:241-263 | and every such forest is accepted |
| ParentChains.RootReached | docpack/validate.go:241-263 | every topic hangs, through topics of its locale, under a topic without a parent |
| SchemaRegistry.Registry.Merge | internal/schemaresolve/schemaresolve.go:323-326 | an external file's types are put in walking order |
| SchemaRegistry.Registry.MergeDocument | internal/schemaresolve/schemaresolve.go:127-134 | shadowing of the whole file, then every type put and marked |
| SchemaRegistry.Registry.ShadowIn | internal/schemaresolve/schemaresolve.go:141-170 | messages then enums: an external counterpart is dropped with its nested types, a type without one is descended into |
| SchemaRegistry.Registry.DropType | internal/schemaresolve/schemaresolve.go:188-197 | a type and every type nested in it leave both maps |
| SchemaRegistry.Registry.Check | internal/schemaresolve/schemaresolve.go:209-240 | fails exactly when a message reachable from md has a field bound to a redefined external type, and reports such a field |
| SchemaRegistry.Registry.Visit | internal/schemaresolve/schemaresolve.go:214-239 | the walk with its seen names, each visited once |
| RegistryRuns.ShadowIsEach | internal/schemaresolve/schemaresolve.go:141-170 | shadowing, which skips the inside of a type it replaces, is shadowing every declared type in turn |
| RegistryRuns.RunExact | internal/schemaresolve/schemaresolve.go:127-197 | after document merges over externals of one universe, every name resolves to the document's type, or to nothing in a shadowed scope, or to the external one as before; what differs and what is warned of is exactly what lies in, and is, an outermost type defined differently, each warned of once with its file |
| RegistryRuns.StaleIff | internal/schemaresolve/schemaresolve.go:209-255 | after a run a field's type is rejected exactly when its name lies in a type defined differently and it is not the document's own |
| RegistryRuns.ExternalsAreUniverse | internal/schemaresolve/schemaresolve.go:323-326 | external files of one linked universe leave such a registry |
| RegistryRuns.TypesAreDeclared | internal/schemaresolve/schemaresolve.go:337-355 | the types walked are those declared, nested ones at any depth included |
| RegistryRuns.ScopeGoesIff | internal/schemaresolve/schemaresolve.go:141-197 | over any externals, replacing one type clears every name of its scope exactly when each known name of the scope is nested in the external definition registered last under the type's name |
| RegistryRuns.RunLeaves | internal/schemaresolve/schemaresolve.go:127-197 | over any registry and any documents, a name they do not declare is lost exactly when it is that of a replaced type or nested in one |
| RegistryRuns.RunScopesGoIff | internal/schemaresolve/schemaresolve.go:127-197 | over any registry and any documents, the scopes of the replaced types hold nothing but what the documents declare exactly when each other known name in them is nested in a replaced type |
| RegistryRuns.OneTypeGoesIff | internal/schemaresolve/schemaresolve.go:127-197 | a document of one message clears the rest of the message's scope exactly when each known name there is nested in the external definition registered last |
| RegistryRuns.TwoExternalsLeaveOne | internal/schemaresolve/schemaresolve.go:188-197 | an instance of the failing side: with two external definitions of one name, a type nested in the first only outlives the shadowing of both |
| SbeLayout.SortedFields | cmd/protoc-gen-pxf-java-meta/sbe.go:456-466 | the adjacent-swap insertion sort in place gives the stable order by field number |
| SbeLayout.SinkLast | cmd/protoc-gen-pxf-java-meta/sbe.go:460-464 | the inner loop puts one element in its place among the sorted ones before it |
| SbeLayout.BuildBlock | cmd/protoc-gen-pxf-java-meta/sbe.go:366-403 | a group's or composite's fields at a running offset, or the first error |
| SbeLayout.BuildPiece | cmd/protoc-gen-pxf-java-meta/sbe.go:260-315 | one top-level field: refused, a group, a composite or a scalar |
| SbeLayout.BuildLayout | cmd/protoc-gen-pxf-java-meta/sbe.go:245-317 | the message layout, or the first error in field-number order |
| SbeBlocks.LayoutTiles | cmd/protoc-gen-pxf-java-meta/sbe.go:245-403 | leaves at absolute offsets tile the root block and each group's block without gap or overlap, composites nested in their slots |
| SbeBlocks.LayoutPlacesAll | cmd/protoc-gen-pxf-java-meta/sbe.go:245-454 | every field is placed once, singular ones in the block and repeated ones as groups, by number and at the size of its encoding |
| SbeEncodings.LayoutIff | cmd/protoc-gen-pxf-java-meta/sbe.go:245-317 | a message has a layout exactly when it has a template id and every field can be laid out: no map, no oneof but an optional field's own, repeated only as a message, types known and their fields placed in turn, scalars with an encoding |
| SbeEncodings.SizeIsNamed | cmd/protoc-gen-pxf-java-meta/sbe.go:405-454 | a field's size is the one its encoding's name states, or the length asked for of text |
| SbeEncodings.OverrideTaken | cmd/protoc-gen-pxf-java-meta/sbe.go:406-419 | an encoding the field names is taken exactly when it is an integer of 1, 2, 4 or 8 bytes, float or double |
| SbeEncodings.DefaultHolds | cmd/protoc-gen-pxf-java-meta/sbe.go:420-446 | without an encoding of its own an integer field holds every value of its kind, but an enum only the numbers 0 to 255 |
| SbeEncodings.HoldsAllIff | cmd/protoc-gen-pxf-java-meta/sbe.go:406-446 | an integer encoding holds every value of a kind exactly when it is wide enough, signed for a signed kind and wider than an unsigned kind when signed itself |
| SbeBlocks.OneLeafPerByte | cmd/protoc-gen-pxf-java-meta/sbe.go:245-403 | each byte of a block belongs to exactly one leaf |
| SbeBlocks.WriteOneLeaf | cmd/protoc-gen-pxf-java-meta/sbe.go:245-403 | writing one leaf puts its bytes and leaves every other leaf's bytes as they were |
| SbeBlocks.LayoutReordered | cmd/protoc-gen-pxf-java-meta/sbe.go:456-466 | the layout, or the error, does not depend on the order in which fields are declared, at any level |
| EditDistance.DistanceIsLeast | cmd/pxf/strict.go:237-265 | no edit script that turns one name into the other costs less than the distance |
| EditDistance.DistanceIsReached | cmd/pxf/strict.go:237-265 | some edit script costs just the distance |
| EditDistance.DistanceSymmetric | cmd/pxf/strict.go:237-265 | the distance is symmetric |
| EditDistance.DistanceTriangle | cmd/pxf/strict.go:237-265 | the triangle inequality, by composing edit scripts |
| EditDistance.EditDistanceOf | cmd/pxf/strict.go:241-265 | two rows, filled and swapped, compute the distance |
| EditDistance.ClosestField | cmd/pxf/strict.go:218-235 | the first declared field at the least distance when that is at most 2, otherwise none |
| AnonymousProtos.ResolveAnonymousProtos | cmd/pxf/schema.go:263-310 | succeeds exactly when every prefix of the document has at least as many anonymous protos as typeless datasets and the totals are equal; then the i-th proto and the i-th dataset share the i-th name and nothing else changes; otherwise the error names the first dataset that comes up short, or else the first proto left over |
| AnonymousProtos.PairsInOrder | cmd/pxf/schema.go:263-310 | every anonymous proto comes before the dataset it is paired with |
| AnonymousProtos.MatchableIffPaired | cmd/pxf/schema.go:263-310 | that condition holds exactly when some way exists to give every typeless dataset a proto of its own that comes before it, leaving none over |
| AnonymousProtos.OneInOrder | cmd/pxf/schema.go:263-310 | of all such ways only i-th with i-th keeps the order |
| AnonymousProtos.NamesDistinct | cmd/pxf/schema.go:283-307 | generated names are distinct |
| AnonymousProtos.OrderAllEnts | cmd/pxf/schema.go:267-281 | sorting puts every directive once in document order |
| AnonymousProtos.ParticipantsAre | cmd/pxf/schema.go:263-310 | the participants are all anonymous protos and all datasets without a type, each in document order |
| AnonymousProtos.NameIs | cmd/pxf/schema.go:299 | the i-th name is _pxq_anon_ and i |
| Inference.InferDataset | cmd/pxf/infer.go:231-335 | succeeds, in either scan mode, exactly when no cell is unscalar and each column has a type that takes all its cells with no float after integers past the sample; then each column's type is the least such type |
| Inference.SeenIs | cmd/pxf/infer.go:253-320 | a column goes bad exactly when no type takes its cells or its first float after integers lies past the sample |
| Inference.LeastUnique | cmd/pxf/infer.go:231-335 | the least type is one only, so sample size and scan mode cannot show in it |
| Inference.SampleMonotone | cmd/pxf/infer.go:231-335 | a larger sample never makes inference fail |
| Inference.IntThenFloat | cmd/pxf/infer.go:296-316 | a float after integers is in order exactly when it lies within the sample |
| Inference.ClassifyIs | cmd/pxf/infer.go:187-205 | each kind of scalar cell has its own type, and no other cell has one |

## Left out

- BigFloat.RoundTrip: the numbers are exact; the limit of 4096 digits on literals (`MAX_PREC`) and the fixture files are not modelled.
- BigFloat.ReadOfLayout: what Python's `int` takes beyond ASCII digits (underscores, white space, other scripts' digits) reads as no number here, and so does a literal whose digits carry a sign of their own, such as `-.-5`.
- BigFloatWire.EncodeRoundTrip: the reader is the encoding specification's; merging several occurrences of the holder's field is not modelled, and payloads of 2^64 bytes or more are out of range.
- Wire.RecordLocal: the wire library's error codes are one outcome, and its parsing is taken from the encoding specification.
- FieldOrder.Reorder: descriptors are a table from message and field number to message type; reading the descriptor file and the streams is left out.
- Carriers.ParseAnnotationArg: only the members the reader looks at; the comment and deprecation emitters that use the readings are string output.
- RuleMapper.RulesKeep: the text of rules is given its meaning by what is assumed of conjuncts of the known shapes (RuleTruth.FaithfulExists: such a truth exists), for rules whose top level is a conjunction; what happens otherwise is said by RuleMapper.LooserOr, RuleLimits and RuleRows. A `&&` between `?` and `:` leaves two pieces that are no expressions of their own; only RuleMapper.RuleMeansPieces says what becomes of them.
- RuleLexical.LiteralTextIff: escapes of surrogate halves and octal escapes over 377 denote nothing here, and so does a literal whose bytes are no UTF-8.
- RuleFields.SchemaMeansRules: patterns are matched by one uninterpreted matcher, so differences between the dialects of RE2 and of JSON Schema are out; of a list that mixes texts and numbers nothing is assumed, since section 5.4 makes the comparison of the two an error and does not say in which order elements are compared. Where keywords are not safe only the lemmas on single keywords say what fails. The JSON form of a message is any but null, so the null of google.protobuf.Value is out.
- RuleMapper.ConjunctKeeps: numbers with a fraction are read by an uninterpreted parser, which agrees with decimal on integers, so float rounding is out.
- SchemaBuilder.Builder.PropertySchema: keywords, annotations, sensitivity and formats are not part of a schema here, only whether keywords or null stand beside a `$ref`; RuleFields says what keywords ask.
- SchemaMeaning.AcceptsForms: which JSON values are forms of a scalar, a well-known type or an enum is a parameter (RuleFields has it for scalars and enums), and required members are not asked for.
- SchemaBuilder.Builder.AliasSchema: likewise without the keywords, annotations and format of the alias.
- SchemaBuilder.Builder.MessageSchema: likewise without the list of required fields, the description and the annotations.
- Operations.OperationsBuilder.Operation: only whether it fails is said, not with which error; the fields left over are listed first and rendered then, where the source renders each on the way. Path variables are given as field paths, and lower case is a parameter.
- Operations.Generate: what it requires of the image is what descriptors guarantee (distinct field names, map entries behind repeated fields only), that the toolchain's elements refer to no user element, and that the report model shares no name with the user's schema.
- AudienceClosure.NothingAboveTier: it rests on the toolchain's own elements referring to no user element and on names under google.protobuf being the toolchain's, because the check skips their references; map entries are taken to be named by map fields only.
- Audience.Index.CheckTransitive: `path.Match` is an uninterpreted predicate, and the reported edge comes without its message text.
- Binding.ResolveFieldPath: the sensitivity a path gathers is not modelled.
- Binding.CutIffPrefixFree: field names are taken to be free of points and distinct within a message, as descriptors guarantee; whether a field has a schema is a parameter, which Operations fills in.
- PathTemplate.OpenApiPath: offsets count characters, not bytes.
- PageLines.FooterMatches: digits are the ASCII ones; `\d` of the pattern also takes other scripts' digits.
- Paginator.Repaginate: reading and writing the file and the printed messages are left out; line breaks are the line feed only.
- Tokenizer.TermFindsItself: letters, digits, lower case and byte widths are those of any alphabet in which lower case is stable and keeps the kind of a character; that Unicode's tables are such an alphabet is assumed, and shown for ASCII.
- SearchIndex.IndexBuilder.Add: positions and counts are unbounded; the source keeps 32 bits.
- Redirects.Compiler.ResolveAnchors: whether an id names something is a parameter, so what a target adds (`since`, descriptor path, audience) is left out; nothing is claimed of the kind of a chain's end, since schema ids may coincide with topic or widget ids.
- ParentChains.ValidateParents: the two passes over topics are one here, so the order of unsorted diagnostics is not the source's; the topic-key pattern is a parameter.
- SchemaRegistry.Registry.MergeDocument: whether two definitions are the same is a parameter; warnings carry name and file only.
- SchemaRegistry.Registry.Check: fields' bindings are a function on descriptors of one linked universe, within which a name means one descriptor.
- RegistryRuns.RunExact: documents declare no scope after a name inside it, and one type a name, over externals of one universe; RunLeaves and RunScopesGoIff say what holds without these.
- SbeLayout.BuildLayout: composites that contain themselves are excluded, since the source recurses on them without end; a nested composite that is not found is an error here where the source dereferences nil.
- EditDistance.ClosestField: names are sequences of characters; the source compares bytes.
- AnonymousProtos.ResolveAnonymousProtos: directives stand at distinct offsets; parsing them is left out.
- Inference.InferDataset: rows are no longer than the header, as the parser guarantees; the messages of contradictions are left out.
- Heading levels and ids of topic bodies, translations, coverage and provenance of the doc pack: local checks over single topics.
- Tags, summaries and error codes of OpenAPI operations: string output.
- The `pxf query` commands, PXF parsing and formatting, protocompile, gRPC, flags and directory walks: plumbing or code of other libraries.
- Java, Go, YAML, JSON and SVG emission and editor plugins: string output.
- SHA-256 digests, regular expressions other than the two page patterns, and glob matching: uninterpreted or left out.
