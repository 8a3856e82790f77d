# LewLM: verified model

LewLM serves local language models behind an OpenAI-style API. This Dafny project models the parts of
it whose correctness is least visible from the code, and proves what they are for:

- **The JSON-schema validator** (`src/lewlm/structured_output.py`). It interprets a schema with cyclic
  references over a value and stops after 64 reference hops that consume nothing. The main result is
  that the bound is invisible whenever it is not met: the keyword equations, which know no bound, then
  have exactly one solution and the validator computes it. Documents whose chains of references end
  within the bound never meet it, whatever the value. Under `not`, `oneOf` and `maxContains` the bound
  can decide the verdict; for one document of each kind the project says exactly which bounds accept.
- **The strict tool-call parser** (`src/lewlm/tool_calls.py`, `src/lewlm/tool_call_contract.py`): a
  recursive-descent parser proved sound, complete and unambiguous for its grammar, candidate extraction,
  and the accounting of every call. Rendering prior calls and parsing them is the identity, for calls
  that do not hold the mark of a Gemma call.
- **The OpenAPI `$defs` hoister** (`src/lewlm/api/openapi.py`): it loses no component, every reference
  it leaves leads to a component, and it preserves what every reference means when it takes nothing for
  equal that is not and renames no definition that another refers to. Otherwise it need not; the exact
  conditions are proved, with documents that show it.
- **The checkpoint normaliser** (`src/lewlm/conversion/checkpoint.py`): a byte-level safetensors rewrite
  under a bundle-level transformation that reaches a fixpoint in one pass.
- **The JANG dequantiser** (`src/lewlm/conversion/jang.py`): bit packing, chunked expansion that refines
  a pointwise formula, and the accounting of a bundle's tensors.
- **The SSE reader** (`scripts/backend_acceptance.py`) and **serving profiles**
  (`src/lewlm/serving_profiles.py`).

## How the model is laid out

Values are JSON trees in which a dictionary is the sequence of its items in insertion order
(`JsonValues`). Loops and in-place updates of the source are methods with loops; each is proved equal to
a specification function, and the theorems are about that function. What a function shared by both
means is stated without it, key by key and character by character, in the modules called readings and
beside them. Modules follow the source files:

| component | modules |
|---|---|
| shared | `Wrappers`, `JsonValues`, `JsonEquality`, `Numerals`, `Whitespace` |
| validator | `JsonPointer`, `PointerDecoding`, `DistinctItems`, `SchemaChecks`, `SchemaIssues`, `SchemaSemantics`, `SchemaValidator`, `SchemaTheorems`, `SchemaRanks`, `SchemaExamples` |
| tool calls | `GemmaLexical`, `GemmaSyntax`, `GemmaParser`, `GemmaGrammar`, `GemmaReadings`, `JsonText`, `ToolCallContract`, `ToolCalls`, `ToolCallTheorems`, `ToolCallMarkers`, `ToolCallRoundTrip`, `ToolCallReadings` |
| OpenAPI | `OpenApiHoist`, `OpenApiTheorems`, `OpenApiConflicts`, `OpenApiReferences`, `OpenApiMeaning`, `OpenApiAgreement`, `OpenApiPaths`, `OpenApiCounterexamples` |
| checkpoints | `Safetensors`, `Checkpoint`, `CheckpointTheorems`, `CheckpointFiles` |
| JANG | `Jang`, `Dequantize`, `JangBundle` |
| SSE, profiles | `EventStream`, `EventStreamTheorems`, `EventStreamReadings`, `ServingProfiles`, `ServingProfileReadings` |

What the modelled code calls and does not define is a parameter: regular expressions, `json.loads`, the
decoding of bytes above ASCII, `int`, `str`, half-precision arithmetic, the order of a directory
listing. Where a theorem needs a law of such a parameter (finditer yields increasing disjoint spans,
printing and reading JSON is the identity), the law is a named predicate in its `requires`.

## Where the code departs from its standards and documents

The model follows the code.

- `integer` refuses `1.0` (`structured_output.py` line 938); JSON Schema Validation section 6.1.1 accepts
  it. The two agree exactly on all values but floats without a fraction
  (`SchemaExamples.IntegerAgreesExactly`).
- A pointer is split and tilde-decoded before it is percent-decoded (`structured_output.py` lines
  874-877); section 6 of RFC 6901 decodes percent escapes first. They read a token alike exactly when
  percent-decoding makes no new `~0` or `~1`, and a whole pointer when it makes no new slash either
  (`PointerDecoding`).
- An unresolvable `$ref` is an issue, so under `not` it makes every value acceptable
  (`SchemaTheorems.UnresolvableUnderNot`).
- The hop bound decides verdicts: `{"not": {"$ref": "#"}}` and `{"oneOf": [{"$ref": "#"}, true]}` accept
  by its parity, and a `contains` with `maxContains` accepts only while the bound is too small to follow
  its chain of references (`SchemaTheorems.NegationCountsHops`, `SchemaExamples.OneOfCountsHops`,
  `SchemaExamples.MaxContainsCountsHops`).
- The hoister compares definitions with Python's `==` (`openapi.py` lines 105-110), for which `true` is 1.
  A component `{"const": 1}` is replaced by a definition `{"const": true}` of its name
  (`OpenApiCounterexamples.ConflationReplacesAComponent`).
- The hoister removes every `$defs` key (`openapi.py` line 77), whether it is a keyword or not: a property
  of that name, or a default that is a schema, is lost (`OpenApiCounterexamples.PropertyNamedDefsIsLost`,
  `OpenApiCounterexamples.DefaultWithDefsIsLost`).
- The pass that repoints sibling references after a rename (`openapi.py` lines 116-119) changes nothing,
  because line 100 has already rewritten every reference it looks for. A renamed definition's siblings
  keep referring to the name it lost (`OpenApiCounterexamples.RenamedDocumentGoesAstray`).
- A safetensors shard that inspection skips as unreadable (`checkpoint.py` lines 249-252) makes the rewrite
  of the bundle fail (`CheckpointTheorems.UnreadableShardStopsNormalising`).
- `_has_content` raises on a decoded event that is not an object; the SSE reader then raises too
  (`EventStreamTheorems.NumberRaises`).
- JANG scales and biases are skipped whether or not a weight is expanded with them
  (`JangBundle.SidecarIsUsedExactly`).
- Materialisation compares the settings with the override as given, not as validated
  (`ServingProfiles.CoercionMaterializesNothing`).

## Model

| member | source | states |
|---|---|---|
| `JsonValues.EqualReflexive` | src/lewlm/structured_output.py:908-919 | JSON equality and Python equality hold between a value and itself |
| `JsonValues.EqualSymmetric` | src/lewlm/structured_output.py:908-919 | both equalities are symmetric, through dictionaries and lists |
| `JsonValues.EqualTransitive` | src/lewlm/structured_output.py:908-919 | both equalities are transitive |
| `JsonValues.BooleansStandApart` | src/lewlm/structured_output.py:911-912 | a boolean is JSON-equal to itself only, although Python identifies it with a number |
| `JsonEquality.EqualExactlyWhenSameEverywhere` | src/lewlm/structured_output.py:908-919 | two values are JSON-equal exactly when they have the same paths and, at each, the same kind and content |
| `JsonPointer.ResolveReference` | src/lewlm/structured_output.py:859-892 | the token loop reaches what the recursive walk reaches, and fails when it does |
| `JsonPointer.ResolvedTargetIsANode` | src/lewlm/structured_output.py:874-892 | whatever a reference resolves to is the node of the document at some path |
| `JsonPointer.PointerRoundTrip` | src/lewlm/structured_output.py:866-892 | escaping a path as a pointer and resolving it reaches exactly the node at the path, for keys that percent-decoding leaves alone |
| `JsonPointer.OnlyPointersResolve` | src/lewlm/structured_output.py:863-873 | `#` is the document, and a reference that does not go on with `#/` resolves to nothing |
| `JsonPointer.FirstStep` | src/lewlm/structured_output.py:874-892 | the first token is looked up in the document |
| `JsonPointer.StepResolvesExactly` | src/lewlm/structured_output.py:875-892 | one more token reaches the value of a key that is there or the item of an index in range, and nothing otherwise |
| `JsonPointer.NothingBehindNothing` | src/lewlm/structured_output.py:875-892 | behind a reference that leads nowhere nothing is found |
| `PointerDecoding.DecodingOrderAgreesExactly` | src/lewlm/structured_output.py:875-877 | the code's decoding order and that of RFC 6901 give the same token exactly when percent-decoding makes no new `~0` or `~1` pair in it |
| `PointerDecoding.PointersReadAlikeExactly` | src/lewlm/structured_output.py:874-877 | and read a whole pointer as the same tokens exactly when it makes no new slash and no new pair |
| `PointerDecoding.DecodingOrderDiffers` | src/lewlm/structured_output.py:875-877 | on `%7E1` they give the keys `~1` and `/` |
| `PointerDecoding.AsciiEscapeReads` | src/lewlm/structured_output.py:877 | a percent escape of an ASCII character, in upper or lower case, is that character |
| `PointerDecoding.HighEscapesRead` | src/lewlm/structured_output.py:877 | escapes above ASCII that follow one another are decoded together |
| `PointerDecoding.BarePercentStays` | src/lewlm/structured_output.py:877 | a percent sign without two hexadecimal digits behind it stays |
| `DistinctItems.NoRepeatsMeansDistinct` | src/lewlm/structured_output.py:688-700 | the loop that compares with kept items only reports nothing exactly when all items are pairwise distinct |
| `DistinctItems.RepeatsCounted` | src/lewlm/structured_output.py:688-700 | it reports the number of items less the number of equivalence classes, for any equivalence |
| `SchemaSemantics.JsonEqualIsEquivalence` | src/lewlm/structured_output.py:908-919 | JSON equality is such an equivalence |
| `SchemaSemantics.DuplicatesCounted` | src/lewlm/structured_output.py:688-700 | hence `uniqueItems` reports length less classes of equal items |
| `SchemaChecks.ChecksFit` | src/lewlm/structured_output.py:308-758 | every recursive visit is on a smaller part of the value, or on the same value with a smaller schema: validation terminates on every schema, cyclic references included |
| `SchemaSemantics.ChecksMeaning` | src/lewlm/structured_output.py:422-856 | the checks a node performs hold, for any verdicts of its subschemas, exactly when a formula does that reads each keyword by itself |
| `SchemaSemantics.ScalarMeaning` | src/lewlm/structured_output.py:333-374 | nothing is wrong with `const`, `enum` and `type` exactly when their formula holds, an unknown type name admitting every value |
| `SchemaSemantics.FarMeaning` | src/lewlm/structured_output.py:843-856 | a quotient is far from an integer exactly when no integer is within a billionth |
| `SchemaSemantics.CompositionMeaning` | src/lewlm/structured_output.py:422-479 | the counting checks of `allOf`, `anyOf`, `oneOf` and `not` mean all, some, exactly one and none |
| `SchemaSemantics.ObjectMeaning` | src/lewlm/structured_output.py:529-658 | the object checks mean the object keywords, with `additionalProperties` applied to exactly the keys no property and no pattern names |
| `SchemaSemantics.ArrayMeaning` | src/lewlm/structured_output.py:661-758 | the array checks mean the array keywords, `contains` by the number of satisfying positions |
| `SchemaSemantics.StringMeaning` | src/lewlm/structured_output.py:761-798 | the string checks mean length bounds and a pattern that compiles |
| `SchemaSemantics.NumberMeaning` | src/lewlm/structured_output.py:801-856 | the number checks mean the four bounds and divisibility within the tolerance |
| `SchemaTheorems.LargerBoundSameIssues` | src/lewlm/structured_output.py:377-479 | a validation that never meets the bound reports exactly the same issues under every larger bound |
| `SchemaTheorems.ValidatorIsTheOnlySolution` | src/lewlm/structured_output.py:308-758 | whatever solves the unbounded keyword equations agrees with the validator wherever the bound is not met |
| `SchemaTheorems.ValidatorSolvesTheEquations` | src/lewlm/structured_output.py:308-758 | the validator's own verdict solves them |
| `SchemaTheorems.VerdictIsTheUnboundedOne` | src/lewlm/structured_output.py:972-984 | with the program's bound of 64, not met, no issues means the unbounded semantics holds, and conversely |
| `SchemaTheorems.PositiveAcceptsMore` | src/lewlm/structured_output.py:377-479 | without `not`, `oneOf` and `maxContains`, a value accepted with few hops left is accepted with more, at every node |
| `SchemaTheorems.BoundNeverAddsAcceptance` | src/lewlm/structured_output.py:394-404 | so for such schemas stopping at the bound never accepts what a larger bound rejects |
| `SchemaTheorems.NegationCountsHops` | src/lewlm/structured_output.py:469-478 | `{"not": {"$ref": "#"}}` accepts exactly when the number of hops left is even |
| `SchemaTheorems.UnresolvableUnderNot` | src/lewlm/structured_output.py:405-418 | an unresolvable reference rejects every value, and under `not` accepts every value |
| `SchemaRanks.RankedIsClean` | src/lewlm/structured_output.py:377-479 | if a rank falls at every reference, does not rise at `allOf`, `anyOf`, `oneOf` and `not`, and stays within the bound, no value makes validation meet the bound |
| `SchemaRanks.RankedVerdictIsTheUnboundedOne` | src/lewlm/structured_output.py:972-984 | so in a document ranked by 64 the verdict on every value is that of the unbounded equations |
| `SchemaRanks.ChainedIsRanked` | src/lewlm/structured_output.py:394-404 | a document that recurs through a property is ranked by one hop |
| `SchemaExamples.NodeMeans` | src/lewlm/structured_output.py:308-374 | a node reports nothing exactly when its reference resolves and accepts and its keyword formula holds, for the validator's verdicts on its parts |
| `SchemaExamples.ConstAccepts` | src/lewlm/structured_output.py:333-341 | `const` accepts exactly the JSON-equal values |
| `SchemaExamples.TypeAccepts` | src/lewlm/structured_output.py:930-947 | which kinds of value each of the seven type names accepts, and that any other name accepts every value |
| `SchemaExamples.TypesAccept` | src/lewlm/structured_output.py:922-927 | a list of types accepts what one of its names accepts, and everything if it holds no name |
| `SchemaExamples.ContainsAccepts` | src/lewlm/structured_output.py:726-747 | `contains` alone accepts a list exactly when its schema accepts some item |
| `SchemaExamples.MultipleAccepts` | src/lewlm/structured_output.py:843-856 | `multipleOf` accepts a float exactly when the quotient is within a billionth of an integer |
| `SchemaExamples.IntegerAgreesExactly` | src/lewlm/structured_output.py:937-938 | type `integer` agrees with section 6.1.1 of JSON Schema Validation exactly on values that are no float without a fraction |
| `SchemaExamples.IntegerRefusesOnePointZero` | src/lewlm/structured_output.py:937-938 | it refuses `1.0`, which that section accepts |
| `SchemaExamples.OneOfCountsHops` | src/lewlm/structured_output.py:394-404 | `{"oneOf": [{"$ref": "#"}, true]}` accepts exactly when the number of hops left is even |
| `SchemaExamples.LinkCountsHops` | src/lewlm/structured_output.py:394-404 | link `i` of a chain of references accepts exactly when `i` hops are left |
| `SchemaExamples.MaxContainsCountsHops` | src/lewlm/structured_output.py:739-757 | with `maxContains` 0 over a chain of `k + 1` references a one-item array is accepted exactly by bounds up to `k` |
| `SchemaExamples.ProgramFollowsSixtyFour` | src/lewlm/structured_output.py:394-404 | the program follows a chain of 64 references and no longer one |
| `SchemaValidator.ValidateNode` | src/lewlm/structured_output.py:308-374 | the recursive method reports exactly the specified issues, in order, with their paths; it terminates by value size, hops left and schema size |
| `SchemaValidator.ValidateReference` | src/lewlm/structured_output.py:377-419 | bound, unresolvable target and recursion in the program's order |
| `SchemaValidator.ValidateComposition` | src/lewlm/structured_output.py:422-479 | the composition loops report what the specification of those keywords reports |
| `SchemaValidator.ValidateObject` | src/lewlm/structured_output.py:529-658 | the object loops, with the set of pattern-matched keys they build, report the specified issues |
| `SchemaValidator.ValidateArray` | src/lewlm/structured_output.py:661-758 | the array loops, with the list of seen items they build, report the specified issues |
| `SchemaValidator.ValidateString` | src/lewlm/structured_output.py:761-798 | the string checks in order |
| `SchemaValidator.ValidateNumber` | src/lewlm/structured_output.py:801-856 | the number checks in order |
| `SchemaValidator.ValidateAgainstSchema` | src/lewlm/structured_output.py:972-984 | the entry point, with the schema as its own reference root and 64 hops |
| `GemmaLexical.ClosedAtItsEnd` | src/lewlm/tool_calls.py:225-230 | the string delimiter has no border: searching for it after a delimiter-free string finds the one that closes it |
| `GemmaSyntax.TreeSound` | src/lewlm/tool_calls.py:223-271 | an accepted prefix is the text of a valid derivation tree |
| `GemmaSyntax.TreeParses` | src/lewlm/tool_calls.py:223-271 | the text of any valid tree parses to that tree, whatever follows that cannot extend a number |
| `GemmaSyntax.Unambiguous` | src/lewlm/tool_calls.py:223-271 | two derivations of one text are equal |
| `GemmaGrammar.LayoutDoesNotMatter` | src/lewlm/tool_calls.py:215-288 | printing a value with any whitespace around any token and parsing it gives the value, at the end of the text |
| `GemmaGrammar.AcceptedTextsDerive` | src/lewlm/tool_calls.py:215-220 | every accepted text has a derivation that denotes the value returned |
| `GemmaGrammar.OneDerivation` | src/lewlm/tool_calls.py:215-288 | and only one, whitespace included |
| `GemmaGrammar.EveryValueHasADerivation` | src/lewlm/tool_calls.py:223-271 | every nested value with distinct keys, and floats that some power of ten makes whole, can be written in the grammar |
| `GemmaGrammar.FloatValue` | src/lewlm/tool_calls.py:241-246 | all digits of a number make one integer; the fraction and the exponent move its decimal point |
| `GemmaGrammar.EscapedBodyScans` | src/lewlm/tool_calls.py:231-235 | an escaped string is scanned back to itself and no further than its closing quote |
| `GemmaParser.SkipWhitespace` | src/lewlm/tool_calls.py:285-288 | the position after all leading whitespace |
| `GemmaReadings.SpacesSpelledOut` | src/lewlm/tool_calls.py:285-288 | the characters that count as whitespace, one by one |
| `GemmaParser.ParseKey` | src/lewlm/tool_calls.py:274-282 | a key in any of its three forms, or the error |
| `GemmaParser.ParseValue` | src/lewlm/tool_calls.py:223-246 | succeeds exactly when the text here has a derivation, returns its meaning, and moves strictly forward within the text |
| `GemmaParser.ParseContainerAt` | src/lewlm/tool_calls.py:249-253 | the same for a container after its bracket |
| `GemmaParser.ParseItemsAt` | src/lewlm/tool_calls.py:254-271 | the endless loop ends, at the container's closing bracket or at an error, with the items of the derivation |
| `GemmaParser.ParseArguments` | src/lewlm/tool_calls.py:215-220 | one value and nothing behind it |
| `GemmaReadings.IntegerRead` | src/lewlm/tool_calls.py:241-246 | a sign and digits without a leading zero are that integer |
| `GemmaReadings.FractionRead` | src/lewlm/tool_calls.py:241-246 | with a fraction of k digits the value times ten to the k is the integer of all digits |
| `GemmaReadings.ExponentRead` | src/lewlm/tool_calls.py:241-246 | an exponent moves the point further left after a minus sign and right otherwise |
| `GemmaReadings.HalfRead` | src/lewlm/tool_calls.py:241-246 | `0.5` is a half |
| `GemmaReadings.LeadingZeroRefused` | src/lewlm/tool_calls.py:241-246 | a leading zero is refused |
| `GemmaReadings.WordsRead` | src/lewlm/tool_calls.py:244-245 | `true`, `false` and `null` |
| `GemmaReadings.DelimitedRead` | src/lewlm/tool_calls.py:225-230 | a text between string delimiters stands for itself |
| `GemmaReadings.DumpedStringRead` | src/lewlm/tool_calls.py:231-235 | a string as `json.dumps` writes it is read back, whatever its characters, surrogate pairs included |
| `GemmaReadings.OtherEscapesRead` | src/lewlm/tool_calls.py:231-235 | an escaped slash and upper-case hexadecimal digits are read too |
| `GemmaReadings.ControlRefused` | src/lewlm/tool_calls.py:231-235 | a raw control character in a quoted string is refused |
| `GemmaReadings.BareKeyRead` | src/lewlm/tool_calls.py:274-282 | a key of the pattern of bare keys needs no quotes |
| `JsonText.DumpsPrints` | src/lewlm/tool_call_contract.py:81 | compact JSON is printable ASCII, so it holds no raw newline, whatever its strings hold |
| `ToolCallContract.RenderPriorToolCalls` | src/lewlm/tool_call_contract.py:67-81 | the loop renders every call in order, or raises where the source raises |
| `ToolCallReadings.RenderedCallIs` | src/lewlm/tool_call_contract.py:67-81 | the rendered id, name and arguments: a string of arguments is decoded if it can be, other arguments stay, missing ones are the text `{}` decoded |
| `ToolCallReadings.RenderingFailsExactly` | src/lewlm/tool_call_contract.py:67-81 | rendering raises exactly on a `function` that is neither a dictionary nor false in Python |
| `ToolCalls.RemoveSpans` | src/lewlm/tool_calls.py:297-306 | the text outside the spans, in order |
| `ToolCalls.NothingElseRemoved` | src/lewlm/tool_calls.py:297-306 | removing spans loses exactly the characters inside them |
| `ToolCalls.ExtractNativeCandidates` | src/lewlm/tool_calls.py:198-212 | one candidate for every Gemma span, and the text without the spans |
| `ToolCalls.ExtractCandidates` | src/lewlm/tool_calls.py:169-188 | the taken fences, or the whole text when there is none and it looks like a call |
| `ToolCalls.ValidateCallPayload` | src/lewlm/tool_calls.py:330-381 | a call exactly when nothing is wrong with the payload, else the first thing that is |
| `ToolCalls.ParseToolCalls` | src/lewlm/tool_calls.py:101-166 | the whole parser equals its specification |
| `Whitespace.StripSplits` | src/lewlm/tool_calls.py:169-188 | stripping takes whitespace off both ends and nothing else |
| `ToolCallReadings.LooksLikeExactly` | src/lewlm/tool_calls.py:291-294 | a text looks like a call exactly when it is in braces and quotes one of the three keys |
| `ToolCallReadings.ShapesAre` | src/lewlm/tool_calls.py:309-327 | the calls of a candidate are the objects of a non-empty list under `tool_calls`, else the object under `tool_call`, else itself if it has a name |
| `ToolCallReadings.OnlyObjectsHaveShapes` | src/lewlm/tool_calls.py:310-311 | a candidate that is no object has no calls |
| `ToolCallReadings.FaultlessExactly` | src/lewlm/tool_calls.py:337-372 | a payload has no fault exactly when its name is not blank, the last declared tool of that name is there, its arguments are an object and that tool's schema accepts them |
| `ToolCallReadings.CallsAreNumbered` | src/lewlm/tool_calls.py:120-152 | call i answers the i-th faultless entry with that payload's name and arguments, and with its own non-empty id or else `call_` and i, counted from one |
| `ToolCallReadings.GeneratedIdsAreDistinct` | src/lewlm/tool_calls.py:373-375 | so generated ids are pairwise distinct |
| `ToolCallReadings.TwoCallsAreNumbered` | src/lewlm/tool_calls.py:373-375 | two calls without ids are `call_1` and `call_2` |
| `ToolCallTheorems.EveryEntryIsAnswered` | src/lewlm/tool_calls.py:120-152 | calls and issues answer the entries one for one, in order, calls numbered from one and issues with the entry's candidate index |
| `ToolCallTheorems.CallsAndIssuesAccountForEverything` | src/lewlm/tool_calls.py:120-152 | calls plus issues equals undecodable candidates plus bad shapes plus call entries of well-shaped candidates |
| `ToolCallTheorems.StatusMeansWhatItSays` | src/lewlm/tool_calls.py:106-111 | the four statuses hold exactly as documented |
| `ToolCallTheorems.ReportedCallsAreValid` | src/lewlm/tool_calls.py:337-381 | every reported call names a declared tool and its arguments pass that tool's schema with no issue |
| `ToolCallMarkers.DumpsShows` | src/lewlm/tool_call_contract.py:81 | the JSON text holds a plain mark if a string or key of the value does, and only then if the mark has no JSON punctuation |
| `ToolCallRoundTrip.RenderThenParse` | src/lewlm/tool_call_contract.py:67-81 | rendering valid prior calls and parsing the text gives the same ids, names and arguments, status parsed and nothing left, if no string of the calls holds the mark of a Gemma call |
| `ToolCallRoundTrip.RoundTripsExactly` | src/lewlm/tool_call_contract.py:67-81 | for calls the first of which is not already called `call_1`, that holds exactly when the text has no Gemma span |
| `ToolCallRoundTrip.CallHoldingASpan` | src/lewlm/tool_call_contract.py:67-81 | a call that holds the text of a span does not come back |
| `OpenApiHoist.FreeSuffix` | src/lewlm/api/openapi.py:108-112 | the suffix search ends, at the first suffix that is free or holds the same content |
| `OpenApiHoist.Registry.HoistNode` | src/lewlm/api/openapi.py:69-84 | the traversal that updates the shared components gives the specified document and components |
| `OpenApiHoist.Registry.RegisterDefinition` | src/lewlm/api/openapi.py:103-114 | the components afterwards differ from those before in the chosen name only |
| `OpenApiHoist.Registry.RegisterDefinitions` | src/lewlm/api/openapi.py:87-120 | preparing, registering and repointing a block, as specified |
| `OpenApiTheorems.RewriteRemovesLocal` | src/lewlm/api/openapi.py:123-153 | one rewriting pass leaves no local reference, in `$ref` or in a discriminator mapping |
| `OpenApiTheorems.RewriteIsIdempotent` | src/lewlm/api/openapi.py:123-153 | and where there is none a further pass changes nothing |
| `OpenApiPaths.RewriteRepointsReferences` | src/lewlm/api/openapi.py:123-153 | at every path: a string under `$ref` or in the mapping of a discriminator that starts with `#/$defs/` becomes `#/components/schemas/` and the final name, and everything else stays |
| `OpenApiPaths.MappingIsRepointed` | src/lewlm/api/openapi.py:137-144 | an entry of a discriminator's mapping is repointed |
| `OpenApiPaths.NothingLocalIsLeft` | src/lewlm/api/openapi.py:69-153 | if every local reference of the document stands below a block and no component has one, none is left at any such path of the output or its components |
| `OpenApiTheorems.SecondPassChangesNothing` | src/lewlm/api/openapi.py:116-119 | so repointing siblings after a rename changes no component |
| `OpenApiTheorems.RegistrationIsExactUnlessItConflates` | src/lewlm/api/openapi.py:103-114 | a registration leaves every component JSON-equal to what it was exactly when the final name is not held by a component that Python calls equal and JSON does not |
| `OpenApiTheorems.EveryDefinitionIsPublished` | src/lewlm/api/openapi.py:103-114 | after each registration every definition of the block so far is the component of its final name, up to Python's equality, and JSON-equal where nothing is conflated |
| `OpenApiTheorems.RegisterPublishes` | src/lewlm/api/openapi.py:87-120 | after a block is registered, the component of every definition's final name equals its prepared content, in the same two senses |
| `OpenApiTheorems.HoistIsConservative` | src/lewlm/api/openapi.py:69-120 | no `$defs` key survives anywhere and no existing component is lost; each stays Python-equal to what it was, and JSON-equal where no registration conflates |
| `OpenApiReferences.RepointingResolves` | src/lewlm/api/openapi.py:123-153 | repointing a schema of a block leaves every reference leading to a component, once every definition's final name is one |
| `OpenApiReferences.HoistingIsClosed` | src/lewlm/api/openapi.py:69-153 | renames and conflations included, every component reference in the hoisted document and in every component names an existing component |
| `OpenApiMeaning.EqualSchemasUnfoldEqually` | src/lewlm/api/openapi.py:105-106 | JSON-equal schemas unfold to JSON-equal trees, so reusing a JSON-equal component is sound |
| `OpenApiAgreement.HoistIsFlat` | src/lewlm/api/openapi.py:69-120 | when definitions of one name agree, every definition becomes a component, and the document is the input without its blocks and with its local references repointed |
| `OpenApiMeaning.HoistingKeepsMeaning` | src/lewlm/api/openapi.py:69-153 | when nothing is conflated, no definition refers to one its block renames, `$defs` is always a keyword and blocks do not nest, unfolding the document, or any component, to any depth gives JSON-equal trees before (references resolved in their own block) and after (resolved in the components), discriminator mappings included |
| `OpenApiAgreement.UndisturbedExactlyWhenConsistent` | src/lewlm/api/openapi.py:103-114 | nothing is renamed exactly when all definitions of one name, and the component of that name, are Python-equal once repointed; nothing is renamed or conflated exactly when they are JSON-equal |
| `OpenApiAgreement.ConsistentDocumentKeepsItsMeaning` | src/lewlm/api/openapi.py:69-153 | so a document whose definitions of one name are JSON-equal keeps its meaning |
| `OpenApiConflicts.SiblingReferenceIsRightExactlyWhenNotRenamed` | src/lewlm/api/openapi.py:94-120 | a reference beside the block follows a rename; one among the definitions names the component of the lost name, which holds the definition exactly when that name was free at the definition's turn |
| `OpenApiConflicts.RenamedSelfReferenceGoesAstray` | src/lewlm/api/openapi.py:94-120 | a recursive definition whose name is taken is published under a new name and still refers to the other component |
| `OpenApiConflicts.ConflictExample` | src/lewlm/api/openapi.py:94-120 | one concrete such block |
| `OpenApiCounterexamples.RenamedDocumentGoesAstray` | src/lewlm/api/openapi.py:69-120 | hoisting a document that uses its recursive definition, beside another component of that name, gives a document that refers to the renamed definition, which still refers to the other component |
| `OpenApiCounterexamples.RenamedDocumentExample` | src/lewlm/api/openapi.py:69-120 | one concrete such document |
| `OpenApiCounterexamples.NamesAreKeptExactly` | src/lewlm/api/openapi.py:103-107 | a definition keeps its name exactly when the name is unused, null or held by what Python calls equal |
| `OpenApiCounterexamples.SuffixesCountFromTwo` | src/lewlm/api/openapi.py:108-112 | otherwise it is given the suffix `_2`, or `_3` if that is taken too |
| `OpenApiCounterexamples.ConflationReplacesAComponent` | src/lewlm/api/openapi.py:105-107 | registering `{"const": true}` over the component `{"const": 1}` renames nothing, replaces the component, and the validator then rejects the value 1 that it accepted |
| `OpenApiCounterexamples.PropertyNamedDefsIsLost` | src/lewlm/api/openapi.py:77-79 | a property named `$defs` is lost, and the unfolded document differs |
| `OpenApiCounterexamples.DefaultWithDefsIsLost` | src/lewlm/api/openapi.py:77-79 | so is a `$defs` inside a default value |
| `Safetensors.ReadsBackNumber` | src/lewlm/conversion/checkpoint.py:323 | a number written little-endian in a fixed width is read back |
| `Safetensors.ReadsBackBytes` | src/lewlm/conversion/checkpoint.py:323 | and bytes read as a number are written back |
| `Safetensors.RereadHeader` | src/lewlm/conversion/checkpoint.py:377-383 | a written header is read back, with the payload where the length says |
| `Safetensors.CopyPayload` | src/lewlm/conversion/checkpoint.py:381-385 | copying buffer by buffer appends exactly the payload |
| `Safetensors.RewriteSafetensorsNames` | src/lewlm/conversion/checkpoint.py:356-385 | the rewrite method equals its specification, errors included |
| `Safetensors.RenamingSucceedsExactly` | src/lewlm/conversion/checkpoint.py:365-376 | renaming a header succeeds exactly when no two new names meet, and then changes names only |
| `Safetensors.RewritePreservesTensors` | src/lewlm/conversion/checkpoint.py:356-385 | re-reading the output gives the renamed header, the payload starts on an eight-byte boundary and is the old one, and every entry's offsets find the bytes they found |
| `Safetensors.RenamedEntryIsFound` | src/lewlm/conversion/checkpoint.py:365-376 | an entry is looked up under its new name where it was under the old one |
| `Checkpoint.ValidatedIndexShardNames` | src/lewlm/conversion/checkpoint.py:257-295 | the loop gives each safe existing shard once in order of appearance, or the first error |
| `Checkpoint.ReadTensorInventory` | src/lewlm/conversion/checkpoint.py:237-254 | names from the index, or from every shard whose header can be read |
| `Checkpoint.InspectCheckpointLayout` | src/lewlm/conversion/checkpoint.py:116-145 | the layout as specified; without tensor names only the config is reported |
| `Checkpoint.RewriteIndex` | src/lewlm/conversion/checkpoint.py:388-394 | the weight map rebuilt name by name |
| `Checkpoint.WriteShards` | src/lewlm/conversion/checkpoint.py:203-210 | every weight file rewritten or linked, or the first shard that cannot be |
| `Checkpoint.NormalizeCheckpointBundle` | src/lewlm/conversion/checkpoint.py:177-234 | the whole normalisation equals its specification |
| `CheckpointTheorems.NamesMeetExactly` | src/lewlm/conversion/checkpoint.py:298-302 | two names are renamed alike exactly when they are equal or one is the other, a backbone name, under the prefix |
| `CheckpointTheorems.PrefixingIsInjective` | src/lewlm/conversion/checkpoint.py:298-302 | so renaming is injective on names without the prefix |
| `CheckpointTheorems.ShardCollidesExactly` | src/lewlm/conversion/checkpoint.py:370-375 | a shard's renaming fails exactly when its header holds a backbone name both bare and prefixed |
| `CheckpointTheorems.IndexKeepsShards` | src/lewlm/conversion/checkpoint.py:388-394 | the rebuilt weight map has the same entries under new names, in order, each in the same shard |
| `CheckpointTheorems.TensorStaysInItsShard` | src/lewlm/conversion/checkpoint.py:388-394 | looked up under its new name a tensor is in the shard it was in |
| `CheckpointTheorems.NamesAfter` | src/lewlm/conversion/checkpoint.py:132-142 | after renaming no prefix is missing, and what the names say of `lm_head` and the decoder roots is unchanged |
| `CheckpointTheorems.ShardRewritesExactly` | src/lewlm/conversion/checkpoint.py:356-385 | a shard is rewritten exactly when its header can be read, holds no backbone name both bare and prefixed, and its new header fits the length field |
| `CheckpointTheorems.NormalizesExactly` | src/lewlm/conversion/checkpoint.py:71-103 | a bundle is normalised exactly when inspection succeeds and asks for it and, if the prefix is missing, every weight file can be rewritten |
| `CheckpointTheorems.UnreadableShardStopsNormalising` | src/lewlm/conversion/checkpoint.py:244-254 | with one rewritable shard and one that cannot be decoded, inspection asks for normalisation and normalising fails at the second |
| `CheckpointTheorems.EightZeroBytes` | src/lewlm/conversion/checkpoint.py:311-350 | eight zero bytes are a shard that cannot be decoded, as JSON refuses the empty text |
| `CheckpointTheorems.OnePassIsEnough` | src/lewlm/conversion/checkpoint.py:71-103 | for every such bundle normalising succeeds, inspecting the output finds nothing to normalise, normalising it does nothing, its tensors are the input's renamed, and it is a decoder exactly when the input was |
| `CheckpointTheorems.EveryTensorKeepsItsBytes` | src/lewlm/conversion/checkpoint.py:198-210 | for every such bundle, in every rewritten shard each tensor has its old bytes under its new name |
| `CheckpointFiles.PrefixedExactly` | src/lewlm/conversion/checkpoint.py:298-302 | the prefix goes to the tensors under `embed_tokens`, `layers`, `norm` and `rotary_emb`, and to no other |
| `CheckpointFiles.NeedsExactly` | src/lewlm/conversion/checkpoint.py:71-90 | normalising is asked for exactly when such tensors are there and none has the prefix, or the config denies the tie and there is no `lm_head` |
| `CheckpointFiles.DecoderExactly` | src/lewlm/conversion/checkpoint.py:84-103 | a decoder has layers and embeddings, bare or under the prefix, or an architecture that says so |
| `CheckpointFiles.IndexAcceptedExactly` | src/lewlm/conversion/checkpoint.py:257-295 | an index is accepted exactly when each of its values is a shard's file name, no path, and is there |
| `CheckpointFiles.ShardsAreListed` | src/lewlm/conversion/checkpoint.py:257-295 | its shards are then listed, each once |
| `CheckpointFiles.WeightFilesAre` | src/lewlm/conversion/checkpoint.py:305-308 | the weight files are the index's shards that exist, or without one every shard that is not hidden |
| `CheckpointFiles.SupportFilesAreKept` | src/lewlm/conversion/checkpoint.py:411-423 | every file that is neither a shard nor hidden is in the output with its old bytes; nothing else is there but the weight files |
| `CheckpointFiles.ShardsAreKept` | src/lewlm/conversion/checkpoint.py:203-210 | when only the tie is reconciled every weight file keeps all its bytes |
| `CheckpointFiles.ConfigIsKept` | src/lewlm/conversion/checkpoint.py:397-408 | every config key keeps its value but the tie, which becomes true exactly where the config promises a head that is not there |
| `CheckpointFiles.IndexIsKept` | src/lewlm/conversion/checkpoint.py:388-394 | every index key but the weight map keeps its value |
| `CheckpointFiles.ArchitecturesExactly` | src/lewlm/conversion/checkpoint.py:120-122 | the architectures are the strings of a list, the keys of a dictionary, the characters of a string; other values raise |
| `CheckpointFiles.TensorsAreKeys` | src/lewlm/conversion/checkpoint.py:253 | a header's tensors are its keys but for the metadata |
| `CheckpointFiles.HeaderReadExactly` | src/lewlm/conversion/checkpoint.py:311-353 | when a header is read, and which error it is otherwise |
| `Jang.UnpackAfterPack` | src/lewlm/conversion/jang.py:299-309 | unpacking inverts packing of values that fit their bits |
| `Jang.PackAfterUnpack` | src/lewlm/conversion/jang.py:299-309 | packing inverts unpacking of a word that fits |
| `Jang.WordsRoundTrip` | src/lewlm/conversion/jang.py:293-301 | for 4, 8 and 16 values in a word the fields fill 32 bits exactly and both hold |
| `Dequantize.ValuesPerWord` | src/lewlm/conversion/jang.py:254-298 | when every check passes, shapes match and the words of a row hold exactly its output columns |
| `Dequantize.DequantizesExactly` | src/lewlm/conversion/jang.py:253-298 | dequantising succeeds exactly when the words of every row, of 4, 8 or 16 values, fill its groups and the other dimensions agree |
| `Dequantize.ErrorsInOrder` | src/lewlm/conversion/jang.py:254-298 | and otherwise reports the first check that fails |
| `Dequantize.SlicesRemoveNothing` | src/lewlm/conversion/jang.py:309-312 | the unpacked row and the repeated scales and biases are exactly as long as the output, so the final slices remove nothing |
| `Dequantize.ChunkIsBounded` | src/lewlm/conversion/jang.py:304-307 | a chunk has at most 32,000,000 values or is a single row |
| `Dequantize.RowInExactlyOneChunk` | src/lewlm/conversion/jang.py:305-307 | every row lies in exactly one chunk |
| `Dequantize.DequantizeRows` | src/lewlm/conversion/jang.py:302-313 | the chunked writes fill every cell with the pointwise formula |
| `Dequantize.DequantizeJangTensor` | src/lewlm/conversion/jang.py:253-314 | the whole function equals the pointwise formula with its error cases, in their order |
| `JangBundle.GroupTensorsByFile` | src/lewlm/conversion/jang.py:214-218 | the grouping loop, as specified |
| `JangBundle.GroupingKeepsItems` | src/lewlm/conversion/jang.py:214-218 | grouping by shard loses, adds and repeats no tensor |
| `JangBundle.GroupsAreInOrder` | src/lewlm/conversion/jang.py:214-218 | the groups are the shards in the order of their first tensor, each with its tensors in order |
| `JangBundle.OutputNamesApart` | src/lewlm/conversion/jang.py:134-135 | output file names of different ordinals differ, beyond five digits too |
| `JangBundle.OutputNamesSpelledOut` | src/lewlm/conversion/jang.py:134-135 | the first file is `model-00001.safetensors` |
| `JangBundle.SidecarsSpelledOut` | src/lewlm/conversion/jang.py:110-113 | sidecars are the names that end in `.scales` or `.biases` |
| `JangBundle.SiblingsOf` | src/lewlm/conversion/jang.py:115-116 | the siblings of `x.weight` are `x.scales` and `x.biases` |
| `JangBundle.NormalizeJangBundle` | src/lewlm/conversion/jang.py:101-138 | the nested loops equal a fold over the grouped tensors, errors included |
| `JangBundle.EveryTensorIsAccountedFor` | src/lewlm/conversion/jang.py:93-138 | converted, copied and skipped add up to the tensors; the output's names are those that are no sidecars; each has its own file, holding the tensor expanded exactly when it is a weight with both siblings in its shard; the total is the sum of the sizes written |
| `JangBundle.SidecarIsUsedExactly` | src/lewlm/conversion/jang.py:106-128 | a skipped tensor goes into an expanded weight exactly when the weight of its stem is listed for the same shard and both siblings are in that shard |
| `JangBundle.UnusedSidecarLeavesNoTrace` | src/lewlm/conversion/jang.py:101-138 | otherwise the output does not depend on it |
| `EventStream.ReadSse` | scripts/backend_acceptance.py:121-149 | the nested loops equal the piece-by-piece specification, early return included |
| `EventStreamTheorems.DrainInTwoSteps` | scripts/backend_acceptance.py:128-131 | draining the buffer, adding text and draining again is draining once: the first blank line stays the first |
| `EventStreamTheorems.FramingDoesNotMatter` | scripts/backend_acceptance.py:121-149 | two ways of cutting one text give the same chunks, the same done flag and the same callbacks |
| `EventStreamTheorems.NothingAfterDoneMatters` | scripts/backend_acceptance.py:136-138 | once `[DONE]` was seen, any further text changes nothing |
| `EventStreamTheorems.ReaderReturnsThePayloads` | scripts/backend_acceptance.py:121-149 | the chunks are the decoded data of the complete events up to the first `[DONE]`, and the callback ran at most once, exactly when a chunk carries content; the reader raises exactly when, with a callback, some payload before any `[DONE]` and any content has an unexpected shape; the done flag is set exactly when there is a `[DONE]` and it did not raise |
| `EventStreamTheorems.NumberRaises` | scripts/backend_acceptance.py:121-149 | on the one event `data: 1`, with a callback, the reader raises |
| `EventStreamReadings.ContentExactly` | scripts/backend_acceptance.py:68-75 | a chunk has content exactly when some choice carries it in its delta before any choice breaks; when the check raises |
| `EventStreamReadings.LinesSplit` | scripts/backend_acceptance.py:132 | `splitlines` ends a line at each of its ten separators, a carriage return and newline being one |
| `EventStreamReadings.EventOfLines` | scripts/backend_acceptance.py:131-135 | an event of several lines has the stripped data of its `data:` lines, in order |
| `EventStreamReadings.DoneEnds` | scripts/backend_acceptance.py:136-138 | the event `data: [DONE]` ends the reading |
| `ServingProfiles.StaleFingerprintInputs` | src/lewlm/serving_profiles.py:258-274 | the loop over the current inputs, as specified |
| `ServingProfiles.StaleExactlyWhenKnownAndDifferent` | src/lewlm/serving_profiles.py:258-274 | an input is stale exactly when it is known on both sides and differs |
| `ServingProfiles.StaleExactlyWhenAnInputDiffers` | src/lewlm/serving_profiles.py:212-274 | a resolution is stale exactly when profiles apply, the store answers with a profile of this runtime, and one of the eight inputs, taken for the stored workload class, is known on both sides and differs |
| `ServingProfiles.OwnFingerprintIsNeverStale` | src/lewlm/serving_profiles.py:277-401 | resolved in the circumstances it was measured in, a profile is never stale, whatever workload class is asked for |
| `ServingProfiles.SplitOverrides` | src/lewlm/serving_profiles.py:404-418 | the loop sorts every override into accepted or rejected |
| `ServingProfiles.ResolveServingProfileApplication` | src/lewlm/serving_profiles.py:277-437 | the resolution in the program's order of cases |
| `ServingProfiles.SelectedProfilePartitionsOverrides` | src/lewlm/serving_profiles.py:403-437 | accepted and rejected keys split the recognised overrides, and the effective settings are the current ones overlaid with the accepted ones |
| `ServingProfiles.OtherwiseNothingChanges` | src/lewlm/serving_profiles.py:294-401 | every other status leaves the settings as they were, and a mismatch or stale profile refuses every recognised override |
| `ServingProfiles.MaterializedExactlyWhenChanged` | src/lewlm/serving_profiles.py:202-209 | materialisation is required exactly when a setting changes, if validation makes no given value equal to the current one or different from it; for a single accepted override only then |
| `ServingProfiles.CoercionMaterializesNothing` | src/lewlm/serving_profiles.py:202-209 | resolving one supported override that validation coerces to the current setting is selected, changes nothing and requires materialisation |
| `ServingProfileReadings.TakenExactlyWhenAdmitted` | src/lewlm/serving_profiles.py:404-418 | a selected profile takes exactly the recognised overrides whose feature the runtime offers, setting by setting, and refuses the others |
| `ServingProfileReadings.StaleExactlyWhenCircumstancesChange` | src/lewlm/serving_profiles.py:212-274 | a profile with a fingerprint is stale exactly when the host, the runtime, the engine's profile or server, the model's revision or precision, the workload class or the preset is known on both sides and has changed |
| `ServingProfileReadings.StatusExactly` | src/lewlm/serving_profiles.py:294-349 | when each of the other statuses is given |
| `ServingProfileReadings.SettingsSpelledOut` | src/lewlm/serving_profiles.py:18-29 | the ten settings a profile may override |
| `ServingProfileReadings.AliasesSpelledOut` | src/lewlm/serving_profiles.py:74-92 | the class each alias of a workload class stands for |
| `ServingProfileReadings.PresetsSpelledOut` | src/lewlm/serving_profiles.py:212-218 | the presets, and the error for an unknown one |

## Left out

- Floating point: numbers are exact reals, without NaN; the `multipleOf` tolerance is applied to the exact quotient, and half-precision products and sums are a parameter.
- Issue messages, `_describe_branch_issues` and `_render_path`: an issue is its code and its path.
- Regular-expression engines: patterns are predicates, and the matches of a fence or Gemma span are a list of increasing disjoint spans.
- Lone surrogates in `\u` escapes: Dafny characters are Unicode scalar values, so the Gemma string scanner refuses them where `json` accepts them.
- Non-ASCII decimal digits in Gemma numbers: `\d` matches them and `json.loads` then refuses them; the model refuses them at once, with the same verdict.
- ToolCallRoundTrip.RenderThenParse: calls are assumed to have been valid when made, and not to hold the mark of a Gemma call; `ToolCallRoundTrip.RoundTripsExactly` says what a span in the text does.
- OpenApiMeaning.HoistingKeepsMeaning: blocks do not nest, component references and references inside a block lead somewhere, and components start without `$defs`; a component with a block of its own would grow the dictionary that is being traversed.
- OpenApiReferences.HoistingIsClosed: the same shape of documents.
- Documents are values: subtrees shared by reference and the order of `components` are not modelled, and `components/schemas` stands apart from the document rather than inside it.
- `register_named_schemas` and `component_ref`: they only add entries.
- File systems: a bundle is its config, its index and a map from names to bytes; symbolic links, sub-directories, hard links and an output directory with earlier contents are not modelled.
- JSON text of safetensors headers: reading and printing are parameters that are inverse on the dictionaries JSON carries.
- The JANG group size, config clean-up and directory copying: the group size is a parameter.
- Tensors are held as rows of their last dimension, so NumPy's reshapes to and from two dimensions are the identity.
- The sort of a JANG weight map: its sorted items are a parameter that lists every tensor once.
- Workload classification of a request's attachments, the digest of the host snapshot, and case folding of workload classes and presets: their results are parameters.
- Cross-field settings validation: each accepted value is validated by itself.
- HTTP routing, scheduling, residency and the command line: their stateful parts are spread over files this model does not cover.
