# Verified model of the adr-kit semantic core

This project models the Rust semantic core of adr-kit and proves what its parts promise. It follows the
program's structure: parsers with a cursor, printers that push into one output, validators that accumulate and
stages that fill maps are classes and methods with loops; each is proved equal to a specification function. What
that function computes is then said again by a relation that names neither the function nor its helpers, on the
input alone, and the two are proved equal for every input; the laws over runs, orders and round trips build on it.

Run `dafny verify dfyconfig.toml`.

| component | files |
|---|---|
| shared types, strings, orders, stable sorting, grouping | `Prelude`, `Strings`, `Ordering`, `Grouping`, `StableMerge` |
| canonical scalars and layout of source text | `CanonicalText`, `Layout` |
| decoder of candidate sources, and what it accepts | `CanonicalYaml`, `CodecRoundTrip`, `DecoderSoundness` |
| parser for schema documents, and what it accepts | `OrderedJson`, `OrderedJsonRoundTrip`, `StringGrammar`, `OrderedJsonGrammar` |
| references and pointers as relations | `Pointers`, `SchemaTargets` |
| schema-directed printer, sealing, source basis | `SchemaCatalog`, `CatalogLaws`, `Renderer`, `RenderLaws`, `CandidateSource`, `Sealing`, `SourceBasis` |
| schema evaluator, its meaning, its diagnoses, its closure | `SchemaEvaluator`, `SchemaContext`, `SchemaMeaning`, `SchemaRefinement`, `SchemaDiagnosis`, `SchemaConsequences`, `SealedClosure`, `SchemaFragments` |
| embodiment linkage | `Linkage`, `LinkageRun`, `LinkageLaws`, `LinkageSoundness`, `LinkageSuccess`, `LinkageOrder`, `LinkageLinks`, `LinkageReport` |
| authoring construction, base64, UUIDs | `Construction`, `ConstructionRun`, `ConstructionLaws`, `ConstructionSources`, `ConstructionReport`, `Base64`, `Base64Laws`, `UuidV7` |
| interpretation and assembly of documents | `Interpretation`, `InterpretationLaws`, `InterpretationResult`, `InterpretationFailure`, `Assembly` |
| contract profiles, reference validation, decorators | `ContractProfiles`, `ProfileLaws`, `References`, `ReferencesResult`, `ReferencesOrder`, `Decorators` |

The main results:

- Decoding undoes printing: whatever the schema, nesting, member order, escapes and empty containers, the decoder
  returns the rendered value (`CandidateSource.RenderThenDecode`). The decoder accepts exactly the texts of
  printable layouts (`DecoderSoundness.DecodeExact`), which is more than the printer writes
  (`Sealing.DecoderAloneIsLooser`); the second rendering closes the gap exactly (`Sealing.DecodeAndValidate`).
- References are resolved exactly as a relation on keys, pointers and members says (`SchemaTargets.ResolvesExactly`,
  `CatalogLaws.PointerMeans`), and satisfaction is stated with that relation.
- The canonical text lists members in the order of the schema and then by name, and a value has exactly the text of the
  one tree that its schema governs (`RenderLaws.PlanExactly`, `RenderLaws.RenderedExactly`).
- The schema evaluator decides a declarative satisfaction relation, and reports no cycle, wherever no chain of
  references that starts at the schema returns to itself, whatever cycles there are elsewhere
  (`SchemaRefinement.EvalDecidesSat`); it terminates on every closure, cyclic ones included; it looks at nothing
  outside the closure (`SealedClosure.SameVerdict`). On a cycle an error inside a probe is read as a mismatch,
  which `SchemaConsequences.CycleInsideProbeFlipsOutcome` shows. Which fault it reports, and at which path, is decided
  exactly on every closure (`SchemaDiagnosis.VerdictExactly`).
- Linkage conserves claims and accepts only sound ones, and its report is read off the claims: every link, diagnostic and
  rejection (`LinkageReport.LinksPortray`, `LinkageReport.ReportSays`). Success is *not* free of the order of the records: a record
  without claims is only warned about outside greenfield, yet the first record of an implementation fixes its type.
  `LinkageOrder.SucceedsInEveryOrder` gives the exact condition and `LinkageOrder.SilentRecordShowsOrder` a failing
  case. The links are not free of the order either: `LinkageLinks.LinksIgnoreOrderExactly` says when every order succeeds
  with the same links, by a condition on the claims of each group, and `LinkageLinks.MissingProvenanceShowsInLinks` gives
  two records whose order shows.
- The base64 encoder writes the words of RFC 4648, and what each decoder accepts is stated on words as well. Both
  decoders invert the encoder; text that both accept is the encoding of their common output. Each alone is
  looser (`Base64.EachDecoderAloneIsLooser`).
- Construction succeeds exactly when every stage succeeds for every part and the keys are distinct, and then entries,
  fragments, artifacts, identities and basis belong together, and a relationship joins exactly the parts it names. What
  each source contains is stated member by member (`ConstructionSources.ConstructedSays`), and what is reported when a
  stage fails for some parts as well (`ConstructionReport.ReportsSay`).
- Interpretation, assembly, contract profiles and reference validation: the result is exactly what the document, the
  documents, the registry or the records call for, in its order (`InterpretationResult.ResultExactly`,
  `InterpretationFailure.FailsExactly`, `Assembly.AssembledExactly`, `ProfileLaws.JudgedExactly`,
  `ReferencesResult.DiagnosticsExactly`, `ReferencesOrder.DiagnosticsInOrder`).
- The ordered parser reads a value back from every layout unless a key is repeated or the scan for a closing quote loses
  a string, and fails then with the first such fault (`OrderedJsonRoundTrip.ParseUndoesPrinting`). Which strings are lost
  is decided exactly, for all strings (`OrderedJsonRoundTrip.StringsReadExactly`): the string of a backslash and a `u` is
  lost, and a double quote behind these two is not. Whatever it accepts is a document (`OrderedJsonGrammar.ParsedIsWritten`).
- Whole-basis assembly forgets the order of documents exactly when, key by key, what two documents contribute commutes
  (`Assembly.AssemblyForgetsOrderExactly`); pairwise distinct keys are a sufficient condition.

## Model

| member | source | states |
|---|---|---|
| CanonicalText.StringRoundTrip | core/src/semantic_contract.rs:123-152 | a canonically spelled string reads back as itself, for every character, escapes and control characters included |
| CanonicalText.NumberRoundTrip | core/src/semantic_contract.rs:154-170 | every safe integer reads back from its canonical spelling; integers beyond the safe range have none |
| CanonicalText.InlineTextShape | core/src/candidate_source.rs:917-939 | the text of an inline value is never empty, padded, tabbed or mistaken for a block, and reads back as the value |
| CanonicalYaml.ScanQuote | core/src/candidate_source.rs:856-898 | the loop with the escape flag finds the first quote that no backslash escapes |
| CanonicalYaml.ReadKey | core/src/candidate_source.rs:856-898 | a mapping line is cut exactly at its closing quote and colon; otherwise the matching error |
| CanonicalYaml.ClassifyMapping | core/src/candidate_source.rs:900-910 | a line is a mapping line exactly when a quoted key with a colon starts it |
| CanonicalYaml.Parser.Node | core/src/candidate_source.rs:993-1026 | moves the cursor over exactly one block and returns its value or the first error |
| CanonicalYaml.Parser.Child | core/src/candidate_source.rs:1038-1060 | reads an inline value or the block indented by two below it |
| CanonicalYaml.Parser.ReadMapping | core/src/candidate_source.rs:1033-1062 | reads members until the indentation falls back; a repeated key is an error |
| CanonicalYaml.Parser.ReadSequence | core/src/candidate_source.rs:1064-1094 | reads items until the indentation falls back |
| CanonicalYaml.DecodeCanonicalCandidate | core/src/candidate_source.rs:951-981 | the whole decoder: final newline, no blank, padded or tabbed line, one block, nothing behind it |
| CodecRoundTrip.KeyReads | core/src/candidate_source.rs:856-898 | a printed key, whatever its characters, is read back and ends where its value starts |
| CodecRoundTrip.NodeReads | core/src/candidate_source.rs:993-1026 | the lines of any arranged value, at any even column inside any text, decode to the value |
| CodecRoundTrip.MappingReads | core/src/candidate_source.rs:1033-1062 | printed members are added to what was read before, each once, in any order of keys |
| CodecRoundTrip.SequenceReads | core/src/candidate_source.rs:1064-1094 | printed items are read in order, nested blocks included |
| CodecRoundTrip.SourceReadsAsLines | core/src/candidate_source.rs:951-981 | a source text splits into exactly the lines that were printed, none blank, padded or tabbed |
| CodecRoundTrip.DecodeUndoesLayout | core/src/candidate_source.rs:945-1095 | decoding the text of any arranged value gives the value: only the order of members is lost |
| DecoderSoundness.NodeTree | core/src/candidate_source.rs:993-1026 | whatever block is accepted is the printed form of some layout of the value returned |
| DecoderSoundness.MappingTree | core/src/candidate_source.rs:1033-1062 | accepted members are printed members with distinct keys |
| DecoderSoundness.SequenceTree | core/src/candidate_source.rs:1064-1094 | accepted items are printed items |
| DecoderSoundness.DecodeExact | core/src/candidate_source.rs:945-1095 | the decoder accepts a text with a value if and only if some printable layout has that text and that value |
| OrderedJson.Parser.Whitespace | core/src/candidate_source.rs:93-101 | moves the offset to the next character that is no white space |
| OrderedJson.Parser.StringValue | core/src/candidate_source.rs:203-228 | scans to a quote with the program's jumps over backslashes and over four bytes from a u on, then reads what was cut out as a string |
| OrderedJson.Parser.NumberValue | core/src/candidate_source.rs:230-243 | takes the longest run of number characters and drops its content if the numeral is accepted |
| OrderedJson.Parser.Value | core/src/candidate_source.rs:103-118 | reads one value of any kind, lands behind it, and terminates because the offset advances |
| OrderedJson.Parser.ObjectValue | core/src/candidate_source.rs:129-174 | reads members in order and refuses a repeated key |
| OrderedJson.Parser.ArrayValue | core/src/candidate_source.rs:176-201 | reads items in order |
| OrderedJson.ParseDocument | core/src/candidate_source.rs:80-91 | one value with nothing but white space behind it |
| OrderedJsonRoundTrip.DocReads | core/src/candidate_source.rs:103-118 | any text of a value, at any place, reads as the value and ends where the text ends, or fails with its first repeated key or lost string |
| OrderedJsonRoundTrip.ParseUndoesPrinting | core/src/candidate_source.rs:79-244 | every layout of every value: it parses to the value in member order, to the last character, if and only if keys are distinct at every depth and no string is lost; else it fails with the first fault |
| OrderedJsonRoundTrip.ParsedMembersAreDistinct | core/src/candidate_source.rs:129-174 | no object in any parsed value has a member twice, at any depth |
| OrderedJsonRoundTrip.StringsReadExactly | core/src/candidate_source.rs:203-228 | for every string: its spelling parses, and to it, if and only if the jumps of the scan pass no closing quote and stop at no escaped one |
| OrderedJsonRoundTrip.JumpsDecide | core/src/candidate_source.rs:215-220 | a jump that reaches the closing quote loses the string, one that ends before it does no harm, and it counts bytes |
| OrderedJsonRoundTrip.JumpHidesQuote | core/src/candidate_source.rs:211-220 | a double quote that a jump passes does not end the scan, another one does |
| OrderedJsonRoundTrip.QuotedStringsAreRefused | core/src/candidate_source.rs:211-220 | a string whose first double quote stands behind no jump does not parse |
| OrderedJsonRoundTrip.EscapedBackslashBeforeU | core/src/candidate_source.rs:215-220 | an escaped backslash before a u at the end sends the scan past the closing quote |
| StringGrammar.StringsExactly | core/src/semantic_contract.rs:123-152 | a text is read as a string if and only if it is a quoted literal that spells it, escapes and surrogate pairs included |
| StringGrammar.CanonicalIsShortest | core/src/semantic_contract.rs:123-152 | the canonical spelling of a character is the shortest, and the only one of its length without capital digits |
| OrderedJsonGrammar.ParsedIsWritten | core/src/candidate_source.rs:80-244 | an accepted text is, to its last character, a text of the value returned, without repeated members; malformed text is refused |
| SchemaCatalog.FollowPointer | core/src/candidate_source.rs:300-340 | the pointer walk over objects and arrays, with its escapes and index rules, step by step |
| SchemaCatalog.LayoutCollector.Collect | core/src/candidate_source.rs:450-495 | collects properties through references and allOf, each name once, the last additional-members rule winning |
| CatalogLaws.PointerMeans | core/src/candidate_source.rs:300-340 | a pointer leads to a part if and only if its segments spell, with valid escapes, the member names and indices of a path to it |
| CatalogLaws.ReferenceMeans | core/src/candidate_source.rs:353-373 | a reference is resolved to the part that its fragment reaches in the resource that it names, and to nothing else |
| CatalogLaws.DereferenceMeans | core/src/candidate_source.rs:342-351 | dereferencing gives the end of a chain of references of bounded length |
| CatalogLaws.AcceptsMeans | core/src/candidate_source.rs:408-437 | a variant accepts a value exactly when the schema it refers to suits it: type, const, enum and required members |
| CatalogLaws.ChooseMeans | core/src/candidate_source.rs:375-406 | the choice of a variant: the schema itself without variants or for null, else the only variant that accepts the value, chosen again in turn |
| CatalogLaws.LayoutMeans | core/src/candidate_source.rs:439-495 | the members of a layout are the first declarations of every name among the visited schemas, in order, under the last policy for additional members |
| Renderer.RenderNode | core/src/candidate_source.rs:539-556 | appends exactly the lines of the arranged value to the shared output |
| Renderer.RenderMembers | core/src/candidate_source.rs:569-624 | prints declared members in schema order, then the others sorted, indented by two |
| Renderer.RenderItems | core/src/candidate_source.rs:626-654 | prints items behind dashes, nested blocks indented by two |
| Renderer.RenderSource | core/src/candidate_source.rs:527-537 | the canonical text of a value under a selector, ending in one newline |
| RenderLaws.PlanExactly | core/src/candidate_source.rs:581-624 | the plan is the one list in which declared members stand in schema order and the others behind them by name, each under its own schema; there is none exactly for an undeclared member of a closed schema |
| RenderLaws.ArrangedExactly | core/src/candidate_source.rs:539-654 | a value is arranged as a tree if and only if its schema governs that tree |
| RenderLaws.RenderedExactly | core/src/candidate_source.rs:527-537 | a text is the rendering of a value if and only if it is the text of a printable tree that the selected schema governs |
| RenderLaws.LinesInOrder | core/src/candidate_source.rs:569-624 | the lines of an object hold its members in order, each block starting with the line of its key |
| CandidateSource.ArrangeErases | core/src/candidate_source.rs:539-654 | arranging a value loses nothing but member order and puts no scalar on a line of its own |
| CandidateSource.RenderThenDecode | core/src/candidate_source.rs:527-671 | for every value and selector that render, decoding the text returns the value |
| CandidateSource.SourceDeterminesValue | core/src/candidate_source.rs:527-671 | a rendered text belongs to one value, even across selectors |
| CandidateSource.ArrangeFuel | core/src/candidate_source.rs:375-495 | a result other than divergence does not depend on the bound on schema recursion |
| Sealing.SealArtifact | core/src/candidate_source.rs:686-714 | an artifact is sealed exactly for non-empty names, a supported kind and a renderable source, with the digest of its text |
| Sealing.DecodeAndValidate | core/src/candidate_source.rs:1101-1117 | acceptance, exactly: profile, digest, the text is the rendering of the returned value, and the value is valid |
| Sealing.SealedStandsForItsSource | core/src/candidate_source.rs:686-714 | a sealed artifact passes the digest, decoding and rendering checks, for its own source and no other |
| Sealing.DecoderAloneIsLooser | core/src/candidate_source.rs:1042-1050 | a scalar on a line of its own decodes, and no value, schema or selector renders to it |
| SourceBasis.SealBasis | core/src/candidate_source.rs:716-798 | sealed exactly when there are artifacts, none twice, none altered; the first fault in input order is reported |
| SourceBasis.BasisForgetsOrder | core/src/candidate_source.rs:739-797 | every permutation of the artifacts can be sealed to one and the same strictly sorted list and digest |
| SourceBasis.OutcomeForgetsOrder | core/src/candidate_source.rs:716-798 | every permutation has the same outcome, the undescribable one included; only which faulty artifact is named can differ |
| SourceBasis.DescriptorBinds | core/src/candidate_source.rs:739-797 | the descriptor that is digested has one line for every artifact with its names, kind, schema, profile, digest and contract, and two lists have one descriptor exactly when they differ in text only |
| SchemaEvaluator.FollowMembers | core/src/schema_validation.rs:568-586 | the cursor walk along the segments of a reference |
| SchemaEvaluator.ActivationProgress | core/src/schema_validation.rs:96-107 | activating an idle reference leaves fewer idle ones: the measure that makes evaluation terminate on cyclic closures |
| SchemaTargets.NamesExactly | core/src/schema_validation.rs:538-567 | a reference names exactly one resource: the part before the mark, relative to the directory of the key unless it is rooted |
| SchemaTargets.ResolvesExactly | core/src/schema_validation.rs:538-586 | a reference resolves to a schema of a resource if and only if it names the resource and the schema stands there under the member names that the pointer spells |
| SchemaTargets.FailsExactly | core/src/schema_validation.rs:538-586 | where a reference leads nowhere, the error names what is missing: the resource, a pointer, or the schema under it |
| SchemaContext.Context.Validate | core/src/schema_validation.rs:84-207 | checks every keyword group in order, equals the specification, and leaves the active references as they were on success |
| SchemaContext.Context.ValidateReference | core/src/schema_validation.rs:96-107 | inserts the reference, validates its target, removes it again; an active one is a cycle |
| SchemaContext.Context.ValidateAnyOf | core/src/schema_validation.rs:209-253 | counts matching branches in probes; one or exactly one must match, the first error is kept |
| SchemaContext.Context.ValidateArray | core/src/schema_validation.rs:295-376 | sizes, uniqueness, items, tuples and contains |
| SchemaContext.Context.ValidateObject | core/src/schema_validation.rs:378-501 | required, names, properties, patterns and additional members |
| SchemaContext.ValidateResource | core/src/schema_validation.rs:22-40 | validation against a whole resource starts with no active reference |
| SchemaFragments.ValidateFragment | core/src/schema_validation.rs:45-76 | validation against a fragment; empty segments are skipped wherever they stand, so that trimming is redundant |
| SchemaFragments.FragmentExactly | core/src/schema_validation.rs:45-76 | validation against a fragment holds the value against the schema that stands at the segments between the slashes, or reports what is missing |
| SchemaDiagnosis.VerdictExactly | core/src/schema_validation.rs:84-207 | on every closure, cyclic ones included, the verdict is that of the first keyword group, in a fixed order, that refuses the value, with the fault and path of the first part that it refuses |
| SchemaRefinement.EvalDecidesSat | core/src/schema_validation.rs:84-253 | where no chain of references from the schema is cyclic, the evaluator succeeds exactly on the values that satisfy the schema, and reports no cycle |
| SchemaRefinement.ReferenceDecides | core/src/schema_validation.rs:96-107 | a reference holds exactly when it leads to a schema, across resources, that is satisfied |
| SchemaRefinement.CompositionsDecide | core/src/schema_validation.rs:109-150 | allOf, anyOf, oneOf, if/then/else and not decide their quantified meaning |
| SchemaRefinement.ArrayDecides | core/src/schema_validation.rs:295-376 | the array keywords decide their quantified meaning |
| SchemaRefinement.ObjectDecides | core/src/schema_validation.rs:378-501 | the object keywords decide their quantified meaning |
| SchemaConsequences.SatIgnoresRanking | core/src/schema_validation.rs:84-253 | satisfaction does not depend on how acyclicity is witnessed |
| SchemaConsequences.OutcomeIgnoresContext | core/src/schema_validation.rs:84-253 | where no chain of references from the schema is cyclic, neither the path nor active references that the schema cannot reach change the outcome |
| SchemaConsequences.CycleInsideProbeFlipsOutcome | core/src/schema_validation.rs:135-150 | on a cyclic closure the same value can fail without active references and pass with one |
| SealedClosure.SameVerdict | core/src/schema_validation.rs:538-586 | resource maps that agree on everything reachable give the same verdict, path and reason for every value |
| LinkageRun.CollectEntities | core/src/linkage.rs:170-178 | entities by id; the last of several counts, nameless ones do not |
| LinkageRun.Run.Consider | core/src/linkage.rs:226-358 | one claim: its diagnostics decide between one rejection and one occurrence, and the first qualifiers of an identity are kept |
| LinkageRun.ConsiderRecord | core/src/linkage.rs:193-358 | one record: its type against the first type, its claims in order, repeats within the record remembered |
| LinkageRun.BuildLinkage | core/src/linkage.rs:120-458 | the nested loops with their maps and lists compute the fold over all claims and its sorted report |
| LinkageRun.Compile | core/src/linkage.rs:360-458 | links in group order, then sorted by key; counts and success from the diagnostics |
| LinkageLaws.EachClaimOnce | core/src/linkage.rs:226-358 | every claim object is either accepted or refused, once |
| LinkageLaws.RefusedAreReported | core/src/linkage.rs:310-334 | the rejected claims are the refused ones, in order, each with diagnostics |
| LinkageLaws.AcceptedAreGrouped | core/src/linkage.rs:335-357 | a group exists exactly for accepted claims of its key and holds their evidence in order |
| LinkageLaws.ClaimsAreConserved | core/src/linkage.rs:221-422 | the occurrences of all links are the evidence of all accepted claims, none missing, none twice; the totals add up |
| LinkageSoundness.EventsCarryClaims | core/src/linkage.rs:186-229 | the traversal meets exactly the claim objects of record objects |
| LinkageSoundness.FaultlessMeans | core/src/linkage.rs:232-309 | a claim has no diagnostic exactly when it is new, agrees with the type and is admissible |
| LinkageSoundness.AcceptedAreSound | core/src/linkage.rs:221-358 | accepted claims have distinct identities, legal existing targets and one type per implementation |
| LinkageSuccess.SuccessMeans | core/src/linkage.rs:424-438 | success is a condition on the records alone: attributed objects whose claims are sound together |
| LinkageSuccess.SuccessRejectsNothing | core/src/linkage.rs:424-438 | success implies that no claim was rejected |
| LinkageOrder.SucceedsInEveryOrder | core/src/linkage.rs:186-358 | records succeed in every order if and only if they succeed and the types of claiming implementations agree |
| LinkageOrder.SilentRecordShowsOrder | core/src/linkage.rs:199-220 | two records that succeed in one order and fail in the other |
| LinkageLinks.LinksIgnoreOrderExactly | core/src/linkage.rs:360-422 | every order of the records succeeds with the same links, targets, statuses and occurrence lists if and only if the run succeeds, types agree, and claims of one group describe it alike and have different evidence only under different sort keys |
| LinkageLinks.LinksIgnoreOrder | core/src/linkage.rs:360-422 | joined keys that can be taken apart are enough for that |
| LinkageLinks.EvidenceDecides | core/src/linkage.rs:360-422 | where implementation ids hold no separator, the condition is one on the evidence alone |
| LinkageLinks.EvidenceKeyShowsIdentity | core/src/linkage.rs:67-77 | within a group the sort key of evidence determines its identity when parts hold no separator |
| LinkageLinks.MissingProvenanceShowsOrder | core/src/linkage.rs:19-37 | a missing and an empty provenance have different identities and one sort key, so that order shows in a sorted list |
| LinkageLinks.MissingProvenanceShowsInLinks | core/src/linkage.rs:335-422 | two records that succeed in both orders with different links |
| LinkageLinks.IdentityExactly | core/src/linkage.rs:19-77 | two claims have one group or one identity exactly if their ids and, for the identity, their provenance agree |
| LinkageReport.EventsStand | core/src/linkage.rs:186-229 | the traversal meets a claim exactly where it stands in the records |
| LinkageReport.TypesMean | core/src/linkage.rs:193-220 | an implementation has the type of the first record that has its id |
| LinkageReport.FaultsExactly | core/src/linkage.rs:232-309 | the diagnostics of a claim are one error for every reason that it is to blame for, in order |
| LinkageReport.LinksPortray | core/src/linkage.rs:360-422 | one link for every key of an accepted claim, with ids, type, alias, lifecycle, status, warnings and sorted occurrences of the claims of that key, and in order of implementation, relationship rank and target |
| LinkageReport.DiagnosticsMean | core/src/linkage.rs:193-358 | a diagnostic is reported if and only if some record or claim gives rise to it |
| LinkageReport.RejectionsExplain | core/src/linkage.rs:310-334 | every rejection explains a claim that is to blame |
| LinkageReport.BlamedAreRejected | core/src/linkage.rs:310-334 | every claim that is to blame is explained by a rejection |
| LinkageReport.ReportSays | core/src/linkage.rs:424-458 | diagnostics, counts by severity, success and rejections of a report are those that the records give rise to |
| Base64.EncodeBase64 | core/src/authoring_construction_orchestration.rs:1356-1377 | the chunk loop on 32-bit words computes the encoding of section 4 of RFC 4648 |
| Base64.DecodeByGroups | core/src/authoring_construction_orchestration.rs:1379-1416 | the group decoder, which lets padding stand in any group and ignores left-over bits |
| Base64.DecodeByAccumulator | core/src/authoring_construction.rs:1146-1181 | the wrapping accumulator accepts digits, then only padding, a multiple of four, nothing left over, and unpacks the digits |
| Base64.DecodersInvertEncoder | core/src/authoring_construction_orchestration.rs:1356-1416 | both decoders invert the encoder on every byte sequence |
| Base64.AgreementIsCanonical | core/src/authoring_construction.rs:1146-1181 | a text that the group decoder accepts is the encoding of its output exactly when the accumulator accepts it too, with the same output |
| Base64.EachDecoderAloneIsLooser | core/src/authoring_construction.rs:1146-1181 | texts that one decoder accepts, the other refuses and the encoder never writes |
| Base64Laws.EncodeExactly | core/src/authoring_construction_orchestration.rs:1356-1377 | a text is the encoding of bytes if and only if its groups of four characters spell, in the alphabet, the 24-bit words of three bytes, padded at the end |
| Base64Laws.ByGroupsExactly | core/src/authoring_construction_orchestration.rs:1379-1416 | the group decoder accepts exactly the texts of groups that each spell a word, padding in the last two places read as zero and its byte dropped, wherever the group stands |
| Base64Laws.AccumulatorExactly | core/src/authoring_construction.rs:1146-1181 | the accumulator accepts exactly digits followed by padding, a multiple of four in all, whose bits are the bytes returned and zeros |
| UuidV7.Minter.Mint | core/src/authoring_construction_orchestration.rs:38-52 | one mint shows twelve bits of the counter and bumps it modulo sixteen bits; without a clock nothing changes |
| UuidV7.MintedIsUuidV7 | core/src/authoring_construction_orchestration.rs:36-52 | every minted string is a version 7 UUID (section 5.7 of RFC 9562) in small letters and carries the low 48 bits of the clock, the count twice, and the low 36 bits of the clock with the count |
| UuidV7.MintsCollideExactly | core/src/authoring_construction_orchestration.rs:33-52 | two mints of a run collide if and only if they are a multiple of 4096 apart and the clock shows the same low 48 bits |
| UuidV7.WindowIsDistinct | core/src/authoring_construction_orchestration.rs:33-52 | any 4096 consecutive mints are pairwise distinct whatever the clock does, across every wrap |
| Construction.JsonToArtifact | core/src/authoring_construction_orchestration.rs:988-1043 | reads an artifact back, with defaults for missing texts and an error for a missing selector or bytes |
| Construction.ArtifactJsonRoundTrip | core/src/authoring_construction_orchestration.rs:954-1043 | the JSON form keeps the whole artifact, its bytes through base64 |
| ConstructionRun.EstablishIdentities | core/src/authoring_construction_orchestration.rs:144-199 | fills the shared identity table part by part, calling the minter only where nothing is supplied |
| ConstructionRun.MakeCandidate | core/src/authoring_construction_orchestration.rs:244-294 | builds, seals, accepts and interprets one candidate; acceptance can fail only for the schema |
| ConstructionRun.MakeCandidates | core/src/authoring_construction_orchestration.rs:215-407 | gathers aligned lists and the diagnostics of parts that failed |
| ConstructionRun.Construct | core/src/authoring_construction_orchestration.rs:62-511 | the stages in order, each outcome with exactly the lists, basis and model that it returns |
| ConstructionLaws.OwnIdentity | core/src/authoring_construction_orchestration.rs:144-199 | with distinct keys every part finds its own identity in the shared table |
| ConstructionLaws.MintedIdentitiesDiffer | core/src/authoring_construction_orchestration.rs:519-542 | parts that mint get different answers of the minter |
| ConstructionLaws.UuidMinterKeepsIdentitiesApart | core/src/authoring_construction_orchestration.rs:33-52 | the identities minted for one request of up to 4096 parts are distinct, whatever the clock does |
| ConstructionLaws.RelationshipsJoinTheirParts | core/src/authoring_construction_orchestration.rs:639-678 | in a constructed result the artifact of a relationship stands for one source only, whose from and to ids are the identities of exactly the parts that the relationship names, or empty where it names none |
| ConstructionLaws.EndpointsNameTheirTargets | core/src/authoring_construction_orchestration.rs:722-734 | an endpoint that names a part of the request becomes the identity of that part, any other the empty id |
| ConstructionLaws.ConstructedExactly | core/src/authoring_construction_orchestration.rs:62-511 | a request is constructed if and only if every stage succeeds for every part and the keys are distinct; otherwise there is no model |
| ConstructionLaws.ConstructedBelongsTogether | core/src/authoring_construction_orchestration.rs:215-511 | aligned lists, distinct keys, each artifact with the identity of its own key, and a basis that is their sorted permutation |
| ConstructionSources.IdentityMeans | core/src/authoring_construction_orchestration.rs:519-542 | the identity of a part is the one it brings along, none for an update without one, and else the answer to its own call of the minter |
| ConstructionSources.FragmentMeans | core/src/authoring_construction_orchestration.rs:544-748 | the source of a fragment has every field of the fragment but those that the ceremony writes, with the values written there: identity, alias, type, version, children, system and purposes |
| ConstructionSources.ChildrenMean | core/src/authoring_construction_orchestration.rs:582-611 | a logical document holds one child for every composition that names a fragment, in composition order, with its own fields and identity |
| ConstructionSources.RelationshipMeans | core/src/authoring_construction_orchestration.rs:639-678 | the source of a relationship holds its type, qualification, properties, alias and rationale, and nothing beside these and its ends |
| ConstructionSources.SelectorMeans | core/src/authoring_construction_orchestration.rs:750-782 | the schema under which a part is written, by its type and source |
| ConstructionSources.ResolveMeans | core/src/authoring_construction_orchestration.rs:856-924 | the resolved references of a part are those that name something known, in order, each with its identity or registry entry |
| ConstructionSources.ConstructedSays | core/src/authoring_construction_orchestration.rs:215-511 | a constructed result, part by part: entry, candidate, and an artifact that stands for one source only, which says what the request and the ceremony say |
| ConstructionReport.JsonMeans | core/src/authoring_construction_orchestration.rs:954-986 | the members of an artifact in its JSON form, its content in base64 |
| ConstructionReport.ReadsExactly | core/src/authoring_construction_orchestration.rs:988-1043 | an artifact is read from a value if and only if its members say so, missing texts empty and the bytes a decodable text |
| ConstructionReport.ReportsSay | core/src/authoring_construction_orchestration.rs:62-511 | every report, successful or not: the troubles of all parts without identity; else what every part gave, in order, and the outcome that follows from it |
| Interpretation.BuildIndex | core/src/architecture_interpretation.rs:411-428 | the index of topology keys, or the first component that lacks a key or reference or repeats a key |
| Interpretation.RelateEdge | core/src/architecture_interpretation.rs:430-500 | one edge: forbidden, related, or unresolved with the missing keys and the resolved ones in component order |
| Interpretation.Interpreter.ReadEntities | core/src/architecture_interpretation.rs:1286-1388 | entities in order, the repeated system descriptor skipped, a repeated id an error |
| Interpretation.InterpretDocument | core/src/architecture_interpretation.rs:1270-1495 | the loops over entities, edges, components and custom relationships, with the first failure in document order |
| InterpretationLaws.EdgeMeans | core/src/architecture_interpretation.rs:430-500 | an edge is related exactly when both keys are declared, and joins the declared references; unresolved ones name the missing keys, each once, and the end that is there |
| InterpretationLaws.InterpretsExactly | core/src/architecture_interpretation.rs:1270-1495 | success if and only if nothing is refused, ids are distinct, the topology is well keyed where used, and custom relationships are governed |
| InterpretationLaws.SuccessPartitions | core/src/architecture_interpretation.rs:1389-1495 | distinct ids, and every edge, component and custom relationship is exactly one relationship or unresolved entry |
| InterpretationLaws.RelationsAreClosed | core/src/architecture_interpretation.rs:390-500 | every relationship joins declared components, the system, or entities of the same document |
| InterpretationResult.ResultExactly | core/src/architecture_interpretation.rs:1270-1495 | the lists of a result hold exactly the ids of the entities, one relationship for every edge, component and custom relationship that has its ends, and one entry for every unclear fragment and unmatched edge, each sorted |
| InterpretationFailure.FailsExactly | core/src/architecture_interpretation.rs:1270-1495 | a document fails with an error if and only if that is its first fault: entities, then edges with the index of keys, then the system and its components, then custom relationships |
| Assembly.Assemble | core/src/architecture_interpretation.rs:1570-1715 | the loops over documents and entities with their set of ids compute the sorted whole-basis model or the first repeated id |
| Assembly.FailsExactlyOnRepeats | core/src/architecture_interpretation.rs:1583-1610 | assembly fails for its entities exactly when an id repeats, and otherwise keeps every entry once |
| Assembly.AssemblyForgetsOrderExactly | core/src/architecture_interpretation.rs:1608-1665 | the model is the same for every permutation of documents if and only if their entries commute key by key |
| Assembly.DistinctKeysCommute | core/src/architecture_interpretation.rs:1637-1665 | pairwise distinct sort keys are enough for that |
| Assembly.EqualKeysShowOrder | core/src/architecture_interpretation.rs:1653-1665 | two different unresolved entries of one key from different documents show their order |
| Assembly.AssembledExactly | core/src/architecture_interpretation.rs:1570-1715 | nothing comes of no document, one is passed on, the first repeated id is refused, and else the model holds the sorted lists, counts, coverage and fingerprint of the documents |
| ContractProfiles.Validate | core/src/lib.rs:1195-1440 | the loops over entities, fields and ledger compute the findings and what the profile makes of them |
| ContractProfiles.ProfilesAreMonotone | core/src/lib.rs:1223-1440 | each looser profile drops issues of the stricter one, keeps their order, and succeeds where it does |
| ProfileLaws.FindingsExactly | core/src/lib.rs:1223-1398 | what is found, path by path: missing metadata, statuses, sentinels wherever they stand, and ledger entries that are repeated, refer to nothing or contradict the last value of their field |
| ProfileLaws.FindingsInOrder | core/src/lib.rs:1223-1398 | findings stand in the order of the entities and of the ledger, and within an entity in the order of the checks |
| ProfileLaws.JudgedExactly | core/src/lib.rs:1223-1440 | the issues are the findings that the profile objects to, in order, the sentinels counted those that it admits, the incomplete entities those that are not complete, and success means no issue and no exceeded limit |
| ProfileLaws.IssuesMean | core/src/lib.rs:1223-1398 | a path is an issue if and only if something that the profile objects to is found there |
| References.ValidateReferences | core/src/lib.rs:1462-1797 | the passes over the sorted records compute one list of diagnostics |
| References.DiagnosticsIgnoreOrder | core/src/lib.rs:1482-1797 | well-formed records with distinct ids give the same list in every order |
| ReferencesResult.MembershipReported | core/src/lib.rs:1543-1717 | for all values, the returned list holds a membership error exactly for the topology members of a version 1.5 system that no component record provides for it, references to ADRs standing for the systems they declare |
| References.MembershipExactly | core/src/lib.rs:1698-1717 | the diagnostics of one record, by the mapping from ADRs to systems |
| ReferencesResult.SystemsMean | core/src/lib.rs:1543-1552 | the mapping gives an ADR the system that the last of its records declares which declares one |
| ReferencesResult.DiagnosticsExactly | core/src/lib.rs:1462-1797 | for all values, a diagnostic is reported if and only if a value is no record, an id is repeated, a field names what is not there or belongs elsewhere, a topology member is not provided, or a review or override is about a missing record |
| ReferencesResult.DuplicatesCount | core/src/lib.rs:1514-1527 | one diagnostic for every record beyond the first of its id |
| ReferencesOrder.DiagnosticsInOrder | core/src/lib.rs:1462-1797 | the diagnostics stand in order: malformed values, repeated ids, records by id with their fields in a fixed order and names sorted, reviews, overrides |
| Decorators.NormalizeUuids | src/adr_kit/decorators.py:164-182 | accepts some identifiers, each a UUID once stripped, none twice; reports the first fault |
| Decorators.Target.Decorate | src/adr_kit/decorators.py:128-161 | composes and sorts the claims, or leaves the target alone and names the least repeated claim |
| Decorators.RunMeans | src/adr_kit/decorators.py:121-160 | a run of decorators fails if and only if some claim is made twice, and else ends in all claims sorted |
| Decorators.RunKeepsOrder | src/adr_kit/decorators.py:150-158 | after every run the claims are sorted by rank and target, pairwise distinct and those made |
| Decorators.RunForgetsOrder | src/adr_kit/decorators.py:121-160 | every order of the same decorators ends in the same claims or in a failure |
| Decorators.RunShows | src/adr_kit/decorators.py:121-161 | the claims at the end of a run are exactly those made, implements before enforces before embodies and then by target |

## Left out

- Texts, not bytes: candidate sources, schema documents and keys are sequences of characters; UTF-8 validation is not modelled. The four-byte jump of the string scan counts the bytes that characters have in UTF-8. Base64 is modelled on bytes, with the text encoding as a parameter that must be faithful.
- Numbers are integers: fractions, exponents and the float spelling of canonical numbers are not modelled; minimum and maximum compare integers.
- Digests, regular expressions, the numeral test and JSON serialization of provenance lines are uninterpreted function parameters; no claim about collisions is made. The canonical text of the basis descriptor is such a parameter too, possibly undefined.
- Error texts are enumerated reasons with their paths; exact wording is not modelled.
- SchemaCatalog.LayoutCollector.Collect: the recursion of schema choice and layout collection carries a bound that the program does not have; a run that exceeds it is reported as divergence, and all other results are shown not to depend on it. Lookup helpers of the catalog without loops are functions.
- Renderer.RenderSource: the output length is not bounded; pointer indices and lengths are unbounded naturals.
- The iteration order of ordered maps and sets, and sorting by string, are by Unicode scalar value, which equals the order of UTF-8 bytes.
- LinkageRun.BuildLinkage: the request envelope (version, operation and list checks) and constant fields of the result are not modelled.
- LinkageLinks.LinksIgnoreOrder: asks that implementation ids and the six provenance parts hold no U+001F and that provenance is an object, because the program joins keys with that character; the exact condition is that of LinkageLinks.LinksIgnoreOrderExactly.
- ConstructionRun.Construct: the request is a validated one, as typed values; the request validator, provenance echo and result envelope are not modelled. Interpretation of an accepted artifact is a function parameter, and fragments and relationships are walked as one list, fragments first.
- ConstructionRun.MakeCandidate: what the interpreter makes of an accepted artifact is a function parameter.
- Interpretation.Interpreter.ReadEntities: the classification of each fragment, with its normalized fields, is given with the document.
- Interpretation.InterpretDocument: how a single fragment is classified, its normalized entity fields, custom qualification and record completeness are given with the document; the final schema validation and fingerprint of the model are not modelled.
- SchemaConsequences.OutcomeIgnoresContext: says nothing where a chain of references from the schema is cyclic; it is false there.
- ContractProfiles.Validate: per-type required metadata and the sentinel test are parameters; the counts of each status, the outcome label and the diagnostics made from the issues are not modelled.
- LinkageReport.LinksPortray: the order of the links is stated where implementation, relationship and target hold no control characters, because the program sorts by joined keys.
- The WASM byte interface, version dispatch, hosts, clients, file handling, schema and contract data, materialization, project metadata and provider registries are not modelled.
