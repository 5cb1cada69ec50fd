# ClauseCheck: a verified model

ClauseCheck assesses loan documents against regulation. Its central promise is that no
finding exists without a real, in-force, literally quoted clause, and that code rather than
prompting guarantees it. This project models the parts of ClauseCheck that carry that promise
and proves what they keep over every input and every run.

| module | models |
|---|---|
| `Json`, `SchemaInlining`, `SchemaOutput`, `SchemaMeaning`, `SchemaLosses` | the schema compiler that inlines references and collapses optional unions, with a denotation of schemas, and where the rewrite loses instances |
| `ConflictDetector`, `ConflictProperties`, `ComparisonMeaning` | online conflict detection between facts, its agreement with a batch check, and the comparisons on values |
| `Text`, `Quotation` | whitespace normalisation and the literal-quotation test |
| `ClauseLines`, `WrapJoining`, `ClauseParser`, `ParserProperties`, `ParserRoundTrip`, `TreeRecovery`, `LineContext`, `MarkerVariants`, `ParserWarnings`, `Chunker`, `ChunkText` | the continuous-paragraph parser, its shape invariant, the round trip from clause trees, headings and notes, and the chunker that relies on the shape |
| `Corpus`, `Fusion`, `FusionOrder`, `Retrieval`, `RetrievalProperties`, `RetrievalResult`, `RetrievalByFields` | applicability, the four retrieval sources, reciprocal rank fusion over real scores, and what the returned lists show |
| `CitationValidator`, `CitationOutcome`, `CitationScope`, `AssessmentLedger`, `LedgerProperties`, `LedgerEntries`, `LedgerCitations` | validation of model drafts, the assessment ledger, the compliance row, and the independent citation checker |
| `Breaker`, `BreakerProperties` | circuit breakers, one per provider |
| `Spans`, `SpanProperties` | greedy truncation and the quotation budget under a row lock |
| `Money` | the rupee normaliser against the printers of the synthetic documents |

State that the program updates in place is a class (`Store`, `Ledger`, `CircuitBreaker`,
`LLMClient`, `Document`); loops are methods proved against a specification function, and the
theorems are about those functions. A database transaction is one step that either succeeds
or leaves no trace. The draft of the language model is an arbitrary value everywhere.

## What the proofs found

- An optional union whose other branch is a bare `$ref` loses null: the reference branch runs
  first on the collapsed node and discards the added `nullable`. Every instance survives exactly
  when the referenced definition itself admits null (`OptionalRefLosesNull`); `NullLostHere` is
  one such schema.
- A declared property named like a dropped keyword (`title`, `description`, `minimum`, ...) is
  deleted from the schema and from then on read as an undeclared one (`TitleLostHere`). At the top
  of a schema exactly the instances whose property does not satisfy `additionalProperties` are lost
  (`DroppedPropertyLost`), and none where that keyword is absent (`DroppedNameHarmless`); at any
  depth an instance survives exactly when the schema with those properties struck out accepts it
  (`SurvivesIffPruned`).
- A non-empty excerpt made only of whitespace passes the literal-quotation test against every
  clause and can carry a conclusive verdict (`BlankExcerptAccepted`, `BlankQuoteDecides`); an
  accepted excerpt quotes words of the clause exactly when it is not blank.
- A pinned clause is not always shown exactly once. Inside its own window but outside its
  instrument's it is in no list, unless a hop brings it in as a candidate; the ninth applicable
  pin is cut and then in no list either (`NinePinsLoseOne`); a superseded or out-of-scope pin
  whose instrument an applicable pin incorporates is in two lists (`HopBreaksBothWays`).
  `ShownOnceIff` is the exact condition on the sources for every input, and without hops and with
  at most eight applicable pins among the first sixteen paths only the first case is left
  (`PinnedShownOnce`).
- Of the guarantees that a reference hop bypasses, the validator restores the clause's own date
  window and nothing else (`ScopeNotRestored`). Every clause a draft can make decisive governs
  the account exactly when retrieval returned no stray hopped candidate, which is known before
  the model is asked (`AllGovernIff`).
- A chapter line does not end the section before it, nor its borrower scope. The headings of a
  node are the expected ones exactly when no section is carried over into its chapter
  (`HeadingIffNotCarried`, `NodeIffNotCarried`); `SectionCarriedHere` is such a text.
- With a paragraph open, a line that begins with the letters "note" is a note whatever follows,
  while the wrap joiner asks for a word boundary; they agree exactly when no word character
  follows (`NoteAgreesIff`), so not on a line about a notebook (`NotebookText`).
- The chunker looks a parent up by labels, and the last node of a label wins: the stem comes from
  the node's own paragraph or clause exactly when no later node repeats its labels
  (`OwnParentIff`); `OtherParagraphFound` is a text where it does not.
- The `INR 1,000.00` notation is rejected for every amount (`InrRejected`).

## Model

| member | source | states |
|---|---|---|
| SchemaInlining.InlineStrips | app/llm/client.py:109-145 | for every schema over acyclic definitions inlining terminates (rank of the definition, then node weight) and no followed reference, `$defs` or other dropped keyword is left at any depth |
| SchemaOutput.OutputIsClean | app/llm/client.py:98-106 | at every depth of the output none of `$defs`, `minimum`, `maximum`, `exclusiveMinimum`, `exclusiveMaximum`, `description` and `title` occurs, nor a reference to follow |
| SchemaOutput.NodeOutput | app/llm/client.py:138-142 | a node that is no reference and no optional union keeps exactly its other members, each rewritten in place |
| SchemaOutput.ValueOutput | app/llm/client.py:143-145 | a list keeps its items in order and every other value is unchanged |
| SchemaOutput.RefOutput | app/llm/client.py:119-122 | a reference becomes the rewritten definition behind its last slash, whatever stands beside it |
| SchemaOutput.OptionalOutput | app/llm/client.py:123-137 | an optional union becomes its other branch without the seven keywords, with `nullable: true` and the union's own default over that of the branch |
| SchemaOutput.OptionalRefOutput | app/llm/client.py:119-137 | an optional union of a bare reference becomes the definition, without the flag |
| SchemaOutput.ConfidenceHere | app/llm/client.py:110-117 | a bounded number field loses both bounds and keeps type and default |
| SchemaInlining.CollapseLighter | app/llm/client.py:123-137 | collapsing an optional union strictly decreases the weight of the node, although it adds members to the branch |
| SchemaInlining.RankIrrelevant | app/llm/client.py:109-145 | the output does not depend on which witness of acyclicity is chosen |
| SchemaMeaning.InliningSound | app/llm/client.py:98-145 | every instance of a schema of the positive fragment without optional bare references is an instance of the rewritten schema, read without definitions in the decoder's dialect |
| SchemaMeaning.InliningExact | app/llm/client.py:98-145 | where no bound and no constraining sibling was dropped, the rewritten schema admits nothing new beyond null for a node flagged nullable |
| SchemaMeaning.InliningPreservesMeaning | app/llm/client.py:98-157 | under both conditions acceptance before and after is equivalent, for every instance |
| SchemaLosses.OptionalRefLosesNull | app/llm/client.py:119-137 | over definitions that discard nothing about null (bounds and whatever lies below properties and items do not matter), an optional bare reference keeps all instances if and only if the referenced definition, as written in the source, admits null |
| SchemaLosses.NullExact | app/llm/client.py:109-145 | for such schemas the rewritten form admits null only if the source does or is flagged nullable |
| SchemaLosses.LosslessIsNullSafe | app/llm/client.py:98-106 | a definition that loses no constraint at all discards nothing about null |
| SchemaLosses.OptionalRefByOutput | app/llm/client.py:119-137 | over any definitions it keeps all instances if and only if the rewritten definition admits null |
| SchemaLosses.OptionalModelLosesNull | app/llm/client.py:119-137 | for every optional nested model whose own type excludes null, null was accepted before and is rejected after |
| SchemaLosses.NullLostHere | app/llm/client.py:119-137 | `anyOf` of a reference to an object model and null, with that one definition, is such a schema |
| SchemaLosses.DroppedPropertyLost | app/llm/client.py:98-142 | an instance of a schema whose declared properties are named like dropped keywords survives the rewrite if and only if those properties of it satisfy `additionalProperties` |
| SchemaLosses.ForbiddenPropertyLost | app/llm/client.py:98-142 | where undeclared properties are forbidden it survives if and only if it carries no such property, whatever the definitions lose |
| SchemaLosses.TitleLostHere | app/llm/client.py:98-142 | an object model with a `title` property and `additionalProperties: false` accepts `{title: "x"}` before the rewrite and rejects it after |
| SchemaLosses.SurvivesIffPruned | app/llm/client.py:98-145 | for declared properties with dropped names at any depth, in schema and definitions, an instance is accepted after the rewrite if and only if the source with those properties struck out accepts it |
| SchemaLosses.ThinSame | app/llm/client.py:138-142 | the output does not depend on members with dropped names anywhere, in the schema or in its definitions |
| SchemaLosses.DroppedNameHarmless | app/llm/client.py:98-142 | where undeclared properties are free, such names lose no instance |
| ConflictDetector.Store.EvaluatePairwiseGroup | app/conflicts/detector.py:173-230 | the loop returns the disagreements of the trigger with each other member's current fact, oriented by member order, or the first comparison error |
| ConflictDetector.Store.EvaluateStrictlyIncreasingGroup | app/conflicts/detector.py:233-260 | compares the current facts of neighbouring present members only |
| ConflictDetector.Store.DetectForFact | app/conflicts/detector.py:263-298 | runs exactly the groups that have the fact's member, each by its own kind; absent facts detect nothing |
| ConflictDetector.Store.PersistConflicts | app/conflicts/detector.py:301-336 | inserts each conflict whose group and ordered pair has no row yet, and nothing else |
| ConflictDetector.Store.RecordFact | app/conflicts/detector.py:263-336 | a fact write, detection and persistence are one step; a comparison error leaves facts and rows as they were |
| ConflictProperties.CompareTurned | app/conflicts/detector.py:88-123 | equality and tolerance are symmetric, tolerance zero is equality, before is after reversed, and a chain step is an unlimited after |
| ConflictProperties.WithinDays | app/conflicts/detector.py:109-116 | within n days holds if and only if the later date is strictly later and before the end of the n-th full day |
| ComparisonMeaning.EqualOnValues | app/conflicts/detector.py:70-96 | equality compares the scalars of each of the ten kinds, an amount whatever its currency |
| ComparisonMeaning.KindsDecide | app/conflicts/detector.py:80-92 | values of different kinds are an error under every operator, and only those |
| ComparisonMeaning.ToleranceMeans | app/conflicts/detector.py:98-102 | a tolerance admits exactly the quantities that differ by no more than it |
| ComparisonMeaning.OperatorsDemand | app/conflicts/detector.py:100-123 | a tolerance on anything but a quantity, an order on anything but a date and a chain direction on a pair are errors, and only those |
| ComparisonMeaning.OrderMeans | app/conflicts/detector.py:104-118 | after, before, within n days and the chain step on days and on instants |
| ComparisonMeaning.ToleranceRowIff | app/conflicts/detector.py:216-229 | after any run a pair of current quantities of a tolerance group has a row if and only if they differ by more than the tolerance |
| ComparisonMeaning.EqualityRowIff | app/conflicts/detector.py:216-229 | and of an equality group if and only if their scalars differ |
| ComparisonMeaning.AfterRowIff | app/conflicts/detector.py:216-229 | and of a group that asks for a later day within n days if and only if the second is not later or more than n days later |
| ComparisonMeaning.ChainRowIff | app/conflicts/detector.py:242-259 | and of a chain if and only if the later member's day is not later |
| ComparisonMeaning.LatestIsNewest | app/conflicts/detector.py:34-44 | the current fact of a member is the last one written with a value for it |
| ConflictProperties.GroupFindsAll | app/conflicts/detector.py:173-260 | detection reports every related pair of current facts that involves the trigger and disagrees |
| ConflictProperties.GroupFindsOnly | app/conflicts/detector.py:173-260 | everything reported is a related pair of current facts that disagrees, filed under the group's operator, check and conflict type and under the field of one of the two members, in a chain of the later one |
| ConflictProperties.PersistAdds | app/conflicts/detector.py:301-336 | persisting keeps all rows, adds exactly the missing keys, and keeps keys unique |
| ConflictProperties.StepConsistent | app/conflicts/detector.py:263-336 | every write keeps the table complete, sound and free of duplicates |
| ConflictProperties.RunConsistent | app/conflicts/detector.py:263-336 | after any sequence of writes the table is complete for current facts, without duplicates, and each row is a disagreement of facts that were current together |
| ConflictProperties.TrueWhenWritten | app/conflicts/detector.py:263-336 | a row that a write adds is a disagreement between facts current at that very write |
| ConflictProperties.RowIffDisagreement | app/conflicts/detector.py:34-44 | at every point a pair of current facts has a row, only one, and oriented by member order, if and only if it fails its comparison: the online table equals a batch check |
| ConflictProperties.NoReversedRow | app/conflicts/detector.py:197-214 | no row holds the pair the other way round, whichever fact triggered its detection |
| ConflictProperties.RedetectionAddsNothing | app/conflicts/detector.py:301-336 | detecting again for a current fact succeeds and adds no row |
| ConflictProperties.ChainIffIncreasing | app/conflicts/detector.py:233-260 | no neighbouring conflict holds in a chain if and only if all present dates are pairwise strictly increasing |
| Quotation.AcceptedIffSlice | app/verdict/validator.py:26-36 | an excerpt is accepted if and only if it is non-empty and has the words of some slice of the clause, whatever the whitespace |
| Quotation.NormaliseIdempotent | app/verdict/validator.py:26-27 | normalising twice is normalising once |
| Quotation.NormaliseIsJoin | app/verdict/validator.py:26-27 | the normal form is the words joined by single spaces |
| Text.SpacesAre | app/verdict/validator.py:23-27 | whitespace is exactly these twenty-nine code points |
| Quotation.SameWordsIffSameNorm | app/verdict/validator.py:26-27 | two texts have the same normal form if and only if they have the same words |
| Quotation.QuotationTransitive | app/verdict/validator.py:30-36 | a quotation of a quotation is a quotation |
| Quotation.BlankExcerptAccepted | app/verdict/validator.py:30-36 | a non-empty blank excerpt is accepted against every clause |
| Quotation.RealQuotationIffNotBlank | app/verdict/validator.py:30-36 | an accepted excerpt quotes words of the clause if and only if it is not blank |
| ClauseLines.JoinHardWraps | app/corpus/parsers/continuous_para.py:72-94 | the loop computes the joined lines of the stripped non-empty raw lines |
| ClauseParser.ParaSortKey | app/corpus/parsers/base.py:56-65 | the number of the maximal leading digit run, 0 without one |
| ClauseParser.TakeLine | app/corpus/parsers/continuous_para.py:123-285 | one line moves the state machine by the branch its context selects and adds exactly that branch's warnings; the internal assertions hold |
| ClauseParser.Parse | app/corpus/parsers/continuous_para.py:104-299 | the loop computes the nodes and warnings of the state machine over the joined lines |
| ClauseParser.CountNotes | app/corpus/parsers/continuous_para.py:266-273 | the count of earlier notes of the paragraph |
| ParserProperties.ParseWellShaped | app/corpus/parsers/continuous_para.py:104-299 | for every text the nearest earlier paragraph of each clause and note, and the nearest earlier clause of each letter, has the same number, headings, borrower scope and label, and order equals position |
| ParserProperties.NumberingHasNoGaps | app/corpus/parsers/continuous_para.py:156-168 | without a numbering warning the paragraph keys cover every integer from first to last |
| ParserWarnings.WarnedIff | app/corpus/parsers/continuous_para.py:123-209 | a warning of the text is the warning of one of its lines |
| ParserWarnings.NumberingWarned | app/corpus/parsers/continuous_para.py:160-167 | a paragraph line warns if and only if its key is neither that of the last paragraph node nor one more |
| ParserWarnings.LengthWarned | app/corpus/parsers/continuous_para.py:172-175 | it warns of its length if and only if the body has more than four thousand characters in one line |
| ParserWarnings.SequenceWarned | app/corpus/parsers/continuous_para.py:199-210 | a roman clause line warns if and only if its numeral does not follow that of the last clause of the paragraph |
| ParserWarnings.EmptyChapterWarned | app/corpus/parsers/continuous_para.py:124-129 | a chapter line warns if and only if no paragraph line stands between it and the chapter line before, and names that chapter |
| ParserWarnings.LastChapterWarned | app/corpus/parsers/continuous_para.py:287-288 | the end of the text warns of the last chapter in the same way |
| ParserProperties.NoTextLost | app/corpus/parsers/continuous_para.py:123-285 | the words of all node texts are the words of all line bodies, in order, each line in exactly one node |
| ParserProperties.MarkerLineWords | app/corpus/parsers/continuous_para.py:21-27 | a line that opens a paragraph, clause or letter contributes all its words but the marker |
| LineContext.NoteLineParts | app/corpus/parsers/continuous_para.py:27 | a note line contributes all of itself but the four letters and at most one colon or full stop among spaces |
| WrapJoining.JoinerKeepsWords | app/corpus/parsers/continuous_para.py:72-94 | for every text the joined lines have exactly its words, in order |
| WrapJoining.JoinerIdempotent | app/corpus/parsers/continuous_para.py:72-94 | for every text, joining the joined lines changes nothing, also when they are written out and split again |
| WrapJoining.ApartIff | app/corpus/parsers/continuous_para.py:86-93 | two lines stay apart if and only if the first ends in one of the five marks or the second opens a marker; otherwise they are joined by one space |
| WrapJoining.SplitAtBreak | app/corpus/parsers/continuous_para.py:75-76 | a text falls apart at each of the ten line-breaking characters, into stripped lines of which the empty ones are dropped |
| ParserRoundTrip.EventRecognised | app/corpus/parsers/continuous_para.py:123-154 | every listed marker takes the branch meant for it, in either dialect and whatever its text has grown to |
| MarkerVariants.ChapterSeparated | app/corpus/parsers/continuous_para.py:21 | number and title of a chapter may be separated by a hyphen, an en dash, an em dash or a colon |
| MarkerVariants.ParaNumberIff | app/corpus/parsers/continuous_para.py:23 | a paragraph number is one to three digits and then at most one capital |
| MarkerVariants.MarkerWordsAre | app/corpus/parsers/continuous_para.py:22-26 | the words that open a section, a paragraph, a numbered clause and a letter, character by character |
| MarkerVariants.NumeralIff | app/corpus/parsers/continuous_para.py:24 | a clause numeral is up to three tens followed by at most nine units |
| MarkerVariants.JoinerMarkerIff | app/corpus/parsers/continuous_para.py:78-82 | the wrap joiner takes for a marker what the parser does, in any case, and the word chapter |
| MarkerVariants.NoteSeparated | app/corpus/parsers/continuous_para.py:27 | a note may be marked by a colon, a full stop or the bare word |
| MarkerVariants.CapitalNumeral | app/corpus/parsers/continuous_para.py:195-198 | a clause numeral in capitals is read as the small one |
| MarkerVariants.ScopeIff | app/corpus/parsers/continuous_para.py:137-142 | a section is scoped to microfinance if and only if its title holds one of the three phrases, in any case |
| ParserRoundTrip.EntryParsed | app/corpus/parsers/continuous_para.py:72-94 | an entry wrapped over any number of lines becomes one node with its whole text, however the joiner glued the lines |
| ParserRoundTrip.ListingParsed | app/corpus/parsers/continuous_para.py:104-299 | parsing a listing of entries has the effect of the entries one after another |
| ParserRoundTrip.ParseRecoversTree | app/corpus/parsers/continuous_para.py:104-299 | parsing any listing of a well-formed clause tree, in either dialect, yields exactly the nodes of that tree in document order, notes of a paragraph numbered 1..n |
| TreeRecovery.TreeRecovered | app/corpus/parsers/continuous_para.py:104-299 | the tree, with headings, can be rebuilt from the parsed nodes |
| TreeRecovery.ParseSeparates | app/corpus/parsers/continuous_para.py:104-299 | listings of different trees never parse to the same nodes, even across dialects |
| TreeRecovery.PrintThenParse | app/corpus/parsers/continuous_para.py:72-299 | printing any well-formed tree line by line and parsing the text gives the tree back |
| LineContext.ScopeFollowsSection | app/corpus/parsers/continuous_para.py:134-145 | for every text each node's borrower scope is the one its own section title implies, and none without a section |
| LineContext.HeadingIffNotCarried | app/corpus/parsers/continuous_para.py:124-145 | the headings in force equal those of a reader who ends a section at each chapter line if and only if no chapter line that stands behind a section line still lacks a section line of its own; the chapter is always right |
| LineContext.NodeIffNotCarried | app/corpus/parsers/continuous_para.py:177-281 | the same for every node and the lines before the line that opened it |
| LineContext.SectionCarriedHere | app/corpus/parsers/continuous_para.py:124-145 | a four-line text whose only paragraph, in chapter II and under no section, is scoped to microfinance by a section of chapter I |
| LineContext.NoteIff | app/corpus/parsers/continuous_para.py:147-154 | with a paragraph open a line is a note if and only if it begins with the four letters |
| LineContext.NoteAgreesIff | app/corpus/parsers/continuous_para.py:78-82 | parser and wrap joiner agree on a note if and only if no word character follows the four letters |
| LineContext.NotebookText | app/corpus/parsers/continuous_para.py:254-281 | the text "1. Banks.", "Notebook entries." parses to a paragraph and a note with the text "book entries." |
| LineContext.NotebookIsANote | app/corpus/parsers/continuous_para.py:147-154 | with any paragraph open the second line is read as that note |
| Chunker.ChunkNodes | app/corpus/chunk.py:39-110 | one chunk per node in order, each with the stem its parent gives it |
| ChunkText.ChunkIs | app/corpus/chunk.py:86-108 | the chunk of a parsed node is its own text, for a clause or letter of fewer than forty words behind the first sentence of the parent found; its words are those of the stem and then those of the node |
| ChunkText.FirstSentenceAt | app/corpus/chunk.py:25-28 | the stem is the parent's text up to and with the first full stop, exclamation or question mark that whitespace or nothing follows, stripped and cut at two hundred characters |
| ChunkText.NoSentence | app/corpus/chunk.py:25-28 | without such a mark it is the beginning of the whole text |
| Chunker.TableHolds | app/corpus/chunk.py:50-53 | the lookup table holds exactly the keys of the nodes |
| Chunker.ParentFound | app/corpus/chunk.py:47-60 | on parsed nodes a parent is found for a node if and only if it is a clause or a letter, and it is a paragraph or clause with matching labels |
| Chunker.OwnParentExists | app/corpus/chunk.py:47-49 | every clause and letter of parsed nodes has its own nearest paragraph or clause |
| Chunker.OwnParentIff | app/corpus/chunk.py:47-60 | the parent found is the node's own nearest paragraph or clause if and only if no later node repeats that parent's labels |
| Chunker.OtherParagraphFound | app/corpus/chunk.py:50-60 | a three-line text with a repeated paragraph number where the clause of the first paragraph gets the second as its parent |
| Fusion.Rrf | app/retrieve/fusion.py:16-64 | whatever order the sources are visited in, the result is a fusion: each path of any source once, score the sum over all occurrences, ranks 1..n, sorted by score, best source and path |
| Fusion.FusionUnique | app/retrieve/fusion.py:41-44 | there is only one fusion of given lists, so the visiting order cannot matter |
| FusionOrder.FusedInOrder | app/retrieve/fusion.py:41-47 | higher score first, of equal scores the source earlier in pinned, vector, lexical, hop, of equal sources the smaller path in character order, and ranks 1..n |
| FusionOrder.BestSourceIs | app/retrieve/fusion.py:34-39 | the source a path is attributed to is the earliest of that order that has it |
| FusionOrder.ScoreIsTotal | app/retrieve/fusion.py:28-33 | the score is the sum of weight / (k + rank) over all occurrences in the four sources together, with weight 1 for a source without one |
| Fusion.VisitedAll | app/retrieve/fusion.py:28-33 | the running scores of a visit in any order end at the order-free total |
| Fusion.SortPaths | app/retrieve/fusion.py:41-44 | the keys of exactly the scored paths, strictly sorted |
| Retrieval.PinnedCandidates | app/retrieve/service.py:65-125 | the applicable pinned clauses, ranked by pin position with the gaps that excluded pins leave |
| Retrieval.PinnedFacts | app/retrieve/service.py:103-125 | every pinned candidate describes an applicable clause of the snapshot at the rank of its own pin, and paths are distinct |
| Retrieval.ReferenceHopCandidates | app/retrieve/service.py:128-161 | nothing without hops or seeds; otherwise the quotable clauses of each instrument that a seed incorporates, ranked consecutively over all edges, repeats included |
| Retrieval.TargetsAre | app/retrieve/service.py:46-52 | an instrument is reached if and only if an incorporating edge leads to it from a seed |
| Retrieval.HopFacts | app/retrieve/service.py:54-62 | hop candidates are quotable clauses of the snapshot with consecutive ranks, and nothing more is promised of them |
| Retrieval.ContextOnlyCandidates | app/retrieve/service.py:164-269 | the seeds outside their window with a temporal reason, then those excluded by borrower scope alone |
| Retrieval.RetrieveCandidates | app/retrieve/service.py:272-364 | candidates are the first eight of the fusion of the four sources, hops start from the applicable pins and vector results, context comes from pins and vector results |
| RetrievalProperties.FusedAreQuotable | app/retrieve/service.py:331-345 | no draft or non-citable clause is ever a candidate, and one that fails date, entity or borrower scope is known from a reference hop only |
| RetrievalProperties.ContextQuotable | app/retrieve/applicability.py:28-53 | no draft or non-citable clause is ever offered as context |
| RetrievalResult.Retrieve | app/retrieve/service.py:272-364 | the returned lists are the cut of a fusion of the four sources and the context of the seeds |
| RetrievalResult.SeedIffId | app/retrieve/service.py:323-329 | the seed ids are exactly those of the applicable pins and of the clauses the vector search found |
| RetrievalResult.NoSeedNoHop | app/retrieve/service.py:131-132 | without an applicable pin or a vector result no instrument is reached and the hop list is empty |
| RetrievalResult.KnownIff | app/retrieve/service.py:33-62 | a path is in a filtered source only if its clause is applicable, and in the hop list if and only if its clause is quotable and a seed incorporates its instrument |
| RetrievalResult.CutIff | app/retrieve/fusion.py:41-64 | a path of any source survives the final cut if and only if the sources do not put eight other paths before it |
| RetrievalByFields.CandidateByFields | app/retrieve/applicability.py:15-26 | a pinned clause is a returned candidate if and only if it and its instrument are citable, no draft, for the entity, in both windows and without borrower classes or with the borrower's (or it is hopped), and not outranked by eight others |
| RetrievalByFields.ContextByFields | app/retrieve/applicability.py:31-53 | a clause is returned as context if and only if it is pinned or found by the vector search, citable, no draft, for the entity, and outside its own window or in both windows with other borrower classes |
| RetrievalByFields.ContextEntry | app/retrieve/service.py:198-267 | the entry carries the clause and the reason: not yet in force, superseded or borrower scope |
| RetrievalByFields.UnscopedNeverExcluded | app/retrieve/applicability.py:47 | a clause without borrower classes is never excluded for its borrower |
| RetrievalByFields.AtMostEight | app/retrieve/service.py:345 | at most eight candidates are returned |
| RetrievalResult.ShownOnceIff | app/retrieve/service.py:331-355 | for every input a pinned quotable clause of the entity is in exactly one of the returned candidates, temporal context and scope context if and only if the sources reach it (applicable or hopped, and not outranked by eight others) exactly when it is applicable or hidden |
| RetrievalResult.UnhoppedShownOnceIff | app/retrieve/service.py:331-355 | a pin no hop leads to is shown once if and only if it is not hidden and, when applicable, not outranked by eight other paths of the sources |
| RetrievalResult.PinnedShownOnce | app/retrieve/service.py:331-355 | without hop results and with at most eight applicable pins among the first sixteen paths, a pinned clause is shown once if and only if it is not in its own window outside its instrument's |
| RetrievalResult.TooManyPins | app/retrieve/service.py:198-203 | with more than eight applicable pins some applicable pinned clause is in neither returned list |
| RetrievalResult.NinePinsLoseOne | app/retrieve/service.py:331-345 | nine copies of any applicable clause are such an input |
| RetrievalResult.HopBreaksBothWays | app/retrieve/service.py:128-161 | beside an applicable pin that incorporates its instrument, a pinned clause is always a candidate, so a hidden one is shown once and a superseded or out-of-scope one twice |
| RetrievalResult.FusedFitsSnapshot | app/retrieve/fusion.py:44-64 | a fusion has no more entries than the snapshot has clauses |
| RetrievalProperties.NoOverrideNeverHidden | app/corpus/service.py:112-117 | a clause ingested without a paragraph override is never in that gap |
| RetrievalProperties.StageMovesForward | app/retrieve/service.py:198-208 | as the date grows a clause moves from not yet in force to in force to superseded and never back, and the stated reason agrees |
| RetrievalProperties.PinOutranks | app/retrieve/fusion.py:28-44 | with the configured weights a pin of rank at most 16 strictly outscores every path outside pins and hops |
| RetrievalProperties.PinRank17Loses | app/config.py:49-55 | the bound is tight: a pin of rank 17 loses to a clause ranked first by both searches |
| RetrievalProperties.NoPinLost | app/retrieve/service.py:331-345 | without hop results at most eight pins of rank at most 16 all survive the final cut |
| CitationValidator.Find | app/domain/clauses.py:40-49 | finds a candidate of the path if and only if there is one |
| CitationValidator.Validate | app/verdict/validator.py:56-138 | the loop and the three exits compute the specified outcome |
| CitationValidator.JudgeCitation | app/verdict/validator.py:65-106 | the reject reason of one citation, in the order the checks are made |
| CitationValidator.NothingVanishes | app/verdict/validator.py:62-106 | every drafted citation is either kept or rejected with its reason, and the two counts add up |
| CitationValidator.KeptIff | app/verdict/validator.py:65-106 | a citation is kept if and only if it is literally quoted and offered for its role, and for a decisive or supporting one citable and in its window: no good citation is rejected |
| CitationValidator.OutcomeSound | app/verdict/validator.py:65-138 | for every draft each surviving citation is offered and literally quoted; decisive and supporting ones are citable and inside their clause window |
| CitationOutcome.OutcomeExact | app/verdict/validator.py:108-138 | a conclusive draft with a standing decisive citation is returned with its verdict and exactly its standing citations; the outcome is a downgrade if and only if a conclusive draft has none or an abstaining one has one, and then the same citations are context; each note has its exact cause |
| CitationOutcome.ReasonIff | app/verdict/validator.py:65-106 | the reject reason names the first demand that is not met: offered for the role, citable, in force, literally quoted |
| CitationValidator.ConclusiveIffDecisive | app/verdict/validator.py:108-138 | for every draft the verdict is conclusive if and only if a decisive citation survives |
| CitationValidator.NeverStrengthened | app/verdict/validator.py:110-138 | a verdict is kept or lowered to an abstention, and a downgrade leaves context citations only |
| CitationValidator.DecisiveIffCountable | app/verdict/validator.py:83-138 | some draft makes a path decisive if and only if its candidate is citable and inside its window |
| CitationScope.CanDecideIff | app/verdict/validator.py:83-138 | some draft makes a clause decisive if and only if retrieval returned it as a candidate and it is inside its own window |
| CitationScope.CandidateGoverned | app/retrieve/service.py:331-345 | a returned candidate that is not attributed to a hop is applicable to entity, borrower and date |
| CitationScope.AllGovernIff | app/retrieve/service.py:54-62 | every clause any draft can make decisive governs the account if and only if no hopped candidate in its own window fails the filter |
| CitationScope.NoHopsAllGovern | app/retrieve/service.py:131-132 | with hops switched off or without reference edges every clause a draft can make decisive governs the account |
| CitationScope.ScopeNotRestored | app/verdict/validator.py:83-106 | an applicable pinned seed that incorporates the instrument of any quotable clause in its window lets a draft make that clause decisive, whatever its entity types, borrower classes and instrument window |
| CitationScope.StrayExists | app/retrieve/service.py:128-161 | beside any applicable clause a copy scoped to another borrower class can be retrieved and made decisive |
| CitationValidator.BlankQuoteDecides | app/verdict/validator.py:101-106 | a conclusive verdict can rest on a blank quotation |
| AssessmentLedger.Ledger.Persist | app/verdict/assess.py:204-337 | a row, its citations in order, and the supersession of the prior open row, or the unresolvable citation that stops it |
| AssessmentLedger.Ledger.FindPrior | app/verdict/assess.py:55-60 | the newest open row of the check |
| AssessmentLedger.Ledger.OpenCounts | app/verdict/state.py:19-25 | one group per verdict and severity that occurs among the counted rows, in any order, with its exact count |
| AssessmentLedger.Ledger.RecomputeState | app/verdict/state.py:62-113 | the row becomes a fresh recount of the ledger with the version one higher |
| AssessmentLedger.Ledger.AssessFact | app/verdict/assess.py:340-527 | rules, the model path if no real rule decided, persistence and the compliance row; on any failure every table is as before |
| LedgerEntries.CallWrites | app/verdict/assess.py:367-518 | a successful call appends one row per fired run in order and one model row if and only if no real rule fired; each has the check, verdict, severity, shadow and what-if flag, date and snapshot of its run or of the validated draft, and its citations on file in order; older rows keep theirs |
| LedgerEntries.RunFiled | app/verdict/assess.py:277-309 | after any run every citation row belongs to a row of the ledger, which is all that statement asks |
| AssessmentLedger.GroupsAgree | app/verdict/state.py:73-83 | summing the groups in any order gives the per-verdict counts and the highest severity of a row-by-row recount |
| AssessmentLedger.HighestIs | app/verdict/state.py:17-83 | the highest severity bounds every counted row and is that of one of them |
| LedgerProperties.OpenIffLast | app/verdict/assess.py:331-335 | a real row is open if and only if it is the last of its check |
| LedgerProperties.ChainGrows | app/verdict/assess.py:217-335 | persisting extends the one forward chain of the check and leaves every other chain and every what-if row alone |
| LedgerProperties.StepKeeps | app/verdict/assess.py:340-527 | one call keeps the chains, only marks old rows superseded, leaves other loans' rows and recounts alone, changes neither row nor recount when it is a what-if, and otherwise leaves a fresh recount for its loan |
| LedgerProperties.RunSettled | app/verdict/assess.py:361-527 | over every serial run each check has one forward supersession chain and no compliance row is stale |
| LedgerProperties.LookupIsUnique | app/verdict/assess.py:55-60 | after any run a check with real rows has exactly one open row, the newest, and the lookup finds it |
| LedgerProperties.ChecksRunIsOpenRows | app/verdict/state.py:27-32 | counting distinct check keys equals counting open rows, shadow and real |
| LedgerProperties.ComplianceRowExact | app/verdict/state.py:62-113 | after any run the counts are exact, the severity is a maximum over counted rows, and checks run is the sum of all open rows |
| LedgerProperties.ComplianceRowByName | app/verdict/state.py:17-83 | after any run the counts are the numbers of open real rows with the verdict, and the highest severity is critical if any such row is, else major if any |
| LedgerProperties.HighestByName | app/verdict/state.py:17-83 | the highest severity by name, over the counted rows |
| LedgerCitations.RetrievalOffers | app/retrieve/service.py:272-364 | what retrieval returns meets the one demand the ledger theorems make of the offered set: quotable, and applicable unless from a hop |
| LedgerCitations.ModelPathPersists | app/verdict/assess.py:277-309 | no draft whatever trips the unresolvable-citation assertion on the model path |
| LedgerCitations.FailsIff | app/verdict/assess.py:371-518 | a call is rolled back if and only if a fired rule cites a clause the snapshot lacks, or no real rule decided and the model call failed |
| LedgerCitations.RunBacked | app/verdict/assess.py:277-309 | over every run and every model output each persisted citation stands on a clause of its assessment's snapshot, literally quoted; on the model path quotable and, unless context only, in force on the event date and applicable to the account of the request whose validated draft it comes from, unless retrieval knew the clause from a hop only |
| LedgerCitations.RunFounded | app/verdict/assess.py:473-518 | over every run a model-path row is conclusive if and only if it has a decisive citation on file |
| LedgerCitations.ResolveCitations | eval/runner.py:111-151 | the independent checker's loop over the citation rows of the given assessments |
| LedgerCitations.NothingHallucinated | eval/runner.py:133-150 | the checker flags no persisted citation of any run, and finds each decisive or supporting model-path citation in force on the event date, reference hops included |
| Breaker.CircuitBreaker.RecordFailure | app/llm/client.py:88-91 | one more failure, and an opening time from the threshold on |
| Breaker.LLMClient.BreakerFor | app/llm/client.py:166-171 | the provider's own breaker, created fresh on first use, no other touched |
| Breaker.LLMClient.Complete | app/llm/client.py:173-271 | the provider's breaker makes exactly the specified move, all others are unchanged, and the call log grows only for logged outcomes |
| BreakerProperties.OpenedIffThreshold | app/llm/client.py:68-91 | in a stretch since the last success the counter is the number of failures, and there is an opening time if and only if it reaches the threshold |
| BreakerProperties.OpenedAtAnyMoment | app/llm/client.py:68-91 | at every moment of every run there is such a stretch, so the equivalence always holds |
| BreakerProperties.QuietWhileOpen | app/llm/client.py:182-185 | within the reset window after an opening failure no call reaches the provider and the breaker does not move |
| BreakerProperties.AnswerIff | app/llm/client.py:182-246 | the caller learns of an open circuit if and only if the provider was not reached, and otherwise of the provider's reply |
| BreakerProperties.OtherRepliesKeep | app/llm/client.py:84-91 | a call that is not made, a permanent and an unexpected error leave the breaker alone, a success resets it, a transient failure counts and opens it from the threshold on |
| BreakerProperties.ProviderIs | app/llm/client.py:94-95 | the provider is what stands before the first slash of the model's name, "unknown" without one |
| BreakerProperties.RateBound | app/llm/client.py:68-91 | a success-free stretch of length T sees at most threshold + floor(T / reset) transient failures |
| BreakerProperties.RateBoundTight | app/llm/client.py:68-91 | for every number of windows some run reaches the bound |
| BreakerProperties.BreakersIndependent | app/llm/client.py:166-171 | under any interleaving a provider's breaker is where its own calls alone would have put it |
| Spans.TruncateLongestFirst | app/extract/spans.py:57-69 | returns the longest spans, ties in input order, stopping at the first point that fits |
| SpanProperties.OrderDescending | app/extract/spans.py:61 | the order is strictly descending by length and then position: the stable sort |
| SpanProperties.LongestAreBest | app/extract/spans.py:61-69 | no choice of r spans is longer than the r longest |
| SpanProperties.TruncationOptimal | app/extract/spans.py:57-69 | removing the returned spans fits any non-negative budget, and no choice that fits removes fewer |
| SpanProperties.OverdrawnNeverFits | app/extract/spans.py:57-69 | with a negative budget everything is returned and no choice at all fits |
| Spans.Document.AdmitSpan | app/extract/spans.py:26-54 | grants what remains and no more, refuses once nothing remains, and says whether it shortened |
| SpanProperties.NeverOverdrawn | app/extract/spans.py:34-54 | at every point of every interleaving of writers the used length is the sum of the committed admissions and within the budget |
| SpanProperties.UsedGrows | app/extract/spans.py:50-53 | it never decreases and no committed admission is taken back |
| SpanProperties.RefusedOnceExhausted | app/extract/spans.py:44-45 | once the budget is used up every later request of every writer is refused |
| SpanProperties.GrantIs | app/extract/spans.py:42-54 | a request is granted in full if it fits, as much as remains if anything does, and refused otherwise, with the flags that say so |
| SpanProperties.TruncatedExhausts | app/extract/spans.py:47-54 | a truncated admission uses the budget up, a full one adds its whole length |
| SpanProperties.AloneIsAdmit | app/extract/spans.py:34-54 | a transaction that runs alone does what the method does |
| Money.RoundTrip | app/extract/normalise.py:80-94 | printing any amount in either rupee notation and normalising it gives exactly a hundred times the amount |
| Money.CommasIrrelevant | app/extract/normalise.py:86-88 | numerals that differ only in their commas are read alike, in both notations |
| Money.FractionRead | app/extract/normalise.py:89-94 | after a point one digit counts tens of paise, two count paise, and any other number of digits is rejected |
| Money.PaiseRead | app/extract/normalise.py:86-94 | rupees and paise are read from either notation, wherever the commas stand |
| Money.NotationsAgree | app/extract/normalise.py:85-88 | the mark may be missing, the sign or `Rs` with or without its stop, with or without a space, and a numeral behind it may end in `/-`: all are read alike |
| Money.InrRejected | scripts/gen_synthetic_docs.py:37-41 | the INR notation is rejected for every amount |

## Left out

- Web routes, authentication, task queues, logging, metrics, the PDF report, migrations and row-level security: input and output plumbing.
- Embeddings, vector and full-text ranking: their results are arbitrary lists of distinct applicable clauses ranked 1..n.
- The bodies of the 28 rules: a rule is a value with the contract that it cites only its own paths with the excerpt it was handed; the windows of clauses cited by rules are not checked by the program, so nothing is claimed about them.
- Regular expressions as such: each marker pattern is an explicit recogniser over ASCII digits and letters; other Unicode digits and case foldings are not modelled.
- Tenants, row identifiers, timestamps and audit rows: a row is identified by its position, and creation order is position, so equal creation times do not occur.
- Concurrent persistence for one loan: the program takes no lock there, so the ledger theorems are about serial calls.
- The `delta` payload of a detected conflict, which no later step reads back, and the columns of an assessment that nothing here depends on: rationale, confidence band, telemetry, rule id.
- Floating-point rounding of fusion scores: scores are real numbers.
- Pin files and the expansion of a pinned parent path: the model starts from the distinct list of expanded paths.
- Chunk kinds other than clause, context note texts, `clause_path` rendering and the detected paragraph range: easy members.
- The lookup of `$defs` from a model class, and schemas with `not`, `if` or `oneOf`, which are outside the fragment the rewrite is meant for.
- SchemaLosses.OptionalRefLosesNull: for definitions that discard something about null, such as a sibling of a reference that null fails, the condition is stated on the rewritten definition, in `OptionalRefByOutput`.
- A bound on the total length of stored quotations: a span admitted in part is stored whole by its caller; the budget theorems are about the used-characters counter.
- Dates, times, rates and durations of the normaliser: library parsing.
- The unresolved-conflict count of the compliance row is a parameter of the call: it comes from a table the ledger does not write.
