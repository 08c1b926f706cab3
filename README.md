# mhctyper core, modelled in Dafny

mhctyper types the two copies of every HLA gene of a sample from read
alignments against a panel of candidate alleles. The project models four
parts of it.

**Allele-name grammar** (`hla_allele.dfy`, `hla_names.dfy`, `hla_examples.dfy`).
- `HLAllelePattern` is a class whose post-init step does three things in
  place:
  - clamps the resolution into 1..4;
  - builds the `digit_fields` pattern text from the separator and suffix
    lists;
  - refuses blank fields, and wraps each stripped field in a named group.
- The default grammar is `prefix? locus sep digit_fields`. The model keeps
  the separator set, the suffix letters and the resolution as parameters.
- Regular-expression matching is modelled as the list of candidate parses,
  in the order a backtracking matcher tries them:
  - greedy runs try the longest first;
  - an optional prefix is tried present before absent.
- On top of that list the model defines:
  - `decompose`: the anchored match, with the valid-locus check and the
    `str()` round trip;
  - `reduce_resolution`: the leftmost match.
- `hla_names.dfy` runs both over a name written by `str()` from its four
  parts: `decompose` gives the parts back, and `reduce_resolution` keeps the
  whole name or cuts its digit fields to what the grammar allows.

**Sample and candidates** (`typing.dfy`).
- `load_rg_sm_from_bam` takes the read groups as a list of maps.
- `collect_alleles_to_type` takes the reference names as a list.

**Alignment-evidence counters** (`bam_counters.dfy`).
- Soft-clipped bases and insertion/deletion events over a CIGAR string
  (section 1.4 of the SAM format specification).
- Mismatch events over an MD:Z tag (SAM optional fields specification).
- Each counter is proved against CIGAR and MD strings written from a list
  of operations.

**Scoring and two-stage resolution** (`scoring.dfy`, `typing.dfy`,
`typing_examples.dfy`, `legacy.dfy`).
- The MD-token walk is a loop proved against a specification function.
- Per-allele filtering and read-pair aggregation.
- The stage loops collect per-allele and per-gene tables.
- Stage-two reallocation is `s * s/(s+w)`.
- `get_winners` picks one allele per gene.
- The two-stage composition of `run_mhctyper`.
- The older package's scorer, which passes the MD tag as a plain string.

Score tables are sequences of rows. A group-by is a sum over the rows that
share a key. Per-base log terms and score rounding are function-valued
parameters. `Outcomes.Result` carries every exception the core raises.

## Model

| member | source | states |
|---|---|---|
| `HlaAllele.AllelePattern.constructor` | src/mhctyper/hla_allele.py:54-64 | the pattern object holds exactly the given prefix, locus, separator lists, resolution and sep, with `digit_fields` not yet set |
| `HlaAllele.AllelePattern.ValidateResolution` | src/mhctyper/hla_allele.py:80-85 | a resolution below 1 becomes 1, above 4 becomes 4, and one in range is kept |
| `HlaAllele.FirstBlank` | src/mhctyper/hla_allele.py:87-96 | finds the first empty or whitespace-only field; none is found exactly when every field has a non-space character |
| `HlaAllele.AllelePattern.ValidateFields` | src/mhctyper/hla_allele.py:87-96 | validation fails exactly when some string field is blank, and the error names the first such field in declaration order |
| `HlaAllele.AllelePattern.SetField` | src/mhctyper/hla_allele.py:102 | the `setattr` of one string field changes that field and leaves the other three as they were |
| `HlaAllele.AllelePattern.AddNameToGroupMatch` | src/mhctyper/hla_allele.py:98-102 | every string field becomes the named group `(?P<name>…)` around its stripped old text |
| `HlaAllele.AllelePattern.PostInit` | src/mhctyper/hla_allele.py:66-78 | after post-init the resolution is clamped; it fails exactly when prefix, locus, built digit fields or sep is blank, naming the first; otherwise each field is the named group of its stripped text |
| `HlaAllele.NewAllelePattern` | src/mhctyper/hla_allele.py:54-102 | constructing a pattern succeeds exactly when prefix, locus and sep are not blank; the result has the clamped resolution, the grammar of its separator and suffix lists, and all four fields as named groups |
| `HlaAllele.DigitFieldsTextNotBlank` | src/mhctyper/hla_allele.py:71-76 | the built `digit_fields` text is never blank, so it never causes a validation failure |
| `HlaAllele.DefaultDigitFieldsText` | src/mhctyper/hla_allele.py:71-76 | with the default lists and resolution the built text is exactly `(?:[0-9]+[:_]){0,3}[0-9NLSCAQnlscaq]+` |
| `HlaAllele.DefaultGrammarOf` | src/mhctyper/hla_allele.py:59-63 | the default field values give the grammar with separators `:_`, suffixes `NLSCAQ` and resolution 4; resolution 2 gives the two-field grammar |
| `HlaAllele.FieldCharClass` | src/mhctyper/hla_allele.py:74-75 | a character of the last digit field is a digit or a suffix letter in upper or lower case: the class `[0-9 SUFFIXES suffixes]` |
| `HlaAllele.PrefixWords` | src/mhctyper/hla_allele.py:56 | the prefix pattern accepts exactly `:HLA-`, `:HLA_`, `HLA-`, `HLA_`, `hla-` and `hla_`; the stray `:?` admits a leading colon |
| `HlaAllele.LocusEndsIff` | src/mhctyper/hla_allele.py:57 | the matcher's candidate locus ends are exactly the ends of the words of `[a-zA-Z]+[0-9]?` |
| `HlaAllele.RepeatEndsIff` | src/mhctyper/hla_allele.py:72-73 | the candidate ends of the repeated group are exactly the ends of at most m groups of digits, each closed by any separator of the set (any mixture) |
| `HlaAllele.TrailEndsIff` | src/mhctyper/hla_allele.py:74-75 | the candidate ends of the trailing field are exactly the ends of non-empty runs of digits and suffix letters |
| `HlaAllele.DigitFieldEndsIff` | src/mhctyper/hla_allele.py:71-76 | the candidate ends of `digit_fields` are exactly the ends of up to resolution-1 separator-closed digit groups followed by a non-empty trailing field |
| `HlaAllele.SpansAtIff` | src/mhctyper/hla_allele.py:134 | the candidate parses from a position are exactly the parses of `prefix? locus sep digit_fields` that start there |
| `HlaAllele.FirstAtEnd` | src/mhctyper/hla_allele.py:152 | `$` accepts the chosen candidate, ending at the end of the text or just before a final newline; when none is chosen, no candidate is accepted |
| `HlaAllele.AnchoredMatch` | src/mhctyper/hla_allele.py:152-158 | an anchored match is a parse from position 0 that `$` accepts |
| `HlaAllele.AnchoredMatchIff` | src/mhctyper/hla_allele.py:152-158 | the anchored match exists exactly when some parse from position 0 is accepted by `$` |
| `HlaAllele.PrefixTriedFirst` | src/mhctyper/hla_allele.py:152 | when a parse with a prefix is accepted, the anchored match takes the prefix: `prefix?` tries presence first |
| `HlaAllele.Decompose` | src/mhctyper/hla_allele.py:148-172 | a blank name is refused; a decomposed name has an upper-cased locus in the valid list, and its prefix (or `""`), locus, sep and digit field are words of their patterns |
| `HlaAllele.PartsJoin` | src/mhctyper/hla_allele.py:118-119 | `str()` of the four named groups is the matched text |
| `HlaAllele.DecomposeRoundTrip` | src/mhctyper/hla_allele.py:160-172 | when decompose succeeds, `str()` of the result is the input, or the input less a final newline; on input not ending in a newline it is the input |
| `HlaNames.WrittenParse` | src/mhctyper/hla_allele.py:109-119 | `str()` of a well-formed name puts the prefix, the locus, the one-character sep and the digit fields side by side, each a word of its pattern, and splitting the text at those positions gives the name back |
| `HlaNames.DefaultSeparatorsApart` | src/mhctyper/hla_allele.py:59-63 | the default separators `:` and `_` are neither digits nor suffix letters, in the default and the two-field grammar |
| `HlaNames.DecomposeWritten` | src/mhctyper/hla_allele.py:148-172 | a written well-formed name, not starting with a bare `HLA` locus, decomposes to its own parts when its upper-cased locus is valid and is refused otherwise |
| `HlaNames.DecomposeLeftInverse` | src/mhctyper/hla_allele.py:148-172 | `decompose` undoes `str()`: a well-formed name with a valid locus decomposes to exactly its prefix, locus, digit fields and sep |
| `HlaNames.DecomposeDefaultLeftInverse` | src/mhctyper/hla_allele.py:148-172 | with the default grammar, `{prefix}{locus}{sep}{digit_fields}` built from words of the four patterns, with a valid locus, decomposes back to those four parts |
| `HlaNames.DecomposeRejectsLocus` | src/mhctyper/hla_allele.py:162-165 | a written well-formed name whose upper-cased locus is not in the valid list is refused |
| `HlaAllele.OutsideValidLoci` | src/mhctyper/hla_allele.py:5-51 | every valid locus is one letter long or starts with `D` |
| `HlaExamples.DecomposeKeepsLocusCase` | src/mhctyper/hla_allele.py:160-172 | `HLA-c*01:03` decomposes to prefix `HLA-`, locus `c` (case kept), sep `*` and digit fields `01:03` |
| `HlaExamples.DecomposeRefusesTrailingSeparator` | src/mhctyper/hla_allele.py:152-158 | `hla_dqb1_02_01_01_` has no anchored match and is refused |
| `HlaExamples.DecomposeRefusesUnknownLocus` | src/mhctyper/hla_allele.py:162-165 | `HLA-ivy*01:03` matches the pattern but `IVY` is not a valid locus, so it is refused |
| `HlaExamples.DecomposeRefusesUnknownBareLocus` | src/mhctyper/hla_allele.py:162-165 | `QQQ*01:01:01`, without a prefix, is refused for its locus |
| `HlaAllele.FirstNonEmptySpec` | src/mhctyper/hla_allele.py:137 | the search moves right until the first start position that has a candidate, and finds none only when no position has one |
| `HlaAllele.LeftmostFromSpec` | src/mhctyper/hla_allele.py:136-137 | the unanchored search returns the first candidate, in matcher order, at the leftmost start that has any; it returns nothing only when no start has a candidate |
| `HlaAllele.ReduceResolutionSpec` | src/mhctyper/hla_allele.py:132-145 | reduction succeeds exactly when the name contains a parse; the result is the text of the first candidate at the leftmost start, a substring of the input, with a warning exactly when it is the whole input |
| `HlaAllele.LeftmostReduction` | src/mhctyper/hla_allele.py:132-145 | the reduced text is the slice of the leftmost match, and the warning is raised exactly when that slice is the whole name |
| `HlaNames.ReduceWholeName` | src/mhctyper/hla_allele.py:132-145 | a written well-formed name with no more fields than the grammar allows, not starting with a bare `HLA` locus, is returned whole, with the warning |
| `HlaNames.ReduceLongerName` | src/mhctyper/hla_allele.py:132-145 | a written name with more fields than the grammar allows is returned without the warning, cut to the same prefix, locus and sep and a proper, non-empty prefix of its digit fields that the grammar accepts |
| `Typing.LoadRgSm` | src/mhctyper/utils.py:21-38 | SM is returned exactly when there is exactly one read group and its SM is non-empty; more than one group, or a missing or empty SM, is the read-group error; no read group at all is a separate error (`next` raises StopIteration, which the `except ValueError` does not catch) |
| `Typing.KeepReducedSpec` | src/mhctyper/utils.py:62-70 | filtering by reduced names succeeds exactly when every name reduces, and then keeps, in order, the original names whose reduction is listed |
| `Typing.CollectAllelesToTypeSpec` | src/mhctyper/utils.py:51-78 | without a kept list every name is returned in order; with one, a name that does not reduce is an error, otherwise the result is an in-order subsequence holding exactly the names whose two-field reduction is listed; an empty result is an error |
| `BamCounters.DigitRun` | src/pyhlatyper/bam.py:110 | the length of the longest digit run at the start: all digits, followed by a non-digit or the end |
| `BamCounters.ParseRenderCigar` | src/pyhlatyper/bam.py:110 | splitting a CIGAR into `[0-9]+` and operation pairs gives back the operations it was written from |
| `BamCounters.SoftClipOfRendered` | src/pyhlatyper/bam.py:108-121 | a CIGAR shaped `[nS](nOP)+[nS]` counts its leading plus trailing soft-clip lengths; any other shape (no operation, an interior `S`) counts 0 |
| `BamCounters.IndelOfOp` | src/pyhlatyper/bam.py:124-128 | one operation counts 1 exactly when it is `I` or `D`, whatever its length (`10I` counts 1) |
| `BamCounters.IndelOfRendered` | src/pyhlatyper/bam.py:124-128 | the indel count of a CIGAR is the number of its `I` and `D` operations; other operations and the empty CIGAR count nothing |
| `BamCounters.MdItemCount` | src/pyhlatyper/bam.py:131-134 | a mismatch item counts one event and a deletion `^…` counts none |
| `BamCounters.DigitsMismatchCount` | src/pyhlatyper/bam.py:131-134 | an all-digit MD string has no mismatch events |
| `BamCounters.MismatchOfRendered` | src/pyhlatyper/bam.py:131-134 | the mismatch count of an MD string is its number of mismatch items: deletions are excluded and zero-separated mismatches such as `10A0G5` count separately |
| `Scoring.ScoreToken` | src/mhctyper/score_alleles.py:25-37 | one iteration of the walk: a `^` token changes nothing; an alphabetic token of length L adds mismatch terms of the next L qualities; a digit token n adds match terms of the next n; other tokens raise |
| `Scoring.ScoreLogLikelihood` | src/mhctyper/score_alleles.py:17-38 | the loop returns the walk's score over all tokens, or the error of the first malformed token |
| `Scoring.WalkOkIff` | src/mhctyper/score_alleles.py:28-35 | the walk succeeds exactly when no token is malformed (neither `^…`, alphabetic nor a digit string) |
| `Scoring.PairedTermsExtend` | src/mhctyper/score_alleles.py:31 | extending the bases by n of one kind adds the terms of the next n qualities, cut off at the end of the qualities |
| `Scoring.WalkPairsBases` | src/mhctyper/score_alleles.py:24-37 | the cursor ends at the number of query bases the tokens describe, and the score is the sum of each base's mismatch or match term paired with its quality; bases past the last quality add nothing |
| `Scoring.ScoreEach` | src/mhctyper/score_alleles.py:117-121 | scoring every kept alignment succeeds exactly when every walk succeeds, and then gives each alignment's name and score in order |
| `Scoring.PairedMember` | src/mhctyper/score_alleles.py:84-101 | an alignment is kept exactly when it passes the indel, mismatch and proper-pair filter and its query name occurs exactly twice among the filtered alignments |
| `Scoring.EvidenceNone` | src/mhctyper/score_alleles.py:84-105 | the table is None exactly when no filtered alignment's query name occurs exactly twice |
| `Scoring.EvidenceErr` | src/mhctyper/score_alleles.py:117-121 | scoring fails exactly when the walk of some kept alignment fails |
| `Scoring.EvidencePairsOf` | src/mhctyper/score_alleles.py:117-123 | the rows are the distinct kept query names in first-occurrence order, each with the sum of its alignments' scores |
| `Scoring.EvidencePairs` | src/mhctyper/score_alleles.py:95-123 | rows have distinct query names; each row's name occurs exactly twice among the filtered alignments, and its score is the sum of both mates' scores |
| `Scoring.EvidencePairsComplete` | src/mhctyper/score_alleles.py:95-123 | every filtered alignment whose name occurs exactly twice has a row |
| `Scoring.ScorePerAlleleTags` | src/mhctyper/score_alleles.py:41-126 | an allele that does not decompose is an error; otherwise each pair row is tagged with the allele and gene = prefix + locus of its decomposition, and None stays None |
| `Scoring.CollectTablesOk` | src/mhctyper/score_alleles.py:171-178 | collecting the per-unit results succeeds exactly when no unit raised |
| `Scoring.CollectTablesRows` | src/mhctyper/score_alleles.py:171-181 | the collected rows are, as a multiset, all rows of all tables; nothing is collected exactly when every unit returned None |
| `Scoring.ScoreFirst` | src/mhctyper/score_alleles.py:129-186 | the loop over candidate alleles returns the first stage's outcome: a pool-size error, the first unit's error, the concatenated tables, or an error when no table was produced |
| `Scoring.StageSpec` | src/mhctyper/score_alleles.py:156-185 | a stage succeeds exactly when the pool has at least one worker, no unit raised and some unit produced a table; its rows are then all the tables' rows; an all-None stage is an error |
| `Scoring.StageOrderIrrelevant` | src/mhctyper/score_alleles.py:156-181 | any completion order of the units gives the same outcome and the same rows as a multiset |
| `Scoring.ReallocateUnchanged` | src/mhctyper/score_alleles.py:195-203 | a row whose winner score is 0, as `fill_null(0.0)` gives when there is no winner row, keeps its score |
| `Scoring.ReallocateHalves` | src/mhctyper/score_alleles.py:198-203 | a winner's own row, reallocated against itself, is halved |
| `Scoring.ReallocationOfGene` | src/mhctyper/score_alleles.py:192-194 | every output row of a gene's reallocation is a stage-one row of that gene with only its score changed |
| `Scoring.ReallocatedRow` | src/mhctyper/score_alleles.py:194-203 | when a row's read pair has at most one winner row of its gene, the row with score `s * s/(s+w)` against that winner's score `w` is the reallocated row |
| `Scoring.ReallocationOneToOne` | src/mhctyper/score_alleles.py:189-204 | when winner rows are unique per read pair and gene, reallocation of a gene gives one output per stage-one row of that gene, in order, each reallocated against its winner |
| `Scoring.JoinReallocateCovers` | src/mhctyper/score_alleles.py:194 | the left join drops no stage-one row |
| `Scoring.ScoreSecond` | src/mhctyper/score_alleles.py:207-241 | the loop over winner genes returns the second stage's outcome, with the pool capped at the number of genes |
| `Scoring.SecondStageNeverEmpty` | src/mhctyper/score_alleles.py:215-241 | stage two never ends with its no-table error; it succeeds exactly when the pool size is positive and there is some winner row |
| `Scoring.SecondStageRowsFrom` | src/mhctyper/score_alleles.py:207-237 | every stage-two row is a stage-one row of a winner gene with only its score changed |
| `Scoring.SecondStageCovers` | src/mhctyper/score_alleles.py:207-237 | every stage-one row of a winner gene has a stage-two counterpart |
| `Scoring.TotalsDistinct` | src/mhctyper/score_alleles.py:247-249 | the totals have one row per (allele, gene) |
| `Scoring.TotalsOfRows` | src/mhctyper/score_alleles.py:247-249 | each total belongs to an (allele, gene) of the input and is the rounded sum of that group's scores |
| `Scoring.TotalsCover` | src/mhctyper/score_alleles.py:247-249 | every (allele, gene) of the input has a total |
| `Scoring.BestOf` | src/mhctyper/score_alleles.py:250-260 | the chosen total is one of the gene's totals, at least every other, and among equal totals has the lexicographically smallest allele |
| `Scoring.GeneWinner` | src/mhctyper/score_alleles.py:260 | the winner of a gene is one of that gene's totals |
| `Scoring.WinnerAt` | src/mhctyper/score_alleles.py:244-262 | the i-th winner belongs to the i-th distinct gene; no total of that gene beats it, and ties go to the smallest allele |
| `Scoring.WinnersOnePerGene` | src/mhctyper/score_alleles.py:260-262 | winners have pairwise distinct genes and are drawn from the totals |
| `Scoring.WinnersCover` | src/mhctyper/score_alleles.py:244-262 | every gene of the input has a winner |
| `Scoring.WinnersSpec` | src/mhctyper/score_alleles.py:244-262 | exactly one winner per gene of the input: a maximal total of the gene, ties broken by the lexicographically smallest allele |
| `Typing.WinnerScoresSpec` | src/mhctyper/mhctyper.py:77-79 | the winner scores are exactly the stage-one rows whose (allele, gene) is a stage-one winner |
| `Typing.WinnerScoresGenes` | src/mhctyper/mhctyper.py:76-85 | every gene of the stage-one rows is a gene of the winner rows handed to stage two |
| `Typing.WinnerScoresOnePerRead` | src/mhctyper/mhctyper.py:77-79 | when stage one has one row per read pair and allele, the winner scores have one row per read pair and gene |
| `Typing.SecondStageOneToOne` | src/mhctyper/score_alleles.py:189-204 | with one stage-one row per read pair and allele, stage two reallocates each stage-one row of a gene once, in order, against the winning allele's row of the same read pair |
| `Typing.SecondStageGenes` | src/mhctyper/mhctyper.py:81-88 | stage two yields rows for exactly the genes of the stage-one rows |
| `Typing.SortByAlleleSpec` | src/mhctyper/mhctyper.py:92-94 | the final sort orders the rows by allele and is a permutation |
| `Typing.RunTypingOk` | src/mhctyper/mhctyper.py:76-94 | the in-memory composition succeeds exactly when the pool size is positive and stage one produced rows |
| `Typing.RunTypingSpec` | src/mhctyper/mhctyper.py:76-94 | the result is stage-one winners followed by stage-two winners, as a multiset, sorted by allele and tagged with the sample; stage two runs over all stage-one rows with the winner rows |
| `Typing.RunTypingTwoPerGene` | src/mhctyper/mhctyper.py:76-94 | the final table has exactly two rows for every gene of the stage-one rows and none for any other gene |
| `Typing.SecondWinnersFromFirst` | src/mhctyper/mhctyper.py:81-88 | every stage-two winner is an (allele, gene) that was scored in stage one |
| `Typing.HomozygousTyping` | src/mhctyper/mhctyper.py:76-88 | nothing excludes the first winner from stage two: when every stage-one row of a gene names one allele, every typed row of that gene names that allele |
| `TypingExamples.TieGoesToSmallerAllele` | src/mhctyper/score_alleles.py:250-260 | two equal totals for `hla_a_26_01_24` and `hla_a_26_01_01` make `hla_a_26_01_01` the winner |
| `TypingExamples.FirstStageWinner` | src/mhctyper/score_alleles.py:244-262 | rows `r1`: 10 for `hla_a_01_01_01` and 2 for `hla_a_02_01_01`, `r2`: 5 for `hla_a_02_01_01` give totals 10 and 7 and the winner `hla_a_01_01_01` |
| `TypingExamples.ExampleReallocation` | src/mhctyper/score_alleles.py:189-204 | against the winner row of `r1` those rows become 10·10/20 = 5, 2·2/12 = 1/3 and, without a winner row, 5 |
| `TypingExamples.SecondStageRows` | src/mhctyper/score_alleles.py:207-241 | stage two over those rows yields exactly the three reallocated rows |
| `TypingExamples.SecondStageWinner` | src/mhctyper/score_alleles.py:244-262 | the reallocated rows give totals 5 and 16/3, so the winner is `hla_a_02_01_01` |
| `TypingExamples.TwoStageExample` | src/mhctyper/mhctyper.py:76-94 | the whole run types `hla_a_01_01_01` with 10 in stage one and `hla_a_02_01_01` with 16/3 in stage two |
| `Legacy.LegacyScoreLogLikelihood` | src/pyhlatyper/score_alleles.py:15-34 | the legacy walk is the mhctyper walk run over the MD tag's characters, one token each |
| `Legacy.MdTokensOfRender` | src/mhctyper/score_alleles.py:24 | an MD tag written from its edits splits into the tokens the walk expects: the leading count, then each edit and the count after it |
| `Legacy.TokenListBases` | src/mhctyper/score_alleles.py:24-37 | those tokens are all well formed, and the bases they describe are the query bases of the edits in order (deletions describe none) |
| `Legacy.TokenWalkIntended` | src/pyhlatyper/score_alleles.py:20-33 | over the tokens of an MD tag the walk succeeds, its cursor ends at the number of query bases, and its score pairs each query base with its quality |
| `Legacy.LegacyMisreadsNumbers` | src/pyhlatyper/score_alleles.py:72-74 | on MD `10A5` the character walk consumes 7 qualities instead of 16 and scores the second one as the mismatch |
| `Legacy.LegacyScoresDeletions` | src/pyhlatyper/score_alleles.py:72-74 | `5^AC5` is the MD tag of five matches, a deletion of `AC` and five matches, whose query has 10 bases, all matches; the character walk consumes 12 qualities and scores the deleted `A` and `C` as mismatches |
| `Legacy.ContributionSpec` | src/pyhlatyper/score_alleles.py:44-75 | a record raises exactly when it passes the QC, supplementary and proper checks and misses a field, or is admitted and its walk raises; otherwise it adds its id and score exactly when it is admitted |
| `Legacy.EvidenceOk` | src/pyhlatyper/score_alleles.py:43-75 | the record loop finishes exactly when no record raises, and its `ids`/`scores` are those of the admitted records, in order |
| `Legacy.EvidenceFirstError` | src/pyhlatyper/score_alleles.py:50-61 | a failed loop raises the error of the first record that raises |
| `Legacy.LegacyScorePerAllele` | src/pyhlatyper/score_alleles.py:37-91 | the loop appends ids and scores together and returns the table of the admitted records, or the first error |
| `Legacy.PairTotals` | src/pyhlatyper/score_alleles.py:83-88 | the pair sums have distinct ids, each occurring exactly twice with the sum of its two scores, and every id occurring exactly twice has a sum |
| `Legacy.LegacyScoresSpec` | src/pyhlatyper/score_alleles.py:37-91 | the legacy table, when no record raises, has one row per id scored exactly twice, with the sum of its scores and the allele, no gene column, and may be empty |


## Definitions

The functions below compute; their properties are stated by the members of
the table above.

- `HlaAllele.ToString` (src/mhctyper/hla_allele.py:118-119): `HlaAllele.PartsJoin`, `HlaAllele.DecomposeRoundTrip`, `HlaNames.WrittenParse`, `HlaNames.DecomposeLeftInverse`.
- `HlaAllele.ReduceResolution` (src/mhctyper/hla_allele.py:132-145): `HlaAllele.ReduceResolutionSpec`, `HlaAllele.LeftmostReduction`, `HlaNames.ReduceWholeName`, `HlaNames.ReduceLongerName`.
- `BamCounters.CountSoftClipBases` (src/pyhlatyper/bam.py:108-121): `BamCounters.SoftClipOfRendered`.
- `BamCounters.CountIndelEvents` (src/pyhlatyper/bam.py:124-128): `BamCounters.IndelOfOp`, `BamCounters.IndelOfRendered`.
- `BamCounters.CountMismatchEvents` (src/pyhlatyper/bam.py:131-134): `BamCounters.MdItemCount`, `BamCounters.DigitsMismatchCount`, `BamCounters.MismatchOfRendered`.
- `Scoring.LogLikelihood` and `Scoring.WalkOf` (src/mhctyper/score_alleles.py:17-38): `Scoring.ScoreLogLikelihood`, `Scoring.WalkOkIff`, `Scoring.WalkPairsBases`.
- `Scoring.ScoreEvidence` (src/mhctyper/score_alleles.py:84-123): `Scoring.EvidenceNone`, `Scoring.EvidenceErr`, `Scoring.EvidencePairsOf`, `Scoring.EvidencePairs`, `Scoring.EvidencePairsComplete`.
- `Scoring.ScorePerAllele` (src/mhctyper/score_alleles.py:41-126): `Scoring.ScorePerAlleleTags`.
- `Scoring.Stage` (src/mhctyper/score_alleles.py:156-185): `Scoring.StageSpec`, `Scoring.StageOrderIrrelevant`, `Scoring.ScoreFirst`.
- `Scoring.ScoreSecondByGene` (src/mhctyper/score_alleles.py:189-204): `Scoring.ReallocationOfGene`, `Scoring.ReallocatedRow`, `Scoring.ReallocationOneToOne`, `Scoring.JoinReallocateCovers`, `Typing.SecondStageOneToOne`.
- `Scoring.SecondStage` (src/mhctyper/score_alleles.py:207-241): `Scoring.ScoreSecond`, `Scoring.SecondStageNeverEmpty`, `Scoring.SecondStageRowsFrom`, `Scoring.SecondStageCovers`.
- `Scoring.GetWinners` (src/mhctyper/score_alleles.py:244-262): `Scoring.WinnerAt`, `Scoring.WinnersOnePerGene`, `Scoring.WinnersCover`, `Scoring.WinnersSpec`, `TypingExamples.TieGoesToSmallerAllele`.
- `Typing.CollectAllelesToType` (src/mhctyper/utils.py:51-78): `Typing.CollectAllelesToTypeSpec`.
- `Typing.WinnerScores` (src/mhctyper/mhctyper.py:77-79): `Typing.WinnerScoresSpec`, `Typing.WinnerScoresGenes`, `Typing.WinnerScoresOnePerRead`.
- `Typing.RunTyping` (src/mhctyper/mhctyper.py:76-94): `Typing.RunTypingOk`, `Typing.RunTypingSpec`, `Typing.RunTypingTwoPerGene`, `Typing.SecondWinnersFromFirst`, `Typing.HomozygousTyping`, `TypingExamples.TwoStageExample`.
- `Legacy.Contribution` (src/pyhlatyper/score_alleles.py:44-75): `Legacy.ContributionSpec`.
- `Legacy.LegacyScores` (src/pyhlatyper/score_alleles.py:37-91): `Legacy.LegacyScoresSpec`.

## Left out

- Process pools, `imap_unordered` and the progress bars are modelled as a sequential loop. `Scoring.StageOrderIrrelevant` shows the completion order does not matter. A pool asked for fewer than one worker raises, and the model returns an error for it.
- The debug branch of `score_a_one` (log-handler lookup, `nproc` forced to 1) and all logging are left out: they do not change any result.
- Floating point is left out:
  - `10 ** (-k/10)`, `np.log` and the scale factor are the two `LogTerms` functions of a quality;
  - `.round(4)` is the `round` parameter of the winner selection;
  - the NaN of `s/(s+w)` at `s + w == 0` is excluded by the precondition `Reallocatable`.
- BAM access is left out, because it is foreign code over files:
  - `walk_bam` and its flag filter;
  - `BAMetadata`;
  - the `rnames` id mapping;
  - pysam in the legacy scorer;
  - `parse_alignments` in `bam.py`.

  The alignments and records are input sequences.
- `count_unaligned_events` is imported by the legacy scorer but not defined in `bam.py`. It is the parameter `unaligned`.
- CSV reads and writes are left out, and so is the reuse of earlier stage files (`mhctyper.py` before line 76, `score_second` in the legacy package). `load_allele_pop_freq` is left out too (CSV plus a float fold); the kept-name list is an input.
- Argument parsing, the legacy `pyhlatyper.py` orchestration, the legacy `score_a_one` and `score_second`, and `sys.exit` are left out. An exit is an `Err` result.
- The legacy `score_second_by_gene` (`src/pyhlatyper/score_alleles.py:124-139`) is the mhctyper function with the join key named `ids`. It is modelled once, by `Scoring.ScoreSecondByGene`.
- Arbitrary user-supplied regular expressions are left out; only the default grammar shape is modelled. Separators and suffix letters are literal character sets, so a regex metacharacter placed in them is not interpreted.
- Python's `isalpha`, `isdigit`, `upper` and `lower` are ASCII only in the model. `isspace` and `strip` use Python's full whitespace set.
- Polars group-by and `unique` order is unspecified; the model lists groups in first-occurrence order. Most stated properties hold in any order, but three are statements about that chosen order:
  - `Scoring.EvidencePairsOf` lists the read pairs in first-occurrence order;
  - `Scoring.WinnerAt` ties the i-th winner to the i-th distinct gene;
  - `Scoring.ReallocationOneToOne` keeps the order of the stage-one rows.
- Typing.SortByAlleleSpec: the final `sort(by="allele")` is not stable in polars, so the model states sortedness and permutation and fixes one order among equal alleles.
- Scoring.WalkOkIff: Python's `int()` also accepts a sign, surrounding whitespace, underscores and non-ASCII digits. The model treats such tokens as malformed; MD tokens never contain them.
- HlaNames.DecomposeWritten: the written-name lemmas assume the grammar's separators are neither digits nor suffix letters (`HlaNames.SeparatorsApart`). The default and two-field grammars meet this (`HlaNames.DefaultSeparatorsApart`).
- HlaNames.DecomposeWritten: they also leave out names with no prefix whose locus upper-cases to `HLA`, such as `HLA_01:01`. There the matcher first tries `HLA_` as a prefix, and the lemmas do not follow that case.
- HlaNames.ReduceLongerName: states that the kept digit fields are a proper prefix the grammar accepts, not that the matcher keeps the longest such prefix.
- Scoring.ReallocationOneToOne: conditional on one winner row per read pair and gene. `Typing.SecondStageOneToOne` derives that from one stage-one row per read pair and allele. That stage one produces such rows is not proved: it needs distinct candidate alleles, which the header's reference names are but the model does not require.

## Findings

| source | as written | input that shows it | evidently intended | confidence | as-written member | corrected member |
|---|---|---|---|---|---|---|
| src/pyhlatyper/score_alleles.py:72-74 | the MD tag is passed as one string, so the walk takes every character as a token and a multi-digit count as several counts | MD `10A5` over 16 qualities: tokens `1`,`0`,`A`,`5` consume 7 qualities and score the second as the mismatch | tokens `10`,`A`,`5`: 16 qualities consumed, the eleventh scored as the mismatch (the newer package passes a token list) | not executed | `Legacy.LegacyMisreadsNumbers` | `Legacy.TokenWalkIntended` |
| src/pyhlatyper/score_alleles.py:72-74 | the characters after `^` become alphabetic tokens of their own, so deleted reference bases are scored as mismatches | MD `5^AC5` over 10 qualities: the walk consumes 12 and scores two mismatch terms | the deletion `^AC` is one skipped token: 10 qualities, all matches | not executed | `Legacy.LegacyScoresDeletions` | `Legacy.TokenWalkIntended` |

Two models exist side by side:
- The legacy scorer (`Legacy.LegacyScores`) keeps the as-written character walk, because it models that package.
- The typing pipeline (`Scoring`, `Typing`) walks MD token lists. That is the corrected form, and `Legacy.TokenWalkIntended` proves it right for any tag written from edits.
