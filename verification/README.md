# sknobs, modelled and verified

sknobs is a knob engine for design verification: a database of `pattern=value` settings, filled from
argument lists and files, searched by pattern so that the last match wins, with values that may be weighted
lists and ranges drawn from a private random source. This project models its engine, `src/c/sknobs.c`, and
proves what the engine promises.

Every part is there twice. The code that changes things in place (linked list, iterator slots, hash chains,
comment stripper, tokenizer, evaluator, argument machine, printer, directory walks) is imperative: classes and
methods over arrays and linked nodes. Each method is proved against a function over plain values, and the
theorems are about those functions, over all inputs, all runs and all files.

| part | as it runs | what it means and what is proved of it |
|---|---|---|
| text, numbers, matching | `Strtok.dfy` | `Text.dfy`, `Gather.dfy`, `Numbers.dfy`, `Numerals.dfy`, `World.dfy` |
| comments | `Comments.dfy` (`Advance`, `Uncomment`) | `Comments.dfy` (`Strip` and its laws) |
| random source, evaluator | `Random.dfy`, `Evaluator.dfy` | `Choice.dfy`, `Items.dfy`, `Ranges.dfy`, `Eval.dfy`, `Expressions.dfy`, `Distribution.dfy` |
| database and iterators | `Database.dfy` | `Knobs.dfy`, `Pool.dfy`, `Locks.dfy` |
| saved values, runs | `SavedTable.dfy`, `Answers.dfy`, `Execution.dfy` | `Runs.dfy`, `Values.dfy`, `Routes.dfy` |
| loader | `Engine.dfy` | `Loader.dfy`, `Arguments.dfy`, `Inclusion.dfy`, `Seeds.dfy`, `Growth.dfy` |
| printer, next session | `Printer.dfy`, `Session.dfy` | `Replay.dfy`, `Values.dfy`, `SeedKnob.dfy` |
| initialisation walks | `Startup.dfy` | `Paths.dfy` |

## Main results

* **Save and replay.** The text that saving writes goes through stripper, tokenizer, argument machine and parser
  and gives back the same knobs in the same order and one knob per cached value; every cached name but `seed` then
  answers as before, drawing nothing. `Session.SaveAndRestart` does this with two running engines. Everything comes
  back exactly as it was written if and only if no value is NULL or empty, and a knob named `seed`, if there is one,
  is the only one, has no match of `seed` in front of it, and holds a number below 2^32 in plain decimal.
* **The seed across sessions.** The next session has the seed of the first if and only if the seed knob still reads
  as that seed, modulo 2^32 (or reads as no 64-bit number, and a cached `seed` reads as it). Over any run it does,
  unless a setter writes to that knob or a second one is added; and there is a run that writes to it, after which
  the next session draws from another seed and answers `seed` otherwise. When a cached `seed` answers as before has
  its own exact condition.
* **Inclusion is splicing.** With the seed fixed, loading appends exactly the knobs of the flat token list in which
  each `-f` is replaced by what the chosen file comes to, also up to a failure; over an acyclic file store it ends.
* **The seed is final within a session.** Deleting every seed argument from the command line and from all files
  changes nothing.
* **Evaluation keeps the meaning.** A printed list of values, ranges and weights, the numbers in any form that is
  read, evaluates to a member of an alternative of positive weight, and every such member comes out for some random
  source; counted over any number of draws, each alternative and each value gets its share, rounded down or up.
* **Numbers, patterns and arguments in their own words.** What is read from any number, in any base; which names a
  pattern of plain characters, `?`, `*` and backslashes matches; what each form of argument and of knob text adds.
  These laws do not speak of the functions that scan.
* **Answers stay.** Whatever happens in between, `sknobs_get_value` answers the same for a name, and a repeated
  question changes nothing else in the run. `Execution.Execute` performs a run on the engine in memory and equates it
  with the run that these theorems are about.
* **One tokenizer cursor is enough.** The engine has one `strtok` cursor for files, knobs and expressions; every
  loader and evaluator method is proved with that shared cursor.
* **One path buffer is enough.** The knobsrc walk keeps its position in the buffer that `sknobs_set_value` prints
  into. It finds it intact because once the seed is fixed nothing that loading can reach writes there.

## Where code and documentation differ

The model follows the code.

* The lock (`README.md:35-40`) is not implemented: the search goes on behind a locked match, and the `=` that should
  lock is read as part of the text. What is read is what is documented if and only if no match is locked, or the last
  match happens to repeat the text locked first (`Locks.LocksAreKeptIff`). The argument `+x==100` alone reads as
  `=100`, which evaluates to 0 (`Locks.LockIsRead`), and with `+x=5` behind it the later value decides
  (`Locks.LockIsOverridden`).
* `README.md:62` has the knobsrc files read from the working directory up to `/`; the code goes from the top down
  (`src/c/sknobs.c:1204-1219`), so that the nearest directory wins (`Growth.NearestDirectoryWins`), and leaves the root
  out. Both orders are the same if and only if the working directory is the root (`Paths.DocumentedOrderIff`); in `/a`
  the root is missing, in `/a/b` the order is reversed besides.
* The comment at `src/c/sknobs.c:213` speaks of a single choice; the code tests for a total weight of 1, so
  `a:0,b:1` gives `a`. `Choice.SelectedIsExact` has the exact condition under which a weight of zero is taken, also
  for totals that wrap around.
* A block comment left open on a `*` goes unreported. `Comments.ReportedExactlyWhenOpen` has the exact condition.
* A save file is meant to restore the knobs (`src/c/sknobs.c:1103-1111`). A value that was set to be empty comes back
  as `1` (`Replay.EmptyValueComesBackAsOne`), and a seed that was set to the text `0x10` comes back as `16`
  (`SeedKnob.HexadecimalComesBackAsDecimal`); `SeedKnob.UnchangedIff` has the exact condition.
* A value set for a name that no knob matches is lost if the name, taken as a pattern, is rejected or does not
  match itself, as `a\b` does not (`Values.BackslashIsLost`). `Knobs.SetThenGet` has the exact condition.
* The seed is documented as not to be overridden (`README.md:58-59`). Within a session it is not; but the knob that
  records it can be written like any other, and the next session that starts from a save file takes its seed from
  there (`SeedKnob.SeedKnobCanBeOverwritten`).

## Conventions

* A C string is a `string` without NUL; memory is an `array<char>`, and `ReadsAs` says which string it holds at an
  offset. Pointers are offsets, or an array and an offset.
* `World` is what the engine reads from outside: the readable files, `glob` for knobsrc files, `random()` as an
  arbitrary stream for each seed, the regular-expression library, `fnmatch` for patterns from a `[` on, and the
  delimiter set. All are arbitrary; nothing is assumed of them. `fnmatch` itself (`*`, `?`, `\`, literals) follows
  section 2.13 of the POSIX.1-2017 Shell Command Language, `strtok` section 7.24.5.8 and `strtoull` section
  7.22.1.4 of ISO/IEC 9899:2011.
* `Crash` and `None` stand for runs to which the C program gives no meaning, or which an assertion of its own ends:
  a null token dereferenced, more than 100 alternatives, an expression of 8192 characters or more, a total weight
  of 0, a range of wrapped size 0 other than the guarded one, an argument vector of 100000 or more. Methods require
  their absence; everything else, failures included, is modelled.
* `depth` bounds the nesting of inclusions so that loading is a function. `TooDeep` is the only trace of it:
  `Inclusion.MoreDepth` shows that a larger bound changes nothing, `Inclusion.LoadEnds` that for an acyclic store one
  bound is enough for all arguments, states and random sources.
* Words are natural numbers below 2^64 with explicit wrapping; the hash is 32-bit arithmetic. The four disjoint
  16-bit pieces of a draw are added where the code ors them.

## Model

| member | source | states |
|---|---|---|
| Session.SaveAndRestart | src/c/sknobs.c:1103-1111 | a session that saves and one that starts from the file: what was saved, brought back in order (with a readable seed knob, or with no seed at all, the same knobs in the same order and then one per cached value; exactly as written under its exact condition); the seed is the first readable one, and equals that of the first session under its exact condition; a cached name answers as before, and `seed` does under its exact condition, although the new table was empty |
| Session.SeededSession | src/c/sknobs.c:680-715 | a session that is seeded and then does anything short of writing to the seed knob ends with that knob holding its seed, so that the next one has it too |
| Replay.ReplayRestores | src/c/sknobs.c:602-619 | save text of any savable database, stripped, tokenized and loaded into an empty engine, loads without failing and brings back the records and then the cached values, one after the other |
| Replay.ReplayRestoresUnseeded | src/c/sknobs.c:602-619 | without a seed knob and a cached `seed` these are the database and one knob per cached value |
| Replay.FileTokens | src/c/sknobs.c:602-676 | a whole save file strips and tokenizes to one token per record, and no comment is reported open |
| Replay.TokenParses | src/c/sknobs.c:738-786 | the parser takes such a token apart into the pattern and value it was printed from; an empty value becomes "1" |
| Replay.LineLoads | src/c/sknobs.c:738-786 | loading it adds that one knob, or sets the seed if the pattern is `seed` |
| Replay.LineLooks | src/c/sknobs.c:604-616 | the two lines of a knob and of a cached value, character by character |
| Replay.SaveFileLines | src/c/sknobs.c:602-619 | a save file is these lines, knobs first, in order |
| SeedKnob.UnchangedIff | src/c/sknobs.c:738-786 | what was saved comes back exactly as it was if and only if no value is NULL or empty and any knob named `seed` is the only one, has no match of `seed` in front of it, and holds a number below 2^32 in plain decimal |
| SeedKnob.ReplayIsExactIff | src/c/sknobs.c:602-619 | the same of loading the save file, cached values included |
| SeedKnob.HexadecimalComesBackAsDecimal | src/c/sknobs.c:719-732 | seeding with 16 and setting the seed knob to the text `0x10` is a run after which the file brings back `16` |
| Replay.ReloadedAsWrittenIff | src/c/sknobs.c:774-776 | records that do not go by way of the seed setter come back as they were if and only if no value is NULL or empty |
| Values.CachedAnswersSurvive | src/c/sknobs.c:498-540 | after a reload every cached name but `seed` answers its cached 64-bit value, for any default and random source, drawing nothing, whatever else was saved |
| Replay.EmptyValueComesBackAsOne | src/c/sknobs.c:774-776 | a text set to be empty through the setter comes back as "1" |
| SeedKnob.SetSeedMakesKnob | src/c/sknobs.c:698-714 | seeding, when no knob matches `seed` yet, leaves one knob named `seed` that holds the seed |
| SeedKnob.RunKeepsKnob | src/c/sknobs.c:680-791 | over any run of a seeded engine that knob stays where it is unless a second one is added, and keeps its value unless a setter writes to it |
| SeedKnob.FirstSeedIsRestored | src/c/sknobs.c:719-732 | whatever is saved, the restored seed is the first one that can be read |
| SeedKnob.SeedRestoredIff | src/c/sknobs.c:719-732 | with one knob named `seed`, wherever it stands, the seed comes back if and only if that knob reads as it, modulo 2^32, or reads as no 64-bit number and a cached `seed` does |
| SeedKnob.SeedKnobRestores | src/c/sknobs.c:738-786 | with a readable seed knob the same knobs come back in the same order, the seed knob holding the seed as read, then one per cached value but `seed` |
| SeedKnob.SeedSurvivesSession | src/c/sknobs.c:680-715 | after any run from the seeding on that spares the seed knob, a save file brings back the seed, the knobs and the cached values |
| SeedKnob.SeedAnswer | src/c/sknobs.c:498-506 | what a cached `seed` answers after a reload, whatever was saved |
| SeedKnob.CachedSeedSurvivesIff | src/c/sknobs.c:498-506 | a cached `seed` answers as before if and only if the knob that decides (the seed knob, a later match, or the cached value itself) gives the cached value |
| SeedKnob.SeedAnswerSurvives | src/c/sknobs.c:498-506 | if no knob behind the seed knob matches that name, `seed` answers the seed that was read back |
| SeedKnob.SeedKnobCanBeOverwritten | src/c/sknobs.c:550-564 | seeding with 4, asking for `seed` and setting it to 7 is such a run: the session goes on with seed 4 and cached answer 4, the next one has seed 7 and answers 7 |
| Printer.Save | src/c/sknobs.c:591-621 | walking list and chains writes exactly the save text of the records and of the cached values |
| Printer.PrintKnobs | src/c/sknobs.c:602-612 | the first loop writes the lines of all knobs in order |
| Printer.PrintTable | src/c/sknobs.c:613-619 | the second loop writes the lines of all chains |
| Printer.TableListingIsTheCache | src/c/sknobs.c:613-619 | what is printed from the table is each cached name once, with its value |
| Inclusion.LoadIsSplicing | src/c/sknobs.c:843-997 | with the seed fixed, loading only appends, and appends the knobs of the flat spliced list; same generator and return code, also on failure |
| Inclusion.SpliceAllIsLoad | src/c/sknobs.c:843-997 | the same from any point of a list and any state of the argument machine |
| Inclusion.PlainAdds | src/c/sknobs.c:738-896 | what one plain argument adds, and when it fails |
| Inclusion.LoadStays | src/c/sknobs.c:843-997 | over files whose inclusions go down in rank, loading ends within that rank, whatever is drawn and whatever the search path |
| Inclusion.LoadEnds | src/c/sknobs.c:843-997 | over an acyclic store one bound, given by the files alone, is enough for all arguments, states and random sources |
| Growth.LoadFileGrows | src/c/sknobs.c:957-997 | with the seed fixed, loading a file only adds knobs behind the others, none of them named `seed` |
| Growth.NearestDirectoryWins | src/c/sknobs.c:1203-1219 | a knob from the directory loaded last answers every name it matches; all other names are answered as the directories above decided |
| Inclusion.MoreDepth | src/c/sknobs.c:843-997 | a run that ends within a bound is the same under any larger one |
| Arguments.KnobIsAdded | src/c/sknobs.c:759-786 | `name=value` and `name` add exactly that knob, without a value "1"; a regular expression that does not compile is an error |
| Arguments.DefineIsAdded | src/c/sknobs.c:766-786 | `define+name=value` adds exactly the recorded text and the knob |
| Arguments.DefineDoesAsItsText | src/c/sknobs.c:766-786 | apart from what it records, a define does what its text does, for `seed` and refused names too |
| Arguments.UndefineIsAdded | src/c/sknobs.c:761-786 | `undefine+name` adds exactly the recorded name and the whole text as a knob |
| Arguments.EmptyNameIsError | src/c/sknobs.c:749-758 | empty texts and texts that begin with `=` are errors |
| Arguments.SeedIsSet | src/c/sknobs.c:719-781 | `seed=n` in any base sets the low 32 bits once; a number that is too large is left unset without an error |
| Arguments.PlusAdds | src/c/sknobs.c:881-891 | `+text` adds the text, a lone `+` is passed over |
| Arguments.DashFIncludes | src/c/sknobs.c:870-904 | `-f files` includes a file, in two arguments or in one |
| Arguments.PliIsPassedOver | src/c/sknobs.c:879-909 | `-pli` and the one argument behind it are passed over, and loading goes on |
| Arguments.NothingBehind | src/c/sknobs.c:912-916 | a final `-f` or `-pli` is an error |
| Arguments.OthersAreFiles | src/c/sknobs.c:892-895 | every other argument is recorded as a file |
| Arguments.FileIsChosen | src/c/sknobs.c:843-853 | which file of a weighted list is included, and what is drawn for it |
| Arguments.OneFileIsLoaded | src/c/sknobs.c:843-853 | a single name is included without a draw |
| Arguments.UnreadableIsError | src/c/sknobs.c:966-985 | a missing file, or one with a comment left open, is an error and adds nothing |
| Arguments.FileIsItsTokens | src/c/sknobs.c:971-997 | any other file is the list of its tokens, comments blanked, up to its first NUL |
| Loader.LoadConcat | src/c/sknobs.c:859-917 | loading xs + ys is loading xs and then, if that succeeded, ys, whenever xs leaves the argument machine at START |
| Seeds.SeedsDoNotMatter | src/c/sknobs.c:680-917 | with the seed fixed, deleting the seed tokens at START from the arguments and all files keeps database, random position and return code |
| Seeds.IsSeedTokenIff | src/c/sknobs.c:777-781 | the tokens deleted are `+seed` and `+seed=...`, and no others |
| Seeds.EraseSeedsErases | src/c/sknobs.c:923-997 | such a set of files exists: the rewritten files tokenize to the remaining tokens and none is reported open that was not |
| Seeds.SeedArgumentsAreIgnored | src/c/sknobs.c:682-703 | both together: the two command lines of the comment behave identically |
| Seeds.LoadKeepsSeed | src/c/sknobs.c:698-704 | loading never changes a fixed seed nor rewinds the random source |
| Runs.SameAnswerForever | src/c/sknobs.c:512-545 | over any run of adding, setting, seeding, loading and asking, all get_value answers for one name are equal |
| Runs.ExtraCallIsInvisible | src/c/sknobs.c:517-529 | an extra get_value for a cached name leaves the other answers, database, table and random position of the run as they were |
| Runs.AnswersAreInTheTable | src/c/sknobs.c:530-540 | every answer is in the table at the end of the run, and the table only grows |
| Runs.SeedIsFinal | README.md:57-59 | once determined the seed stays over any run, and the random source only moves forward |
| Execution.Execute | src/c/sknobs.c:441-564 | performing a list of calls on the engine in memory gives the answers and the machine of the run model, so the run theorems hold of the engine |
| Execution.Perform | src/c/sknobs.c:441-564 | one call |
| Routes.GivenIsAnswered | src/c/sknobs.c:498-545 | a number given in any way (added, parsed, set, as an argument, from a file) and in any base is what both questions for its name answer, drawing nothing |
| Runs.GetValue | src/c/sknobs.c:512-545 | adds at most the asked name to the cache, keeps every other entry, and answers what the cache then holds |
| Values.SetValueThenGet | src/c/sknobs.c:498-564 | every 64-bit value that can be set is read back, whatever the default, drawing nothing; those from 2^63 on go through a negative decimal |
| Values.NullIsDefault | src/c/sknobs.c:498-503 | a knob whose value is NULL answers like no knob at all |
| Values.UnsettableIsLost | src/c/sknobs.c:550-561 | where the name cannot be set, the default is read back instead |
| Values.BackslashIsLost | src/c/sknobs.c:550-561 | `a\b` is such a name in an empty database |
| Numbers.ParseOfPrint | src/c/sknobs.c:249-256 | reading with base 0 inverts printing as signed decimal on all 64-bit words |
| Numerals.NumeralReads | src/c/sknobs.c:202-256 | any blank space, at most one sign, a number in base 8, 10 or 16 with its prefix and in either case, then anything: it reads as what its digits stand for, negated modulo 2^64 after a minus, and saturates with a range error from 2^64 on |
| Numerals.NoNumeralReads | src/c/sknobs.c:202-256 | a text without a digit in front reads as 0 |
| Numerals.ParseOfPrintIn | src/c/sknobs.c:202-256 | reading inverts printing in every base, on all 64-bit words |
| Numerals.PrintIsSigned | src/c/sknobs.c:553-553 | words from 2^63 on are printed with a minus, the others as plain decimals |
| Expressions.EvaluatesToAMember | src/c/sknobs.c:179-265 | a printed list evaluates to a member of an alternative of positive weight |
| Expressions.EveryMemberIsPossible | src/c/sknobs.c:179-265 | every member of every alternative of positive weight is the result for some random source |
| Items.ItemsRead | src/c/sknobs.c:191-208 | the comma and colon splits take any printed list of names and weights apart again |
| Items.ChooseItem | src/c/sknobs.c:209-224 | choosing gives the name of the selected item, and draws unless the total weight is 1 |
| Items.ChoiceDefinedIff | src/c/sknobs.c:180-224 | a list can be chosen from if and only if it has at most 100 items, less than 8192 characters and a total weight that is not 0 modulo 2^64 |
| Items.SecondColonEndsWeight | src/c/sknobs.c:198-202 | nothing behind a second colon is looked at |
| Expressions.EvaluatePrint | src/c/sknobs.c:237-265 | what a printed list evaluates to, draw by draw, also where the total wraps: the number or a value of the range that is selected |
| Expressions.EvaluateNumber | src/c/sknobs.c:237-254 | a text that divides nothing evaluates to what it reads as, without a draw |
| Expressions.EvaluateNumeral | src/c/sknobs.c:237-254 | a word evaluates to itself in decimal, octal and hexadecimal, a number that is too large to the largest word |
| Expressions.EvaluateBetween | src/c/sknobs.c:246-264 | so do the ends of a range, in any form |
| Expressions.ThirdEndIsIgnored | src/c/sknobs.c:246-256 | a third end of a range is not looked at |
| Expressions.EvaluateLLD | src/c/sknobs.c:237-254 | a printed 64-bit word evaluates to itself without a draw |
| Choice.PickIsExact | src/c/sknobs.c:216-224 | for a total that does not wrap, the scan stops at the one k with prefix(k) <= w < prefix(k+1), and its weight is positive |
| Choice.PickStaysInside | src/c/sknobs.c:217-223 | the scan never reads past the alternatives, even when the total wraps |
| Choice.SelectedIsExact | src/c/sknobs.c:209-224 | for all lists of 64-bit weights, wrapping or not, an alternative of weight zero is selected if and only if the total is 1 and it is the first; for a total that does not wrap, which alternative a draw selects |
| Choice.WrappedZeroWeightTaken | src/c/sknobs.c:209-215 | weights 0, 2^64-1 and 2 wrap to a total of 1, and the first is taken |
| Choice.ZeroWeightTaken | src/c/sknobs.c:213-215 | `a:0,b:1` always gives `a` |
| Distribution.ResiduesPerAlternative | src/c/sknobs.c:217-223 | exactly weight-many residues select an alternative |
| Distribution.DrawsPerAlternative | src/c/sknobs.c:217-223 | of n draws, between weight * floor(n/total) and weight * ceil(n/total) select an alternative; n = 2^64 for the engine |
| Distribution.DrawsPerValue | src/c/sknobs.c:260-264 | of n draws, floor or ceil of n/size give each value of a range |
| Distribution.DrawsPerWord | src/c/sknobs.c:261-262 | in the guarded full range each value comes from one draw |
| Ranges.RangeIsItsCircle | src/c/sknobs.c:260-264 | for any 64-bit endpoints, exactly the values of the circular interval are drawn |
| Ranges.OrderedRange | src/c/sknobs.c:260-264 | for lo <= hi the guard is exactly the case where the size wraps to 0, and the result lies in [lo, hi] without overflow |
| Ranges.SignedRange | src/c/sknobs.c:260-264 | read as signed numbers the result stays within signed bounds, and which signed range divides by zero |
| Random.DrawsAreQuadruples | src/c/sknobs.c:112-120 | quadruples of 16-bit pieces and 64-bit draws correspond one to one |
| Random.DrawInBits | src/c/sknobs.c:112-120 | for every source: bits 0 to 15 of a draw are the low 16 bits of the next value of random(), bits 16 to 31 those of the one after it, and so on |
| Random.SomeSourceDraws | src/c/sknobs.c:106-125 | any two consecutive draws are produced by some source |
| Random.RandomSource.GetRandom | src/c/sknobs.c:106-125 | four calls of random(), first piece lowest |
| EvaluatorModule.Evaluator.Eval | src/c/sknobs.c:237-265 | the in-place evaluation agrees with the evaluation function in value and random position |
| EvaluatorModule.Evaluator.ChooseFromWeightedList | src/c/sknobs.c:179-225 | the returned pointer reads as the chosen alternative, cut at its colon |
| EvaluatorModule.Evaluator.SplitAtCommas | src/c/sknobs.c:188-194 | the pointers collected in one buffer read as the comma-separated parts |
| EvaluatorModule.Evaluator.AssignWeights | src/c/sknobs.c:195-208 | cutting every alternative at its colon yields its weight and leaves every pointer at its head |
| EvaluatorModule.Evaluator.ReadWeight | src/c/sknobs.c:196-208 | one alternative: its weight or 1, its pointer now reads as its head, nothing outside it is written |
| EvaluatorModule.Evaluator.SumUp | src/c/sknobs.c:209-212 | the total wraps at 64 bits |
| EvaluatorModule.Evaluator.Scan | src/c/sknobs.c:216-224 | stops, within bounds, at the first alternative whose running total exceeds the residue |
| EvaluatorModule.Evaluator.SplitAtTilde | src/c/sknobs.c:246-253 | one or two ends of a range, as text |
| Text.TokensAreTheMaximalRuns | src/c/sknobs.c:936-947 | the tokens are the maximal delimiter-free runs of the text: all of them, once each, in order |
| Text.TokensOfJoin | src/c/sknobs.c:936-947 | fields joined by a delimiter tokenize back to the fields |
| StrtokModule.Strtok.First | src/c/sknobs.c:936-936 | one scan from a given string: reported token, cursor, and the one character overwritten |
| StrtokModule.Strtok.Next | src/c/sknobs.c:946-946 | one scan from the hidden cursor |
| StrtokModule.ScannedReads | src/c/sknobs.c:936-946 | the reported pointer reads as the first token and the cursor as the rest |
| StrtokModule.ScannedKeeps | src/c/sknobs.c:196-208 | strings wholly before or behind the scanned one are untouched, so earlier tokens survive |
| Gather.ProgressStep | src/c/sknobs.c:936-947 | one turn of a tokenizer loop: collected pointers stay good, collected and remaining tokens make up the text |
| EngineModule.GatherTokens | src/c/sknobs.c:932-947 | the argument vector points at all tokens in order and never outgrows its maximum |
| EngineModule.Push | src/c/sknobs.c:938-945 | storing a token keeps all earlier entries, also when the vector grows first |
| EngineModule.Grow | src/c/sknobs.c:941-942 | a longer vector with the same entries in front |
| Comments.Uncomment | src/c/sknobs.c:627-676 | the five-state machine blanks the buffer in place to its stripped text, and its answer is whether a comment was left open |
| Comments.StripAt | src/c/sknobs.c:630-670 | each position is blank if it lies in a comment and unchanged otherwise; newlines that end line comments stay |
| Comments.StripIsCommentFree | src/c/sknobs.c:636-650 | no comment opener is left |
| Comments.CommentFreeIsKept | src/c/sknobs.c:627-676 | text without an opener is accepted as it is |
| Comments.StripTwice | src/c/sknobs.c:627-676 | a second pass succeeds and changes nothing |
| Comments.ReportedExactlyWhenOpen | src/c/sknobs.c:656-674 | an error is returned if and only if the text ends in a block comment whose body does not end on `*` |
| Comments.OpenOnStarIsAccepted | src/c/sknobs.c:671-675 | `/* *` is open and goes unreported |
| World.LiteralMatchesItself | src/c/sknobs.c:295-304 | a name without pattern characters matches itself and nothing else |
| World.ElementsMatch | src/c/sknobs.c:301-303 | a pattern that begins with plain, `?` and escaped characters matches exactly the names that begin with characters accepted one by one and of which the rest matches the rest |
| World.ElementsMatchAlone | src/c/sknobs.c:295-304 | made of these only, it matches exactly the names of the same length accepted one by one |
| World.QuotedMatchesItself | src/c/sknobs.c:295-304 | a name with a backslash in front of every character matches exactly that name |
| World.MarkedIsRegular | src/c/sknobs.c:296-299 | a leading `+` hands the rest to the regular-expression library |
| World.StarMatchesAnyPrefix | src/c/sknobs.c:301-303 | a star stands for any stretch of the name, the empty one included |
| Knobs.LastMatchSnoc | src/c/sknobs.c:321-327 | an added knob becomes the last match of exactly the names its pattern matches |
| Knobs.AddedIff | src/c/sknobs.c:137-153 | a regular expression is added if and only if it compiles, every other pattern always |
| Knobs.RegularIsFoundIff | src/c/sknobs.c:286-327 | once added, it is found for exactly the names that regexec matches |
| Knobs.SetStringChanges | src/c/sknobs.c:478-489 | whose answers a setter changes: those whose last match is the knob it writes, or whom the appended pattern matches; all others read as before |
| Knobs.SetThenGet | src/c/sknobs.c:457-492 | what is set is read back if and only if the name has a match or makes a pattern that matches itself |
| Knobs.LiteralIsSettable | src/c/sknobs.c:478-489 | plain names can always be set |
| Knobs.FindFileIs | src/c/sknobs.c:808-833 | the first existing search-path candidate in database order, else the argument itself |
| Locks.LocksAreKeptIff | README.md:35-40 | the text read is the documented one if and only if no match is locked, or the last match lies behind the first locked one and holds the text locked there |
| Locks.SearchStopsAtLockIff | README.md:39-40 | the search ends up at the documented knob if and only if no match has a locked one in front of it |
| Locks.LockIsRead | README.md:35-38 | loading `+x==100` alone gives the text `=100` and the value 0, where 100 is documented |
| Locks.LockIsOverridden | src/c/sknobs.c:321-327 | loading the arguments `+x==100` and `+x=5` gives a database in which the later value overrides the locked one |
| Pool.IterationIsPeriodic | src/c/sknobs.c:270-316 | get_next returns match 0 to m-1, then null, then starts again, with period m+1 |
| Pool.MatchesFromIsExact | src/c/sknobs.c:294-314 | these matches are all knobs whose pattern matches |
| Pool.MatchesIncrease | src/c/sknobs.c:294-314 | and come in database order |
| Pool.KeepsItsStream | src/c/sknobs.c:273-279 | under any interleaving with lookups, other iterators and changes of the database, an iterator moves by its own steps only, until its slot comes round |
| Pool.OwnIsAfter | src/c/sknobs.c:286-316 | setting values in place does not disturb a stream: while no knob is added it is the one over the original database |
| Pool.OwnStreamUntilTenMore | src/c/sknobs.c:273-279 | that is through nine more iterators; the tenth takes its slot |
| DatabaseModule.Database.Add | src/c/sknobs.c:131-173 | appends to the linked list, which stays acyclic with the tail last, unless the expression does not compile |
| DatabaseModule.Database.Link | src/c/sknobs.c:160-166 | hangs one node on the tail, earlier nodes and all iterators unmoved |
| DatabaseModule.Database.Iterate | src/c/sknobs.c:270-281 | takes the next of ten slots and restarts it, the other slots unchanged |
| DatabaseModule.Database.GetNext | src/c/sknobs.c:286-316 | moves one cursor to the next matching node, or to the end |
| DatabaseModule.Database.FindLast | src/c/sknobs.c:321-327 | returns the node with the greatest matching index, taking one slot |
| DatabaseModule.Database.Exists | src/c/sknobs.c:441-452 | true if and only if some knob matches; its iterator is run to the end |
| DatabaseModule.Database.GetString | src/c/sknobs.c:457-473 | the value of the last match, or the default |
| DatabaseModule.Database.SetString | src/c/sknobs.c:478-492 | overwrites exactly the last match in place, or appends |
| DatabaseModule.Database.FindFile | src/c/sknobs.c:808-833 | the looked-up path, with the iterator run to its end also after a hit |
| DatabaseModule.Database.Drain | src/c/sknobs.c:826-827 | running an iterator out leaves it at the start and moves nothing else |
| SavedTableModule.Hash | src/c/sknobs.c:430-436 | the loop computes the hash with signed shifts and signed characters |
| SavedTableModule.HashExamples | src/c/sknobs.c:430-436 | three hashes and buckets, with a signed shift and a character beyond 127 |
| SavedTableModule.FindAgrees | src/c/sknobs.c:518-529 | what a chain holds for a name is what the map holds, and the chain is the bucket of that name |
| SavedTableModule.InsertKeeps | src/c/sknobs.c:533-539 | inserting in front of the bucket's chain keeps the table a map: entries in their buckets, names unique |
| SavedTableModule.ListingIsTheMap | src/c/sknobs.c:613-619 | walking all chains lists every cached name once, with its value |
| SavedTableModule.SavedTable.Lookup | src/c/sknobs.c:518-529 | looks up exactly the map |
| SavedTableModule.SavedTable.Insert | src/c/sknobs.c:533-539 | adds exactly one key |
| Answers.GetDynamic | src/c/sknobs.c:498-506 | the value of the last match, evaluated, or the default; database and table unchanged |
| Answers.GetValue | src/c/sknobs.c:512-545 | on the running engine, answers and remembers as the run model says |
| EngineModule.Engine.AddKnob | src/c/sknobs.c:131-173 | adding leaves random source and shared buffer alone |
| EngineModule.Engine.SetWord | src/c/sknobs.c:550-564 | sets the signed decimal of the word, through the shared buffer |
| EngineModule.Engine.SetText | src/c/sknobs.c:478-492 | sets a text without touching the shared buffer |
| EngineModule.Engine.SetSeed | src/c/sknobs.c:680-715 | the first call seeds and records the seed; later ones change nothing, the shared buffer included |
| EngineModule.Engine.SetSeedFromString | src/c/sknobs.c:719-732 | the low 32 bits, or failure and no change on a range error |
| EngineModule.Engine.SplitKnob | src/c/sknobs.c:769-776 | the two scans of the parser: up to the first `=`, and everything behind it |
| EngineModule.Engine.AddString | src/c/sknobs.c:738-791 | the parser with its define, undefine and seed cases agrees with its function, failures included |
| EngineModule.Engine.Load | src/c/sknobs.c:859-917 | the argument machine agrees with its function in database, generator and return code |
| EngineModule.Engine.LoadOne | src/c/sknobs.c:868-910 | one turn of it |
| EngineModule.Engine.LoadDashF | src/c/sknobs.c:843-853 | chooses, looks up and loads; the chosen name is used up before anything is loaded |
| EngineModule.Engine.LoadFile | src/c/sknobs.c:957-997 | missing and unclosed files fail, others load their tokens |
| EngineModule.Engine.LoadString | src/c/sknobs.c:923-951 | gathers all tokens with the one cursor before any nested use of it, then loads them, at every depth |
| Paths.WalksMirrorEachOther | src/c/sknobs.c:1203-1219 | the backward walk visits the same directories as the forward walk, in opposite order |
| Paths.WalksAgreeIff | src/c/sknobs.c:1203-1219 | the upward and the downward walk are the same if and only if there is no '/' behind the first character |
| Paths.DocumentedOrderIff | README.md:62-62 | from an absolute working directory the knobsrc directories are read in the documented order, up to and with the root, if and only if it is the root |
| Paths.RootIsLeftOut | src/c/sknobs.c:1203-1219 | in `/a` the root is left out |
| Paths.OrderIsReversed | src/c/sknobs.c:1203-1219 | in `/a/b` the order is reversed besides |
| Paths.SearchPathMirrorsKnobsrc | src/c/sknobs.c:1130-1146 | the search path is a prefix of the reversed knobsrc order, and all of it without a stop file |
| Paths.SearchPathIsAPrefix | src/c/sknobs.c:1132-1146 | the upward walk ends at the first stop file |
| Paths.SearchPathEndsAtStop | src/c/sknobs.c:1136-1141 | it is all of the walk, or its last directory has a `.stopknobs` file and no other one of it does |
| Paths.LoadDirsIsLoadPaths | src/c/sknobs.c:1207-1219 | loading directories is loading all their files in order, up to the first failure |
| Paths.LoadPathsIsOneLoad | src/c/sknobs.c:1018-1025 | loading complete files one after the other is loading all their tokens as one list |
| Paths.SearchPathClimbs | src/c/sknobs.c:1132-1146 | it starts at the working directory and each entry is the parent of the one before |
| Paths.NearestAncestor | src/c/sknobs.c:808-833 | whatever else is loaded, a file is found in the nearest listed ancestor that has it, as long as no other knob matches the search-path name |
| Startup.InitSearchPath | src/c/sknobs.c:1130-1146 | the strrchr loop on the shared buffer adds exactly these directories |
| Startup.LoadKnobsrc | src/c/sknobs.c:1203-1219 | the strchr loop loads the directories from the root down; the path in the shared buffer survives every load because the seed is fixed |
| Startup.LoadCutAt | src/c/sknobs.c:1208-1213 | one directory: cut, load, put back, the buffer as before |
| Startup.LoadKnobsrcFiles | src/c/sknobs.c:1012-1028 | the files of one directory in order, up to the first failure |

## Left out

- Real I/O and process state: files are a map, existence is membership in it (a directory, or a file that exists but cannot be opened, is not told apart), `glob` is a function.
- The rest of `sknobs_init`: debug and delimiter settings, choosing the seed from environment, command line or `/dev/urandom`, `~/.knobsrc`, the environment as knobs, the SKNOBS variable and the command line itself. Each is one call of a modelled operation on outside text.
- The implicit call of `sknobs_init` at the head of every operation: the engine is taken as initialised.
- The quality of `random()`, and the reseeding of the other C generators at `src/c/sknobs.c:709-713`.
- `regcomp`, `regexec` and bracket expressions of `fnmatch`: arbitrary predicates. A lone `+` as a pattern, which the code matches with an uninitialised expression, gets an arbitrary answer like any other expression.
- Aliasing of comments: nested loads may overwrite the static file name that a comment points to before it is copied. Comments are passed by value and only the printer reads them: the list keeps the one it is given, and the engine's contracts do not say which ones it gives.
- `malloc` failure, freeing, `sknobs_close`, truncation of file names beyond their buffers.
- A NULL directory in a search-path knob is printed as `(null)`, as glibc does; C leaves it undefined.
- `sknobs_dump`, `sknobs_print`, debug output, `sknobs_expand_string` (unused), `sknobs_get_filename` and the iterator getters: they add nothing to what is proved of the parts they call.
- The language bindings.
- Replay.ReplayRestores: stated for the default delimiters; with carriage return and newline as delimiters the blanked comment lines themselves become tokens. Fields are free of delimiters and comment openers, patterns free of `=` and of the define prefixes.
- SeedKnob.SeedRestoredIff: stated for a database with one knob named `seed`; `SeedKnob.FirstSeedIsRestored` covers all others.
- Inclusion.LoadIsSplicing: stated for a fixed seed; before that a seed argument among the knobs is not a matter of appending.
- Session.SaveAndRestart: under the conditions of Replay.ReplayRestores, and for cached names that are plain words; the saved text is handed over as a file of the second session's world, writing it to disk is not modelled.
