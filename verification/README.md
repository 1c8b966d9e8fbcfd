# No_Gada: verified model

No_Gada answers three questions about a ProFrame code base. Which tables does a service, biz or batch module reach
through its calls? Which modules reach a DBIO? Which DELETE and INSERT statements move a slice of those tables from one
database to another? This project models the code that answers them and proves what the answers mean.

| file | what it models |
|---|---|
| `Texts.dfy` | strings and lists as the Python sources use them |
| `ProFrame.dfy` | module kinds, references, failures |
| `Extraction.dfy`, `ExtractionExample.dfy` | the recursive extraction with its shared `visited` set; exact reachability, and an input on which it fails |
| `BatchExtraction.dfy`, `ExtractionAnswer.dfy` | one-entry and many-entry extraction, partial success, and what the results answer |
| `CommentStripper.dfy` | the C comment state machine and a grammar of C text it is proved against |
| `ReferenceScanner.dfy` | from source text to references in text order |
| `DbLinkStripper.dfy`, `DbLinkSegments.dfy`, `SqlPieces.dfy` | the SQL state machine that takes out `@link`, what a second pass does, and a grammar of SQL text it is proved against |
| `ModuleSource.dfy`, `ModuleLookup.dfy`, `LookupAnswer.dfy`, `GroupMapFile.dfy` | module paths, lookup with and without the group map, what they answer, the map's file |
| `KeyConditions.dfy`, `MigrationScript.dfy`, `ScriptLayout.dfy` | conditions, statements and scripts, and readers for their text that accept nothing else |
| `MigrationSql.dfy` | blocks, notes and groups of a migration |
| `MigrationReading.dfy`, `MigrationExamples.dfy` | when the generated text reads back as the intended statements, and requests for which it does not |
| `ScriptMeaning.dfy`, `ScriptGroups.dfy` | a database semantics for those statements; full script and group scripts |
| `KeyMeaning.dfy`, `PkDictionary.dfy`, `MigrationAnswer.dfy` | what the entered keys ask for, the primary-key dictionary, and what a whole migration request does to rows and writes as text |
| `Callers.dfy`, `CallerTree.dfy`, `SearchTotals.dfy` | who calls a module, the caller tree on screen, and its totals when a new search begins |
| `Duality.dfy`, `DualityWitness.dfy` | extraction and caller tree agree on one file tree, and a tree that meets the hypotheses |
| `SourcePopup.dfy` | the source popup with late replies and its cache |

Code that updates things step by step is written as methods and classes, each proved equal to a specification function;
the properties are lemmas about those functions. Each operation also has a lemma, or an `ensures` of its method, that says
what it answers without naming those functions (most names end in `Exactly` or `Answer`). The remote tree, the grep, the
dictionary and the four regular expressions are parameters. `dafny verify dfyconfig.toml` checks the whole project.

Seven properties hold only under a condition. For each the exact condition is proved, and an input that fails is given:

- The extraction reports exactly what is reached. An ID under two kinds can hide a DBIO
  (`ExtractionExample.ClashingKindsExample`). Two conditions speak of the references alone and can be checked before a run:
  no reached ID under two kinds, which is exact for what is met (`Extraction.ExactReachability`), and no such clash with a
  reference that has something to report, which is enough for the report (`Extraction.HarmlessClashes`).
  `Extraction.ReportIsExactPrecisely` is exact for the report; its condition speaks of the order in which the run met the
  references.
- A second pass of `strip_db_links` changes nothing: `DbLinkStripper.SecondPassExactly`, `DbLinkStripper.UncleanJoinExample`.
- The migration script says what it was generated to say: `MigrationReading.ScriptReads`. Links and table names are pasted
  into the text unchecked, so a link with a blank in it, or a table name with a line break, changes the statements
  (`MigrationExamples.LooseLinkExample`, `MigrationExamples.LooseNameExample`). Key values never do.
- The script does what it is for: `ScriptMeaning.IntendedExactly`, exactly when the links differ, letter case aside, or
  there is nothing to lose. With two empty links, or two spellings of one link, the slice is deleted and not refilled
  (`MigrationExamples.EmptyLinksExample`, `MigrationExamples.TwoSpellingsExample`).
- A freshly built group map agrees with the search: `ModuleLookup.FreshMapAgreesExactly`. The builder drops ".c" from the
  names of service directories, so it takes the directory "X.c" for service "X"
  (`ModuleLookup.DottedServiceExample`).
- A new search counts only its own replies: `SearchTotals.NewSearchIsCleanExactly`, exactly when no request is under way as
  it begins (`SearchTotals.OldReplyExample`).
- A new extraction empties the source cache for good: `SourcePopup.ClearingIsFinalExactly`. A request under way is cached
  after the clearing (`SourcePopup.ClearedTooEarlyExample`), although the comment at
  `app/static/tools/data_migration/data_migration.js:650` says that a new extraction empties it.

## Model

| member | source | states |
|---|---|---|
| Extraction.Extractor.ExtractFromModule | app/tools/data_migration/service.py:141-251 | the run fails exactly when the entry's own lookup fails at top level; otherwise result, `visited` and lookups are those of the depth-first order of references met for the first time, and every list but the DBIOs is ascending without repeats; the recursion ends |
| Extraction.Extractor.FollowAll | app/tools/data_migration/service.py:206-246 | the reference loop adds up exactly what the references met under it contribute |
| Extraction.Extractor.Meet | app/tools/data_migration/service.py:217-240 | excluded, batch, DBIO and module references each contribute and visit what they should |
| Extraction.MetIsReached | app/tools/data_migration/service.py:206-240 | everything the search meets is reached from the entry by a walk of followed references |
| Extraction.MetIsClosed | app/tools/data_migration/service.py:206-240 | when the search returns, every reference of everything it met is visited |
| Extraction.EarlierReferencesFirst | app/tools/data_migration/service.py:206-240 | earlier references are followed first, with everything they lead to, and later ones meet what is left |
| Extraction.ExactReachability | app/tools/data_migration/service.py:154-240 | the search meets exactly the reached references if and only if no ID is reached under two kinds |
| Extraction.LoopsAddNothing | app/tools/data_migration/service.py:206-240 | walks that pass through the entry again reach nothing more |
| Extraction.ReportIsExact | app/tools/data_migration/service.py:170-251 | dbios, tables, services, bizs and batches of the report are exactly the reached ones that are readable and not excluded, the entry exempt from exclusion |
| Extraction.ReportIsExactPrecisely | app/tools/data_migration/service.py:170-251 | the report is exact if and only if no reached reference with something to report finds its ID taken by one met before it under another kind |
| Extraction.HarmlessClashes | app/tools/data_migration/service.py:213-220 | ID clashes among excluded and unreadable references do the report no harm |
| ExtractionExample.ClashingKindsExample | app/tools/data_migration/service.py:213-215 | a service that calls biz A and selects from DBIO A: the DBIO is reached and not reported |
| Extraction.DbiosInFirstEncounterOrder | app/tools/data_migration/service.py:229-243 | dbios are listed once each, in the order the search met them |
| ExtractionAnswer.DbiosInMetOrder | app/tools/data_migration/service.py:229-251 | so they stand in the result |
| Extraction.LookupsAreDistinct | app/tools/data_migration/service.py:206-240 | the entry's source is looked up first, every source at most once, excluded, batch and DBIO references never |
| BatchExtraction.Extract | app/tools/data_migration/service.py:47-66 | one entry: DBIOs directly, modules through the extraction, excluded tables filtered out at the end |
| ExtractionAnswer.ModuleAnswer | app/tools/data_migration/service.py:47-66 | a service, biz or batch entry: its tables are those of the DBIOs it lists, less the excluded ones; all lists are without repeats and, but for the DBIOs, ascending; and they hold exactly what is reached, readable and not excluded if and only if no reference with something to report finds its ID taken |
| ExtractionAnswer.DbioAnswer | app/tools/data_migration/service.py:47-66 | a DBIO entry lists itself and its tables less the excluded ones, and nothing else; it fails exactly when its SQL cannot be had |
| BatchExtraction.Clean | app/tools/data_migration/service.py:87-94 | an ID is kept exactly when some input is it but for white space around it, once, where it was first given, and blanks are not kept |
| BatchExtraction.ExtractBatch | app/tools/data_migration/service.py:69-127 | on the IDs as given: each one is once among the succeeded or the failed ones, in the order first given, a failed one with its own error; the lists hold exactly what the successful single results list, ascending but for the DBIOs, without repeats |
| BatchExtraction.SucceededAndFailedInterleave | app/tools/data_migration/service.py:105-113 | succeeded and failed are two complementary order-keeping filters of the cleaned IDs, each failure with its own error |
| BatchExtraction.BatchIsUnion | app/tools/data_migration/service.py:96-127 | every list is the union of the successful single results, dbios without repeats |
| BatchExtraction.DbiosInFirstOccurrenceOrder | app/tools/data_migration/service.py:115-118 | dbios stand where they first occur in the successful results |
| BatchExtraction.OrderIsIrrelevant | app/tools/data_migration/service.py:69-127 | inputs that give the same IDs, whatever their order, repeats and padding, get the same sets |
| BatchExtraction.BatchReachability | app/tools/data_migration/service.py:76-127 | a table is listed exactly when it is not excluded and a readable DBIO using it is reached from some successful entry |
| CommentStripper.StripComments | app/common/parse/c_source.py:4-67 | the loop computes the specified text and count |
| CommentStripper.SecondPassKeepsAll | app/common/parse/c_source.py:21-67 | a second pass keeps the text and removes no comment |
| CommentStripper.SlashIsNotRejoined | app/common/parse/c_source.py:24-42 | a slash kept in code is followed in the output by neither a slash nor a star, whatever is removed behind it |
| CommentStripper.LinesAreKept | app/common/parse/c_source.py:55-63 | the output is a subsequence of the input, keeps every line break, and every surviving character keeps its line number |
| CommentStripper.StripsExactlyTheComments | app/common/parse/c_source.py:5-16 | for a text read as literals, comments and code, literals and code stay verbatim, comments leave their line breaks, and the count is the number of comments |
| CommentStripper.EveryTextReads | app/common/parse/c_source.py:21-67 | every text has such a reading |
| ReferenceScanner.ScanModuleRefs | app/common/proframe/refs.py:42-80 | strip, collect, stable sort, keep first: the references of the specification |
| ReferenceScanner.CommentsDoNotMatter | app/common/proframe/refs.py:50-80 | a text and its comment-free form give the same references |
| ReferenceScanner.SortIsStable | app/common/proframe/refs.py:65-69 | the sort keeps every match, orders by position, and leaves ties in pattern order |
| ReferenceScanner.RefsAreTheHits | app/common/proframe/refs.py:58-80 | a reference is reported exactly when the pattern of its own kind, DBIO, biz, service or batch, finds its ID outside comments |
| ReferenceScanner.RefsInHitOrder | app/common/proframe/refs.py:65-80 | references come once each, ordered by where their patterns first find them; at one place DBIO, biz, service, batch |
| DbLinkStripper.StripDbLinks | app/common/parse/sql.py:33-100 | the loop computes the specified text and links |
| SqlPieces.LinkGoesWhole | app/common/parse/sql.py:64-76 | an '@' in plain SQL takes the blanks and tabs before it, the white space behind it and the whole link name with it; the name is noted if there is one |
| SqlPieces.StripsExactlyTheLinks | app/common/parse/sql.py:33-100 | for a text read as plain characters, strings, quoted identifiers, comments and links, all but the links stay verbatim, and the link names come out in order |
| SqlPieces.EverySqlReads | app/common/parse/sql.py:48-98 | every text has such a reading |
| DbLinkStripper.CellsFollowText | app/common/parse/sql.py:48-98 | the pass on text marked with the segment of each character puts out the same text |
| DbLinkStripper.ProtectedTextIsCopied | app/common/parse/sql.py:40-41 | the characters of strings, quoted identifiers and comments are all in the output, in order |
| DbLinkSegments.PassThins | app/common/parse/sql.py:48-98 | the output is the source with some plain characters left out, nothing put in and nothing moved |
| DbLinkSegments.SegmentsStayWhole | app/common/parse/sql.py:40-41 | every string, quoted identifier and comment is one contiguous stretch of the output, verbatim, and what stands before and behind it comes from before and behind it |
| DbLinkStripper.TrimmingKeepsProtected | app/common/parse/sql.py:65-67 | popping blanks never reaches into a protected segment |
| DbLinkStripper.UnchangedExactly | app/common/parse/sql.py:64-76 | text is returned unchanged with no link exactly when no '@' stands in plain SQL |
| DbLinkStripper.SecondPassExactly | app/common/parse/sql.py:43-100 | a second pass is the identity exactly when every protected '@' of the source comes where what is put out reads as protected, told from the source with two reading states |
| DbLinkStripper.SecondPassIsIdentity | app/common/parse/sql.py:43-100 | it is the identity when no removed link joins two dashes or a slash and a star |
| DbLinkStripper.UncleanJoinExample | app/common/parse/sql.py:64-76 | a text on which the second pass removes an '@' that was inside a string |
| ModuleSource.ParseUndoesPath | app/common/proframe/module_source.py:18-55 | parsing a module path gives back kind, group and ID exactly for groups and IDs a path can carry |
| LookupAnswer.PathsSpelledOut | app/common/proframe/module_source.py:28-37 | where a service, a batch and a biz lie in a group |
| LookupAnswer.SuchPathsParse | app/common/proframe/module_source.py:21-55 | every path of that form is parsed, whatever stands between the sub-directory and the last segment |
| LookupAnswer.OnlySuchPathsParse | app/common/proframe/module_source.py:21-55 | and no other path is |
| ModuleLookup.ReadModuleSource | app/common/proframe/module_source.py:58-96 | the loop computes the specified lookup, access errors ending it |
| LookupAnswer.LookupExactly | app/common/proframe/module_source.py:77-99 | a known group is the only one tried; otherwise the mapped group answers unless its file is missing, and then the first listed group whose file is not just missing |
| ModuleLookup.AnyMapIsSafe | app/common/proframe/module_source.py:77-96 | no group map can change a lookup exactly when no group holds anything but what the search finds |
| ModuleLookup.UniqueModuleIsSafe | app/common/proframe/module_source.py:77-96 | that is so when one listed group at most holds the module |
| ModuleLookup.BuildGroupMap | app/common/proframe/module_source.py:102-125 | the two loops build the specified map, or fail with the first directory that cannot be listed |
| LookupAnswer.FreshMapWorksExactly | app/common/proframe/module_source.py:112-119 | building works exactly when the groups can be listed and no service or biz directory is there but cannot be listed; its failure is one of theirs |
| LookupAnswer.FreshMapExactly | app/common/proframe/module_source.py:112-125 | the map has exactly the services and bizs that some directory entry stands for, each with the first such group in listing order |
| ModuleLookup.GroupsAdded | app/common/proframe/module_source.py:108-125 | the map names, for each ID, the first group that lists it |
| ModuleLookup.FreshMapAgrees | app/common/proframe/module_source.py:58-125 | for every biz ID that is not empty, and every service ID that does not end in ".c", lookup with the freshly built map equals the search, duplicates and missing files included, as long as readable files are listed |
| ModuleLookup.FreshMapAgreesExactly | app/common/proframe/module_source.py:58-125 | for every service and biz ID they are equal exactly when the mapped group does not hold the module or no group before it holds something else |
| ModuleLookup.DottedServiceExample | app/common/proframe/module_source.py:108-124 | service "X.c" in two groups, the second of which also has a directory "X.c.c": the search finds the first, the freshly built map leads to the second |
| GroupMapFile.LoadGroupMap | app/common/proframe/module_source.py:128-151 | the loop puts in every line's entry, later lines winning |
| GroupMapFile.LoadExactly | app/common/proframe/module_source.py:139-151 | the last line that carries an entry for a key decides, an entry being three tab-separated parts of what stands before the first '#', trimmed |
| GroupMapFile.WriteGroupMap | app/common/proframe/module_source.py:154-174 | header and entries in sorted key order |
| GroupMapFile.WrittenExactly | app/common/proframe/module_source.py:162-174 | the header and one line for every key, by ID and then by module type |
| GroupMapFile.RoundTripExactly | app/common/proframe/module_source.py:128-174 | loading what was written gives the map back exactly when every ID, group and type can be stored on a line |
| KeyConditions.ConditionIsText | app/tools/data_migration/migrate.py:66-86 | the condition text is the text of the equality, IN or BETWEEN that was entered, or none when nothing was |
| KeyMeaning.PiecesExactly | app/tools/data_migration/migrate.py:77-80 | the values of an input with commas are what stands between its commas and ends, trimmed, blanks left out |
| KeyMeaning.ConditionMeans | app/tools/data_migration/migrate.py:66-86 | there is a condition exactly when something was entered, and it selects exactly the rows with a value asked for: from start to end, one of the pieces, or the value itself |
| KeyMeaning.ConditionLists | app/tools/data_migration/migrate.py:66-86 | it lists the values in the order entered, repeats included: BETWEEN for a range, an equality for one value, IN for several |
| KeyMeaning.PiecesInOrder | app/tools/data_migration/migrate.py:77-80 | each part between commas gives itself trimmed, a blank one nothing, one after the other |
| KeyMeaning.SliceExactly | app/tools/data_migration/migrate.py:124-137 | a row is selected exactly when every PK column with input has a value asked for |
| KeyMeaning.ConditionsInColumnOrder | app/tools/data_migration/migrate.py:124-137 | the conditions stand on the PK columns with input, in column order; the columns set aside are the others |
| KeyConditions.BodyReads | app/tools/data_migration/migrate.py:61-63 | a quoted value reads back to itself and ends at its own quote, whatever it holds |
| KeyConditions.CondReads | app/tools/data_migration/migrate.py:66-86 | a condition's text reads back as that condition |
| KeyConditions.WhereReads | app/tools/data_migration/migrate.py:145-148 | a WHERE clause reads back as exactly its conditions |
| KeyConditions.OnlyWheresRead | app/tools/data_migration/migrate.py:61-86 | only the text of a WHERE clause on identifier-like names reads as one |
| KeyConditions.ConditionsAreSound | app/tools/data_migration/migrate.py:128-137 | conditions made from name columns are readable, each on one of the columns |
| MigrationScript.StmtReads | app/tools/data_migration/migrate.py:151-155 | a script that begins with a statement's text reads as that statement and the rest |
| MigrationScript.OnlyStmtsRead | app/tools/data_migration/migrate.py:151-155 | only the text of a statement on identifier-like names and links, with a condition, reads as a statement |
| MigrationScript.LinkNameExactly | app/tools/data_migration/migrate.py:89-92 | of an entered link the white space around it goes, and then the '@'s in front |
| ScriptLayout.Layout | app/tools/data_migration/migrate.py:144-176 | a script that reads is its statements' texts with line breaks and comments between them |
| ScriptLayout.SameGaps | app/tools/data_migration/migrate.py:144-176 | statements written on lines of their own can be read off a script in one way only, whatever stands between them |
| ScriptLayout.WovenReadsExactly | app/tools/data_migration/migrate.py:144-176 | such a script reads as its statements exactly when they are on names and all between them is line breaks and comments |
| MigrationSql.SortColumns | app/tools/data_migration/migrate.py:128-137 | columns with input give the conditions, the others are set aside, in column order |
| MigrationSql.BuildBlock | app/tools/data_migration/migrate.py:144-155 | heading, DELETE and INSERT with one WHERE clause |
| MigrationSql.CollectGroups | app/tools/data_migration/migrate.py:178-186 | the non-empty suffix groups in display order |
| MigrationSql.BuildMigrationSql | app/tools/data_migration/migrate.py:95-194 | classification, script and groups are those specified |
| MigrationReading.EveryOccurrenceIsClassified | app/tools/data_migration/migrate.py:121-142 | every table occurrence lands in exactly one of generated, skipped and no_pk |
| KeyMeaning.ClassesExactly | app/tools/data_migration/migrate.py:112-142 | generated are the tables with input for some PK column, skipped those with PK columns and no input, no_pk those without PK columns, each in input order |
| MigrationReading.NoUnconditionalStatement | app/tools/data_migration/migrate.py:139-155 | every statement has a condition, each one the input of one of its own table's PK columns |
| MigrationReading.BlockReads | app/tools/data_migration/migrate.py:149-155 | a block reads as its DELETE and INSERT exactly when the table, the columns of its conditions and the links are names and its heading is a comment |
| MigrationReading.ScriptReads | app/tools/data_migration/migrate.py:95-194 | for every request: the script reads as the statements of the generated tables, in order and nothing else, exactly when those are readable and no left-out table name breaks out of its note |
| MigrationReading.GroupScriptsRead | app/tools/data_migration/migrate.py:178-186 | each group's script reads as the statements of that group's tables exactly when those are readable |
| MigrationReading.NoUnconditionalText | app/tools/data_migration/migrate.py:139-155 | whatever a readable request's script reads as is restricted by its own table's PK columns |
| MigrationReading.OrdinaryRequestsAreReadable | app/tools/data_migration/migrate.py:104-107 | one-line table names, names for what is generated, and no links or named ones are enough |
| MigrationAnswer.BlockBegins | app/tools/data_migration/migrate.py:148-152 | a block begins with a comment that names the table and its PK columns without input |
| MigrationAnswer.TextsFollowEachOther | app/tools/data_migration/migrate.py:174-176 | the text for more tables is the texts one after the other, a blank line between them |
| MigrationAnswer.NotesComeFirst | app/tools/data_migration/migrate.py:164-176 | tables without a key and tables without input are named in a comment line each, in front of the blocks |
| MigrationAnswer.NoteTexts | app/tools/data_migration/migrate.py:165-169 | the wording of those lines |
| MigrationAnswer.GroupTextIsItsOwn | app/tools/data_migration/migrate.py:178-186 | a group's text is what a request for its tables alone gets |
| MigrationExamples.LooseLinkExample | app/tools/data_migration/migrate.py:89-92 | with the TO link `L WHERE 1=1; --` the script does not read as it was meant |
| MigrationExamples.LooseNameExample | app/tools/data_migration/migrate.py:165-169 | an unknown table's name with a line break puts a DELETE into a script that generates nothing |
| MigrationExamples.EmptyLinksExample | app/tools/data_migration/migrate.py:150-155 | with both links empty the row asked for is lost |
| MigrationExamples.TwoSpellingsExample | app/tools/data_migration/migrate.py:150-155 | with the links `dl_a` and `DL_A`, one link to Oracle, the row asked for is lost |
| ScriptMeaning.BlockMeaning | app/tools/data_migration/migrate.py:150-155 | a block leaves the target, found whatever the letter case of its name and link, its rows outside the slice plus, when the links are not one link, the source's inside; nothing else changes |
| ScriptMeaning.StmtsMeaning | app/tools/data_migration/migrate.py:112-176 | for any table list, repeats and different spellings included: behind the TO link a table keeps the rows none of its spellings selects and gets each spelling's rows that no later one selects; nothing else changes |
| ScriptMeaning.RefreshedOnce | app/tools/data_migration/migrate.py:112-176 | spellings of a table that are restricted alike refresh it once |
| ScriptMeaning.RerunChangesNothing | app/tools/data_migration/migrate.py:112-176 | running the statements again changes nothing |
| ScriptMeaning.IntendedExactly | app/tools/data_migration/migrate.py:112-176 | the script does what it is for exactly when the links differ, letter case aside, or no listed table has a row in its slice to lose |
| ScriptMeaning.KeysStayUnique | app/tools/data_migration/migrate.py:150-155 | unique primary keys on both sides stay unique, so no INSERT meets a row with its key |
| ScriptGroups.GroupIsFilter | app/tools/data_migration/migrate.py:159-186 | each group is the non-empty, order-keeping selection of the generated tables with its key |
| ScriptGroups.GroupsInDisplayOrder | app/tools/data_migration/migrate.py:178-186 | the groups stand in display order, one for each key that occurs |
| ScriptGroups.GroupKeyIsSuffix | app/tools/data_migration/migrate.py:52-58 | a table has a suffix's key exactly when its upper-cased name ends with it |
| ScriptGroups.GroupsArePermutation | app/tools/data_migration/migrate.py:159-186 | together the groups are a permutation of the generated tables |
| ScriptGroups.SpellingsKeepOrder | app/tools/data_migration/migrate.py:159-186 | grouping keeps the spellings of a table together, in the order in which they were listed |
| ScriptGroups.RegroupingKeepsMeaning | app/tools/data_migration/migrate.py:159-186 | running the groups in display order has the effect of the full script, whatever tables are listed |
| ScriptGroups.TextMeaning | app/tools/data_migration/migrate.py:164-176 | a readable request's text, read and run, leaves every place what the generated tables keep and copy there |
| ScriptGroups.TextRefreshes | app/tools/data_migration/migrate.py:104-176 | with upper-case table names, as requests are normalised, it refreshes each generated table behind the TO link and changes nothing else |
| MigrationAnswer.ScriptMovesTheSlice | app/tools/data_migration/migrate.py:95-194 | in terms of the entered keys: the target keeps the rows that they do not ask for, in their order, and gets behind them the source's rows that they ask for |
| MigrationAnswer.NothingElseMoves | app/tools/data_migration/migrate.py:95-194 | places behind other links, and tables without input, stay as they are |
| ScriptGroups.GroupTextsMeaning | app/tools/data_migration/migrate.py:178-186 | the group texts, read and run in display order, do what the full text does |
| PkDictionary.FetchPkColumns | app/common/proframe/db_schema.py:21-48 | exactly the requested non-blank names, each with the dictionary's own columns in row order; a failing query fails the call unless there is nothing to ask |
| PkDictionary.NormalisedSnoc | app/tools/data_migration/service.py:267 | the names asked for are the entered ones, trimmed and in upper case, blanks dropped, in order |
| PkDictionary.FetchedExactly | app/common/proframe/db_schema.py:21-48 | it fails only when a name is asked for and the query fails; otherwise it has exactly the names asked for, each with the key columns of the dictionary rows of that very name, in row order |
| PkDictionary.ColumnsAreKeyColumns | app/common/proframe/db_schema.py:41-46 | normalising the returned rows again neither moves nor drops one |
| PkDictionary.MigrateSql | app/tools/data_migration/service.py:254-270 | names normalised, keys looked up, script generated from them |
| MigrationAnswer.RequestMovesTheSlice | app/tools/data_migration/service.py:254-270 | a request end to end, in terms of its links, names, keys and the dictionary: behind the TO link a table keeps the rows not asked for and gets the rows asked for from behind the FROM link |
| PkDictionary.NoPkExactly | app/tools/data_migration/service.py:267-270 | no_pk holds exactly the requested tables without dictionary rows, in input order |
| PkDictionary.NothingIsUnrestricted | app/tools/data_migration/service.py:267-270 | every generated statement is restricted, by columns of its own table's dictionary key only |
| PkDictionary.NothingReadIsUnrestricted | app/tools/data_migration/service.py:267-270 | nor is anything that a readable request's script says |
| Callers.CollectHits | app/tools/impact_analysis/service.py:93-98 | candidates of the given groups one after the other, of the whole tree when none is given |
| Callers.HitsExactly | app/tools/impact_analysis/service.py:93-98 | a candidate is what grep finds under one of the groups given, under the whole tree when none is; the first failing grep decides |
| Callers.FindCallers | app/tools/impact_analysis/service.py:68-131 | the loop computes the specified callers, skipping files that are gone and failing on files that cannot be read |
| Callers.CallersAreConfirmed | app/tools/impact_analysis/service.py:101-126 | exactly the modules with a candidate source that refers to the target, ascending, once each; success exactly when grep and all candidate reads work |
| Callers.FailureExactly | app/tools/impact_analysis/service.py:93-112 | a failing search reports grep's failure, or that of the first candidate source that cannot be read |
| CallerTree.TreeIsSimpleChains | app/static/tools/impact_analysis/impact_analysis.js:453-516 | opening everything brings up exactly the caller chains without repeats |
| CallerTree.EveryCallerIsNamed | app/static/tools/impact_analysis/impact_analysis.js:527-558 | hiding ancestors loses no caller: whatever reaches the root is named under some item, and nothing else |
| CallerTree.EveryBizIsShown | app/static/tools/impact_analysis/impact_analysis.js:527-558 | every biz other than the root that reaches it has an item of its own |
| CallerTree.Screen.constructor | app/static/tools/impact_analysis/impact_analysis.js:595-621 | the roots are shown, nothing is loaded |
| CallerTree.Screen.VisibleItems | app/static/tools/impact_analysis/impact_analysis.js:527-558 | an item for every caller that is not in the chain |
| CallerTree.Screen.LoadCallers | app/static/tools/impact_analysis/impact_analysis.js:564-593 | a reply, first or repeated, draws the item anew with its visible callers and counts all of them; a failure leaves it to be opened again |
| CallerTree.Screen.CountLateReply | app/static/tools/impact_analysis/impact_analysis.js:564-593 | a reply for an item that was drawn anew meanwhile is only counted |
| CallerTree.Screen.OpenEverything | app/static/tools/impact_analysis/impact_analysis.js:507-516 | opening in any order ends, and then the totals hold exactly the modules that reach a root |
| CallerTree.Screen.TotalsWhenAllLoaded | app/static/tools/impact_analysis/impact_analysis.js:564-593 | after any replies to requests of this search, failed, repeated and late ones included: once all on screen is loaded the totals hold exactly the modules that reach a root |
| SearchTotals.NewSearchIsCleanExactly | app/static/tools/impact_analysis/impact_analysis.js:586-629 | whatever happens after a new search begins, only replies to its own requests are counted, exactly when no request is under way as it begins |
| SearchTotals.OldReplyExample | app/static/tools/impact_analysis/impact_analysis.js:586-629 | ask, search anew, reply: the new totals hold the old search's callers |
| Duality.AnswersAreEdges | app/tools/impact_analysis/service.py:91-126 | in an orderly tree the caller answers name exactly the modules that refer to what was asked about |
| Duality.ChildrenAreEdges | app/tools/data_migration/service.py:206-240 | the extraction follows exactly the references of a biz's one source, whatever the group map says |
| Duality.ForwardIsBackward | app/tools/impact_analysis/service.py:3-9 | the extraction of a module lists a DBIO exactly when the module is named under some item of the DBIO's fully opened caller tree |
| Duality.TableSearchIsBackward | app/tools/impact_analysis/service.py:3-9 | a table is in a module's extraction exactly when the module is in the totals of the table's search, everything opened |
| Duality.SearchTable | app/static/tools/impact_analysis/impact_analysis.js:645-660 | opening everything under a table's DBIOs ends with totals that name, for every source file, its module exactly when the table is in its extraction |
| Duality.OthersHaveNoCallers | app/tools/impact_analysis/service.py:91-126 | asking about a DBIO or biz that no file mentions finds no callers |
| DualityWitness.DualityIsNotVacuous | app/tools/impact_analysis/service.py:3-9 | a tree with one biz whose source selects from one DBIO meets every hypothesis of the duality |
| SourcePopup.SourceModal.RenderContent | app/static/tools/data_migration/data_migration.js:679-692 | content is shown, and an empty one as a status |
| SourcePopup.SourceModal.Open | app/static/tools/data_migration/data_migration.js:694-712 | a cached module is shown and outdates earlier requests; another one starts a request under a new number |
| SourcePopup.SourceModal.Receive | app/static/tools/data_migration/data_migration.js:713-735 | a late reply is dropped; the current one is shown, and cached if it succeeded |
| SourcePopup.SourceModal.ClearCache | app/static/tools/data_migration/data_migration.js:1332 | empties the cache and nothing else |
| SourcePopup.EveryRunIsSafe | app/static/tools/data_migration/data_migration.js:651-736 | in every interleaving the content shown, the cache and the copy text belong together |
| SourcePopup.ContentBelongsToTitle | app/static/tools/data_migration/data_migration.js:694-731 | content under a module's title was sent for that module, and so was its cache entry |
| SourcePopup.LatestOpeningIsServed | app/static/tools/data_migration/data_migration.js:708-731 | whatever else happens meanwhile, the latest opening's reply is shown and cached |
| SourcePopup.LatestFailureIsShown | app/static/tools/data_migration/data_migration.js:708-734 | while it waits the popup says so; a failing reply is shown with its reason and caches nothing |
| SourcePopup.CachedOpeningIsShown | app/static/tools/data_migration/data_migration.js:694-704 | a cached module is shown at once, without a request, and stays until another one is opened, whatever replies arrive |
| SourcePopup.ClearingIsFinalExactly | app/static/tools/data_migration/data_migration.js:1332 | clearing rids the cache of earlier requests for good exactly when the latest opening is not still waiting |
| SourcePopup.ClearedTooEarlyExample | app/static/tools/data_migration/data_migration.js:1332 | open, clear, reply: the module asked for before the clearing is in the cache after it |

## Left out

- Regular expressions: the four call patterns are functions from comment-free text to matches; only `parse_module_path`'s pattern is modelled itself.
- SQL parsing, DBIO XML and `find_dbios`: a DBIO is a partial function from its ID to a set of tables.
- SFTP, SSH and database sessions, encodings, environment variables, logging, routing and status mapping; a lookup succeeds, is not found, or fails otherwise.
- `str.upper()` outside ASCII, and database collations: BETWEEN compares by code point.
- Two links that lead to the same database under different names: links are compared by their upper-case names. Whether one name leads to the same database from both sides is not modelled.
- Oracle's reserved words, which cannot be names although they are spelled like names.
- NULL key values, numeric and date columns: a row maps columns to strings, a missing column never matches.
- Empty files written by other programs and text-mode conversion of line ends on writing: the group map file is a string.
- The header text of the group map file: any comment or blank lines are allowed in its place.
- ModuleLookup.FreshMapAgrees: leaves out service IDs that end in ".c", since the builder drops that suffix from directory names; ModuleLookup.FreshMapAgreesExactly covers them.
- Callers.FindCallers: grep is a function of word and directory; that it covers the referring sources is a hypothesis of `Duality.Covered`.
- Duality.ForwardIsBackward: stated for trees with one canonical, readable source per module in a listed group, trimmed single-kind IDs, no reference to a service, a grep that covers the referring sources, and an extractable DBIO.
- CallerTree.Screen.LoadCallers: the tree of sources does not change while the screen is open. Late replies for items drawn anew are CallerTree.Screen.CountLateReply's, replies to an earlier search are in SearchTotals. The drawing of items is not modelled.
- CallerTree.Screen.OpenEverything: every request it makes is answered; runs with failures are covered by CallerTree.Screen.TotalsWhenAllLoaded.
- Statements other than the DELETE and INSERT forms that are generated, and quoted Oracle names: the reader rejects them, so a request that needs quoted names does not count as readable.
- The other front-end tools, sanitising and formatting of SQL, exclusion-file editing: easy or parameter-like.
