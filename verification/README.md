# AstraBox: a verified model of its self-contained algorithms

This project models, in Dafny, the parts of AstraBox whose correctness spans whole runs, and proves what they are for:

- **The command line's convergence engine** (`astrabox/cli/resources.py`, `document.py`, `scaffold.py`). Values are a JSON
  datatype, compared as Python compares them (`True == 1`), which `Json.EqualIsSame` says by kind. A deployment is a class holding two collections and a count of
  the writes it has received. `RequestBody.dfy` proves the get/put laws of placing fields at schema paths, and that they
  hold exactly for well-placed keys. `Convergence.dfy` proves that applying converges, `Applied.dfy` what a deployment then
  holds and what each report says of it, `ConvergenceLimits.dfy` where that
  stops, `Prediction.dfy` for exactly which documents a dry run predicts applying, and `Scaffold.dfy` that an export is a
  fixpoint of applying it.
- **The crash-resumable password rotation** (`scripts/rotate_local_database_secrets.py`) together with the generate-once
  writer that shares its lock (`astrabox/deploy/secret_files.py`), as a transition system over any finite set of names in
  which a run may stop between any two steps. `RotationHost.dfy` holds the procedures themselves, each proved to be a run
  of that system.
- **The shell and JavaScript comment lexers** (`scripts/check_comment_style.py`), the grouping of comment lines into units,
  and the location of a violation inside a unit. Each lexer is a function of its fields, and a class whose methods update
  those fields and do what the function says. `ShellProofs.dfy` proves plain quotes opaque, `Heredocs.dfy` whole here-documents,
  and for exactly which delimiter words they end where POSIX has them end. `ShellWords.dfy` says of the source text where a
  comment may begin, `ShellCases.dfy` how `case` commands nest, `ShellBrackets.dfy` that the bracket that ends a
  substitution balances the one that opened it. `ShellGrammar.dfy` and `JsGrammar.dfy` prove that a
  source spelled by a tree reports exactly the tree's comments; `JsTrees.dfy` says which JavaScript sources have one.
- **The stream follower** of `astrabox run`, **the comment-blanking transducer** of the translation gate, **the pinned-source
  cache**, **the EFS claim reconciler**, **the installation-id race**, and **the image-identity proof**.

What the outside decides is a parameter of every theorem: how a value prints, the insertion order of a mapping, what a
download delivers, a digest function, what the cluster holds when each call reaches it, how characters classify.

The deployment's side of the convergence engine is the contract the client states: a write replaces each member it
names and keeps the rest, an update carrying another version than the stored one is refused, a profile is upserted under
the name in its route, stored stripped and unique, and lists its secrets masked, keeping a secret whose mask is sent back.
Every Agent carries an id of its own. The sorted list of changed keys in a report row is modelled by its set.

Where names collide with schema paths the code does not always do what its documentation says. `RequestBody.dfy`,
`ConvergenceLimits.dfy` and `Prediction.dfy` follow the code: a path of three segments, or one ending in a dot, or two
paths one of which begins the other, are exactly the ones that cannot be read back after a write; a profile field settles
exactly when it is stored under its own key; and a dry run mispredicts exactly the documents with an Agent whose body
cannot be built, or whose write is refused or takes the name of an Agent declared later.

Departures of the shell lexer from the POSIX.1-2017 Shell Command Language have their exact condition here. A
here-document's delimiter is what quote removal (section 2.2) leaves of its word exactly when no backslash in the word
continues a line, none inside double quotes stands before an ordinary character, and no ANSI-C quote holds an escaped quote
(`Heredocs.AlwaysQueuedIffConforms`); an empty delimiter is not recognised (`Heredocs.RefusedIffEmpty`). A `#` inside a
word, right after an expansion, is taken for a comment (section 2.3) exactly when a `)` closes the expansion
(`ShellWords.HashInWordIsRecordedIff`), and a carriage return separates words; right after a bracket the lexer takes no
note of, inside `(( ))` or at the end of a subshell inside `$( )`, it is one exactly when it would have been one in the
bracket's place (`ShellWords.Silent`, `ShellWords.HashAfterIsRecordedIff`). An `esac` right after the `in` of a `case`
command without clauses (section 2.9.4.3) is taken for a pattern, so that the command is never left, exactly when there is
no clause (`ShellCases.CaseGoes`). What POSIX leaves open, `$'...'` and `$"..."`, is read as bash documents it.

## Model

| member | source | states |
|---|---|---|
| Paths.WalkPath | astrabox/cli/resources.py:268-275 | the loop over a path's parts reads what following its segments reads, `Null` as soon as one is missing |
| Json.EqualIsSame | astrabox/cli/resources.py:412 | two values compare equal if and only if they are numbers or booleans of one value, the same string or null, lists of one length with equal items, or mappings of the same keys with equal members |
| Json.FalsyIff | astrabox/cli/resources.py:437 | the values taken for false are exactly null, false, zero, and what is empty |
| RequestBody.BuildBody | astrabox/cli/resources.py:338-360 | the loop builds the body of the given insertion order, or fails with the `TypeError` of indexing a value that is not a mapping |
| RequestBody.PutGet | astrabox/cli/resources.py:345-359 | a value put at a path of one or two segments reads back there |
| RequestBody.PutFrame | astrabox/cli/resources.py:345-359 | putting it leaves every path that neither begins nor continues it as it was, siblings in the same object included |
| RequestBody.BuildIsPutAll | astrabox/cli/resources.py:345-360 | overlaying the body on the stored document, members replaced whole, is putting each declared value in place |
| RequestBody.WriteReadsBack | astrabox/cli/resources.py:338-360 | for well-placed keys, in every insertion order, the body is built, all declared values read back, and every other path reads as stored |
| RequestBody.MisplacedKeysLoseAValue | astrabox/cli/resources.py:350-359 | when keys are not well placed, some values are lost whatever the order |
| RequestBody.ReadsBackIffWellPlaced | astrabox/cli/resources.py:338-360 | declared values always read back if and only if paths have at most two segments, none ends in a bare dot, and none begins another |
| Documents.Cli.ParseResourceList | astrabox/cli/document.py:130-162 | the loop with its dictionary of seen names accepts and rejects as the specification, at the same first item with the same error |
| Documents.Cli.AcceptedIffDeclarable | astrabox/cli/document.py:142-162 | a resource list is accepted if and only if every item is a mapping with a non-blank name of its own, and each spec is then its item |
| Documents.Cli.RefusalExplains | astrabox/cli/document.py:130-162 | the error of a refused list names its first unacceptable item and what is wrong with it; for a name declared twice, the item that declared it first |
| Documents.Cli.DocumentAcceptedIff | astrabox/cli/document.py:92-127 | a document is accepted if and only if it is a mapping of at most its three members, its version equals 1, and both lists are declarable; its resources are then the items, in order |
| Documents.Cli.NameLaw | astrabox/cli/document.py:142-162 | the name of an item is what its text says between blanks; a missing or null one is no name |
| Documents.Cli.ParsedNamesAreDistinct | astrabox/cli/document.py:92-162 | a parsed document names each resource once within its kind, by the name its fields carry |
| Resources.FirstNamed | astrabox/cli/resources.py:434-439 | the first row from a position on whose stripped name matches |
| Convergence.StampedRowSettles | astrabox/cli/resources.py:326-334 | the row a write leaves, once the deployment stamps its id and version, keeps the name and shows no declared field as changed |
| Convergence.AgentWrites | astrabox/cli/resources.py:314-335 | whatever its keys, a write that is called for fails to build, is refused for its version, or is accepted on the one row of the name or as a new one |
| Convergence.PutLands | astrabox/cli/resources.py:328-334 | an update carrying the version just read is accepted and changes the row that was read, no other |
| Convergence.OtherLookupsStand | astrabox/cli/resources.py:363-382 | a write answers to the names it takes and gives alone: any other lookup, its ambiguity included, answers as before |
| Convergence.AgentApplied | astrabox/cli/resources.py:314-335 | applying one Agent reports what the lookup says, settles it, and touches no other row or lookup |
| Convergence.MergedProfileSettles | astrabox/cli/resources.py:309-310 | a written profile shows every declared field but the secrets whose real value was declared, and writing it again changes nothing |
| Convergence.ProfileApplied | astrabox/cli/resources.py:297-311 | applying one profile reports what the lookup says, settles it, and touches no other row or lookup |
| Convergence.PassKeepsOthers | astrabox/cli/resources.py:278-294 | whatever the keys, and even when it stops midway, a pass leaves every row the document does not name exactly as it was; with names in place it renames none and adds only rows of declared names |
| Convergence.SettledPassIsQuiet | astrabox/cli/resources.py:385-421 | over a settled store, any pass reports all unchanged but masked secrets, and leaves the collections as they are |
| Convergence.ApplyConverges | astrabox/cli/resources.py:278-360 | for every parsed document with storable keys, applying either stops at an ambiguous name or converges: a later pass reports every Agent unchanged and writes none |
| Applied.DeclaredValuesAreHeld | astrabox/cli/resources.py:278-421 | after a pass without error, whether written or reported unchanged, the one Agent of each declared name holds at every declared path a value equal, by kind, to the one declared, and each profile lists it, or stores it when it is a secret |
| Applied.UnchangedIffHeld | astrabox/cli/resources.py:314-334 | an Agent is reported unchanged if and only if exactly one row bears its name and that row holds every declared value |
| Applied.ReportSays | astrabox/cli/resources.py:314-335 | an Agent is reported as created if and only if no row bears its name; otherwise its changed fields are exactly those its row does not hold as declared, and it is updated if and only if there are any |
| Applied.OneNamed | astrabox/cli/resources.py:363-382 | a lookup gives the one row of a name, nothing when there is none, and otherwise the ambiguous name with the ids of exactly its rows |
| Applied.ConcurrentEditIsRefused | astrabox/cli/resources.py:328-334 | an update of a row that another client changed since it was read is refused, and nothing is stored |
| Applied.UpdatesMoveTheVersion | astrabox/cli/resources.py:328-334 | an accepted update gives the row another version, so that the same update sent again is refused |
| Applied.UndeclaredStand | astrabox/cli/resources.py:345-360 | whatever an Agent's write does, every path apart from the declared ones reads as before in every row |
| Applied.UndeclaredProfileFieldsStand | astrabox/cli/resources.py:297-311 | a profile's write leaves every field it does not declare |
| RequestBody.BuildIgnoresStored | astrabox/cli/resources.py:345-359 | whether a body can be built, and which of its members are mappings, does not depend on what is stored |
| Prediction.DryRunPredictsIffForetold | astrabox/cli/resources.py:278-335 | for every document: a dry run sends nothing and gives the rows, or the error at the same resource, that applying gives, on every deployment, if and only if writing each Agent, anew or over any one row of its name, is accepted and gives no row a name declared later |
| Prediction.DryRunPredictsIffPredictable | astrabox/cli/resources.py:278-360 | where no path leads inside `name` or `version`, that is so if and only if each Agent's body builds, carries no version, and names a new row as no Agent declared later |
| Prediction.DryRunPredictsIffBodiesBuild | astrabox/cli/resources.py:278-360 | with the name stored in place and no field as the version, a dry run predicts applying on every deployment if and only if every Agent's body can be built |
| Prediction.DryRunPredictsApply | astrabox/cli/resources.py:278-335 | documents whose Agents can be stored are always predicted, whatever their profiles' keys |
| Prediction.AgreementForetellsCreation | astrabox/cli/resources.py:363-375 | an Agent whose body does not build, or names its new row as one declared later, is mispredicted on the empty deployment already |
| Prediction.DryRunMissesTheTypeError | astrabox/cli/resources.py:350-359 | a document that declares `display_meta` as null before `display_name`: the dry run announces a new Agent, applying raises the `TypeError` |
| ConvergenceLimits.ProfilesSettleIffFlat | astrabox/cli/resources.py:297-311 | a profile's declared fields always settle, after one write or ever, if and only if each is stored under its own key |
| ConvergenceLimits.NestedFieldNeverSettles | astrabox/cli/resources.py:306-310 | for each profile field read elsewhere than it is sent, there is a document and a stored profile whose writes, however many, leave it reported as changed |
| Scaffold.ProjectFields | astrabox/cli/scaffold.py:181-193 | the loop gives every declared path that holds something, under its key, and nothing else |
| Scaffold.RefuseAmbiguousNames | astrabox/cli/scaffold.py:160-178 | the loop over ids by name gives each non-blank name several rows share, with the ids of exactly those rows |
| Scaffold.ConflictsIffShared | astrabox/cli/scaffold.py:160-178 | an export is refused if and only if two Agents share a non-blank name |
| Scaffold.ConflictsTellIds | astrabox/cli/scaffold.py:160-178 | a refusal gives exactly the non-blank names that several rows bear, each with the ids of all of its rows, as often as they occur |
| Scaffold.ExportIsAccepted | astrabox/cli/scaffold.py:138-157 | the parser accepts an export if and only if all resources are named and profile names are unique |
| Scaffold.ExportIsAFixpoint | astrabox/cli/scaffold.py:138-193 | applying an accepted export to its own deployment reports every resource unchanged and leaves the store, write count included, as it is |
| Scaffold.ExportReadsBack | astrabox/cli/scaffold.py:138-193 | an export has one item a row, in order, which holds, under the key of every declared path that holds something, what is stored there, nested paths included, and nothing else |
| Deployments.Deployment.Post | astrabox/cli/resources.py:326-327 | a creation appends the body under a fresh id |
| Deployments.Deployment.Put | astrabox/cli/resources.py:328-334 | an update overlays the body on the row of its id, or is refused for its version |
| Deployments.Deployment.PutPreset | astrabox/cli/resources.py:308-310 | a profile write upserts by name |
| Deployments.Deployment.Delete | astrabox/cli/resources.py:229 | a deletion removes the row of its id |
| Deployments.ApplyRuntimeProfile | astrabox/cli/resources.py:297-311 | the step for a profile changes the deployment and reports as specified |
| Deployments.ApplyAgentSpec | astrabox/cli/resources.py:314-335 | the step for an Agent changes the deployment and reports as specified, errors included |
| Deployments.ApplyList | astrabox/cli/resources.py:288-293 | the loop over one list appends a row a resource, up to the first error |
| Deployments.PlanAndRunOn | astrabox/cli/resources.py:278-294 | profiles first, then Agents: the whole pass as specified |
| Deployments.DestroyDeclared | astrabox/cli/resources.py:224-230 | the loop deletes each declared Agent that is there, and stops at an ambiguous name |
| Deployments.Destroy | astrabox/cli/resources.py:219-241 | then every profile is reported as retained |
| Deployments.DestroyRemovesTheDeclared | astrabox/cli/resources.py:219-234 | a destroy that is not stopped leaves exactly the Agents whose names are not declared, in order, and every profile |
| Deployments.DestroyReports | astrabox/cli/resources.py:219-234 | a destroy of names declared once each reports each Agent that is there as deleted and each other as absent, and stops exactly at the first name several Agents share |
| Deployments.ProfilesAreRetained | astrabox/cli/resources.py:235-241 | every declared profile is reported as retained, in order |
| Rotation.StepKeepsInv | scripts/rotate_local_database_secrets.py:91-238 | what holds at each stage of a rotation or an ensure run survives every step, crash and failure |
| Rotation.PasswordsAreNeverLost | scripts/rotate_local_database_secrets.py:91-238 | in every state any sequence of runs, crashes and failed or falsely failed database calls reaches, the active files or a complete pending set hold the database's passwords |
| Rotation.CompletePendingIsReused | scripts/rotate_local_database_secrets.py:91-99 | a complete pending set is never overwritten; files leave it only while the active files already hold the passwords |
| Rotation.EnsureOnlyAdds | astrabox/deploy/secret_files.py:80-94 | an ensure run never touches the database, the pending set, or an existing file |
| Rotation.SecretIff | scripts/rotate_local_database_secrets.py:32 | a text is a secret if and only if it is what 32 bytes are written as in lower-case hexadecimal |
| RotationHosts.Host.Rotate | scripts/rotate_local_database_secrets.py:223-238 | a rotation is a run of the system; uninterrupted, it succeeds if and only if the pending set is absent or complete and the database commits, and then active files equal the database, nothing is pending, and a complete pending set was reused; an incomplete one is refused untouched; a rejected change leaves the database as it was, a commit that is not reported leaves the active files, and names that are not rotated are never touched |
| RotationHosts.Host.Prepare | scripts/rotate_local_database_secrets.py:91-116 | loads a complete pending set, refuses an incomplete one, or generates one |
| RotationHosts.Host.Generate | scripts/rotate_local_database_secrets.py:101-116 | generates the candidates file by file; unless it dies, the pending set is complete and is what it returns, or an exception raised on the way leaves no pending directory |
| RotationHosts.Host.Publish | scripts/rotate_local_database_secrets.py:198-214 | replaces the active files one by one; unless it dies, every one holds its candidate |
| RotationHosts.Host.RemovePending | scripts/rotate_local_database_secrets.py:220 | removes the files in any order, then the directory |
| RotationHosts.Host.EnsureSecretFiles | astrabox/deploy/secret_files.py:80-94 | keeps every existing file, creates missing ones with generated values, and succeeds if and only if no existing one is malformed |
| ShellLexer.Step | scripts/check_comment_style.py:818-826 | every step advances, counts the newlines it passes, keeps the code frame at the bottom and all depths those of open brackets (a parameter frame's exactly 1), and records at most the comment it stands on |
| ShellLexer.Scan | scripts/check_comment_style.py:818-827 | scanning ends with the whole source consumed |
| ShellProofs.StepKeepsReported | scripts/check_comment_style.py:498-500 | between any two steps the line is one plus the newlines passed, and the comments are real and on increasing lines |
| ShellProofs.ScanReportsTrueLines | scripts/check_comment_style.py:729-738 | every comment reported is what some `#` of the source starts, on its true line, and lines strictly increase |
| ShellProofs.ReportedUnitsAreTrue | scripts/check_comment_style.py:818-832 | end to end: the lines of the reported units are exactly the comments that say something, each at its true place |
| ShellProofs.RecordedExactlyAtWordStart | scripts/check_comment_style.py:729-738 | a comment is recorded if and only if a `#` stands in an active frame after nothing or a boundary |
| ShellProofs.QuotedSpansAreOpaque | scripts/check_comment_style.py:604-628 | from any active frame, a single-quoted span, or a double-quoted one free of escapes and expansions, is crossed back to the same frame with nothing recorded |
| ShellProofs.QuotedSpansReportNothing | scripts/check_comment_style.py:604-628 | scanning on from its closing quote gives what scanning from its opening one does |
| ShellProofs.AnsiSpansAreOpaque | scripts/check_comment_style.py:611-618 | so for an ANSI-C quoted span with escapes |
| ShellProofs.SkipStopsAfterFirstDelimiter | scripts/check_comment_style.py:588-602 | skipping a here-document stops just after the first line that is its delimiter, or at the end of the source when none is |
| ShellProofs.PendingAreSkippedInOrder | scripts/check_comment_style.py:588-602 | pending here-documents are skipped in order, each from where the one before stopped |
| ShellProofs.HeredocBodiesReportNothing | scripts/check_comment_style.py:683-688 | the newline before here-document bodies carries the lexer past all of them, recording nothing |
| HeredocWords.WordSaysItsPieces | scripts/check_comment_style.py:538-580 | a delimiter word of any bare, escaped, single-, double- and ANSI-C quoted pieces, none of whose ANSI-C quotes holds an escaped quote, is read to its end as what the lexer takes them to say |
| HeredocWords.SaysAsPosixIff | scripts/check_comment_style.py:538-580 | such a word says what quote removal leaves of it if and only if no backslash continues a line and none inside double quotes stands before an ordinary character |
| Heredocs.BegunIff | scripts/check_comment_style.py:521-535 | a here-document is begun if and only if `<<`, no part of `<<<`, stands there, with a `-` or without, blanks, and then a word on the same line |
| Heredocs.ComparedLine | scripts/check_comment_style.py:592-602 | a line is compared with the delimiter without the carriage return that ends it and, for `<<-`, without its tabs |
| Heredocs.AlwaysQueuedIffConforms | scripts/check_comment_style.py:521-586 | for every word: however ANSI-C escapes are decoded, the operator queues the here-document quote removal makes of it if and only if, besides, no ANSI-C quote holds an escaped quote |
| Heredocs.BodySkippedAsPosixIff | scripts/check_comment_style.py:588-602 | every body is skipped to the line quote removal asks for if and only if the word conforms, or by neither rule any line can end it |
| Heredocs.RefusedIffEmpty | scripts/check_comment_style.py:582-583 | the operator is not recognised if and only if the delimiter is empty, as for `<<''` |
| Heredocs.BackslashIsDropped | scripts/check_comment_style.py:550-552 | `<<"a\b"` waits for the line `ab`, where quote removal leaves `a\b` |
| Heredocs.EscapedQuoteIsMisread | scripts/check_comment_style.py:541-549 | `<<$'a\'b'` closes at the escaped quote and is not recognised |
| Heredocs.EscapedQuoteBodyIsReported | scripts/check_comment_style.py:521-586 | so a line of its body that looks like a comment is reported |
| Heredocs.HeredocIsOpaque | scripts/check_comment_style.py:521-602 | a whole here-document, others waiting or not, is crossed in two steps to just past the first line its delimiter word says, or the end of the source, with nothing recorded; the delimiter is quote removal's if and only if the word conforms |
| ShellGrammar.ExactlyTheCommentsAreReported | scripts/check_comment_style.py:502-827 | a source spelled by any tree of words, quotes, nested expansions, backquotes, arithmetic and here-documents reports exactly the comments of the tree, in order, each with its true line and text |
| ShellGrammar.LexemeRead | scripts/check_comment_style.py:670-816 | any lexeme of active text, however deep its expansions, is crossed back to the same frame with exactly its comments recorded |
| ShellGrammar.DoubleTextRead | scripts/check_comment_style.py:604-628 | text inside double quotes, with escapes, backquotes and expansions, records exactly the comments of the commands in it |
| ShellGrammar.InertTextRead | scripts/check_comment_style.py:630-668 | so for parameter and arithmetic expansions with their quotes and nested expansions |
| ShellWords.CommentsFollowTheText | scripts/check_comment_style.py:729-759 | in every source a tree spells, the comments reported are the tree's, and every one stands where the text before it, by its own characters, allows a comment, while every `#` that is none stands where it does not |
| ShellWords.HashAfterIsRecordedIff | scripts/check_comment_style.py:729-816 | after each kind of lexeme, a `#` is recorded, with its line and text, if and only if the lexeme ends in a blank, a line end or an operator character outside quotes and escapes, or closes an expansion by `)`; an escaped newline, or a bracket of which no note is taken, leaves it as it was |
| ShellWords.HashInWordIsRecordedIff | scripts/check_comment_style.py:729-759 | a `#` right after plain word characters, a quote, an escaped character or an expansion, which is inside a word, is recorded if and only if a `)` closed the expansion |
| ShellWords.CommentSays | scripts/check_comment_style.py:729-738 | a comment's text is the rest of its line without the blanks it begins with, and it fills its line if and only if only blanks stand before it there |
| ShellCases.WordGoes | scripts/check_comment_style.py:739-759 | a word is read whole; `case` where a command may begin, `in` after a subject and `esac` where a command may begin move through the nesting of `case` commands as stated, any other word begins a pattern where one may begin, and seven words go on awaiting a command |
| ShellCases.ClauseEnds | scripts/check_comment_style.py:760-774 | the longest of `;;&`, `;;` and `;&` that stands after a clause is passed whole, a pattern or `esac` being next |
| ShellCases.PlainLeaves | scripts/check_comment_style.py:803-816 | outside of `case` commands, a character that is no part of a word leaves a command awaited if and only if it is one of six, a blank leaving what was |
| ShellCases.CaseGoes | scripts/check_comment_style.py:739-797 | a whole `case` command is crossed in its frame with nothing recorded, none of its brackets closing anything; it leaves the nesting it found if and only if it has a clause |
| ShellBrackets.BracketsBalance | scripts/check_comment_style.py:655-668 | between the brackets of a command substitution or an arithmetic expansion, nested quotes and expansions apart, as many brackets close as open |
| ShellBrackets.ComputeBalances | scripts/check_comment_style.py:775-788 | so for an arithmetic command |
| ShellBrackets.LexemeDepth | scripts/check_comment_style.py:670-816 | only a bracket that stands by itself changes how many are open: in a command substitution no bracket of a `case` pattern, in arithmetic no `)` that closes nothing |
| ShellScanners.ShellCommentLexer.PushAnyExpansion | scripts/check_comment_style.py:502-515 | opens the frame of the expansion at the position, if there is one |
| ShellScanners.ShellCommentLexer.ReadDelimiter | scripts/check_comment_style.py:538-580 | the loop reads a delimiter word through its quotes and escapes as specified |
| ShellScanners.ShellCommentLexer.TryHeredoc | scripts/check_comment_style.py:521-586 | queues the here-document of the operator at the position, or leaves the lexer as it is |
| ShellScanners.ShellCommentLexer.SkipBodies | scripts/check_comment_style.py:588-602 | the nested loops skip what the specification skips |
| ShellScanners.ShellCommentLexer.InQuotes | scripts/check_comment_style.py:604-628 | one step inside quotes |
| ShellScanners.ShellCommentLexer.InExpansion | scripts/check_comment_style.py:630-668 | one step inside a parameter or arithmetic expansion |
| ShellScanners.ShellCommentLexer.InActiveShell | scripts/check_comment_style.py:670-816 | one step of active shell text |
| ShellScanners.ShellCommentLexer.OnWord | scripts/check_comment_style.py:739-759 | a word, its effect on nested `case` commands and on where a command may begin |
| ShellScanners.ShellCommentLexer.TakeComment | scripts/check_comment_style.py:729-738 | records the comment and stops at its newline |
| ShellScanners.ShellCommentLexer.ScanComments | scripts/check_comment_style.py:818-827 | the loop ends in the state the step function leads to, and returns its comments grouped |
| CommentUnits.GroupCommentLines | scripts/check_comment_style.py:368-388 | the loop, whose recorded group is always the last unit, groups as specified |
| CommentUnits.GroupingKeepsLines | scripts/check_comment_style.py:368-388 | every non-empty comment is kept in order, the k-th line of a unit lying on source line start + k, and units start at exactly the comments that do not continue a full-line comment of the line before |
| CommentUnits.ViolationLocation | scripts/check_comment_style.py:1270-1280 | returns the least window, by width and then offset, that the rule hits, and the fallback only when none is hit |
| CommentUnits.RunsCollapse | scripts/check_comment_style.py:1279-1280 | in an excerpt each run of white space becomes one space, everything else stays |
| CommentUnits.LocatedIffNotEmpty | scripts/check_comment_style.py:1270-1280 | a rule that hits the rejoined unit is always located in a window if and only if the unit's text is not empty |
| JsLexer.Code | scripts/check_comment_style.py:1144-1222 | lexing code terminates, every comment it reports is genuine, in order and apart, and the top level consumes the whole source |
| JsGrammar.ExactlyTheCommentsAreReported | scripts/check_comment_style.py:856-985 | a source spelled by any tree of tokens, templates and JSX elements reports exactly the comments of the tree, in order: none of strings, template text, element text or regular expressions, and none missed |
| JsTrees.TreeOfIff | scripts/check_comment_style.py:856-985 | a reader of trees finds one for a source if and only if one spells it, and no source has two |
| JsTrees.ClosedSourceIsReported | scripts/check_comment_style.py:856-985 | every source whose constructs are closed has its one tree, whose comments are exactly those reported |
| JsGrammar.CodeRead | scripts/check_comment_style.py:1144-1222 | inside any code, at any depth, the tokens are met with exactly their comments and lexing goes on after them, knowing whether a regular expression may follow |
| JsLexer.Template | scripts/check_comment_style.py:908-920 | a template terminates, and reports genuine comments in order |
| JsGrammar.TemplateRead | scripts/check_comment_style.py:908-920 | a template ends at its own backquote, having met the comments of its `${}` code and none of its text |
| JsLexer.Tag | scripts/check_comment_style.py:945-963 | an opening tag terminates, and reports genuine comments in order |
| JsGrammar.TagRead | scripts/check_comment_style.py:945-963 | a tag ends at its `>`, or at its `/>` and then closes itself, past quoted values and code in braces |
| JsLexer.Element | scripts/check_comment_style.py:965-979 | an element advances, and holds genuine comments in order |
| JsGrammar.JsxRead | scripts/check_comment_style.py:965-979 | an element ends with its self-closing tag, or with the closing tag after its children, elements and code among them |
| JsUnits.OnlineIsBatch | scripts/check_comment_style.py:864-890 | grouping line comments as they are met is grouping each run between block comments in a batch |
| JsUnits.RunsKeepTheirLines | scripts/check_comment_style.py:864-882 | within a run the k-th line of a unit is a line comment opening on source line start + k |
| JsUnits.LineCommentSays | scripts/check_comment_style.py:864-872 | a line comment's text is what stands between blanks on the rest of its line, and it fills its line if and only if only blanks stand before it there |
| JsUnits.StarsAreDropped | scripts/check_comment_style.py:835-837 | a line of a block loses the blanks, the star and one space it begins with, and is kept whole when it begins with no star |
| JsUnits.BodyLinesStand | scripts/check_comment_style.py:884-889 | the k-th line of a block's body is the text, between newlines, of source line start + k |
| JsUnits.BlockIsLocated | scripts/check_comment_style.py:884-890 | the lines of a block's unit are those of its body without their stars, each on its own source line |
| JsUnits.UnitsSayTheComments | scripts/check_comment_style.py:864-890 | the lines of all units are, in order, the texts of the line comments that say something and the lines of the blocks, each on its own source line |
| JsScanners.JavascriptCommentLexer.TakeLineComment | scripts/check_comment_style.py:864-882 | joins or adds a unit on the true line, and stops at the newline |
| JsScanners.JavascriptCommentLexer.TakeBlockComment | scripts/check_comment_style.py:884-890 | adds the block's unit on the true line of its opening |
| JsScanners.JavascriptCommentLexer.QuotedString | scripts/check_comment_style.py:892-906 | stops after the closing quote or a raw newline, meeting no comment |
| JsScanners.JavascriptCommentLexer.RegexLiteral | scripts/check_comment_style.py:922-943 | stops after the flags, or at a newline, meeting no comment |
| JsScanners.JavascriptCommentLexer.TemplateLiteral | scripts/check_comment_style.py:908-920 | goes where the template ends, meeting the comments of its code |
| JsScanners.JavascriptCommentLexer.JsxTag | scripts/check_comment_style.py:945-963 | goes where the tag ends and says whether it closes itself |
| JsScanners.JavascriptCommentLexer.JsxElement | scripts/check_comment_style.py:965-979 | goes where the element ends, through nested elements and code |
| JsScanners.JavascriptCommentLexer.CodeUntil | scripts/check_comment_style.py:1144-1222 | the loop over code, mutually recursive with the others, terminates and meets exactly the comments of the code |
| JsScanners.JavascriptCommentLexer.ScanUnits | scripts/check_comment_style.py:856-858 | consumes the source; its units are the batch grouping of its genuine comments, and their lines are exactly what line comments and blocks say, each on its own source line |
| Stream.FollowingFolds | astrabox/cli/run.py:198-247 | whatever the connections carry, an answer is followed to its end if and only if what they deliver, up to the first that failed, ends it; it is then one fold over all of it |
| Stream.CutsFoldTheLog | astrabox/cli/run.py:198-247 | connections whose last cursors cover what they carried fold the log once from the starting position, as far as they could be read |
| Stream.ReconnectionsDoNotMatter | astrabox/cli/run.py:198-247 | however the log is cut into such connections, readers that get equally far both have the answer or neither has, and all who have it have the same |
| Stream.FoldCollectsTheAnswer | astrabox/cli/run.py:165-195 | folding stops just after the first part that ends the answer, having collected exactly the texts, errors and last question of the response whose start lists the input |
| Stream.FollowedAnswer | astrabox/cli/run.py:137-247 | end to end, for every log and covering cut: the answer is the texts, errors, last question and number of parts that the log holds for the input up to the first part that ends it |
| Stream.StartBelongs | astrabox/cli/run.py:165-195 | a start that lists the input begins its answer unless it bears no id; a bare start takes it up again if and only if it bears the id of the last one that listed it |
| Stream.AnswerIsReachedIff | astrabox/cli/run.py:137-149 | the answer is reached if and only if the connections that could be read deliver a part that ends it |
| Stream.LaggingCursorsRepeat | astrabox/cli/run.py:229-231 | wherever cursors lag, over any number of connections, the answer is that of the log with the stretches behind them repeated |
| Stream.RepetitionMattersIff | astrabox/cli/run.py:165-195 | a repeated stretch that ends the answer ends it there; another leaves its texts and errors alone if and only if going over it again adds none |
| Stream.RepetitionEndsEarly | astrabox/cli/run.py:229-231 | a repeated stretch can end the answer early, with another response's text |
| Stream.LaggingCursorRepeatsText | astrabox/cli/run.py:229-231 | a log and a lagging cursor for which a text appears twice |
| StreamReaders.Answer.TakePart | astrabox/cli/run.py:165-195 | one part updates the answer as specified |
| StreamReaders.Answer.ReadStream | astrabox/cli/run.py:198-247 | the loop over a connection's lines, its early exits and its failure |
| StreamReaders.SendTask | astrabox/cli/run.py:137-149 | the loop over connections gives the answer, or nothing when one fails first |
| Blanking.StripJavascriptComments | scripts/check_i18n.py:121-161 | the loop over the source blanks as specified |
| Blanking.ExactlyTheCommentsAreBlanked | scripts/check_i18n.py:121-161 | for a source written as any run of quoted text, line comments, block comments up to their first closing delimiter, and other characters, what is left is exactly each comment blanked, its newlines kept, and everything else as it is |
| Blanking.SegmentsExist | scripts/check_i18n.py:121-161 | every source is written so, unclosed quotes and comments last |
| Blanking.PositionsAreKept | scripts/check_i18n.py:121-161 | length and newline positions are kept, and every other character is unchanged or a space |
| Blanking.QuotesAreVerbatim | scripts/check_i18n.py:128-143 | quoted text is kept verbatim whatever it holds, and what follows is read afresh |
| Blanking.UnchangedIffClean | scripts/check_i18n.py:144-158 | stripping changes nothing if and only if no comment is met |
| Blanking.StrippedIsClean | scripts/check_i18n.py:121-161 | what is left holds no comment: blanking never creates an opener |
| Blanking.StrippingIsIdempotent | scripts/check_i18n.py:121-161 | stripping twice is stripping once |
| BuildCaches.Cache.FetchSources | scripts/pinned-build-sources.py:203-235 | the loop downloads absent entries, refuses wrong bytes, and stops at the first error as specified |
| BuildCaches.Cache.CheckSources | scripts/pinned-build-sources.py:238-265 | the loop collects problems and flags, and stops at a directory with white space |
| BuildCaches.FetchOnlyAddsVerified | scripts/pinned-build-sources.py:203-235 | every run, failing ones included, leaves existing entries untouched and adds only bytes of the pinned digest |
| BuildCaches.FetchReports | scripts/pinned-build-sources.py:203-235 | the sources dealt with are those before the first error, each reported as cached if and only if its entry was there or was fetched for one before it; the entries added are theirs |
| BuildCaches.FetchCounts | scripts/pinned-build-sources.py:203-235 | one download is made a source fetched, and one more when a download is what failed |
| BuildCaches.FailureExplains | scripts/pinned-build-sources.py:203-235 | a run stops at the first source whose entry has wrong bytes, or is absent and cannot be had, or not with the right bytes |
| BuildCaches.PreflightIffVerified | scripts/pinned-build-sources.py:238-265 | preflight passes if and only if every source has a verified entry in a directory without white space, with one flag a stage in order |
| BuildCaches.FlagTellsStage | scripts/pinned-build-sources.py:238-265 | two flags are equal if and only if their stages and digests are; each names its entry's directory |
| BuildCaches.FetchThenPreflight | scripts/pinned-build-sources.py:203-265 | after a successful fetch another downloads nothing, and preflight passes unless a directory holds white space |
| EfsWorkspaces.Reconcile | scripts/efs-workspace.py:92-125 | the calls are a prefix of those the first reads determine, none a mutation unless everything present verified; success if and only if every call is accepted and the last reads found the two bound to each other |
| EfsWorkspaces.Inspect | scripts/efs-workspace.py:93-103 | the first reads and the checks that precede any mutation |
| EfsWorkspaces.Mutate | scripts/efs-workspace.py:104-113 | each mutation is sent only once the one before was accepted, each object created as asked for |
| EfsWorkspaces.Confirm | scripts/efs-workspace.py:116-125 | success if and only if both verify, are bound, and the volume's claim is the claim read |
| EfsWorkspaces.OnlyTheVerifiedVolumeIsReleased | scripts/efs-workspace.py:104-109 | a claim reference is removed only from the very volume that was verified, at its uid and resource version |
| EfsWorkspaces.MutationsAreThoseNeeded | scripts/efs-workspace.py:104-113 | the volume is created if and only if it was read as absent, the claim if and only if it was, each as asked for, and a claim reference removed if and only if a released volume was read and no claim |
| EfsWorkspaces.MutationsPrepare | scripts/efs-workspace.py:92-113 | from any first reads that pass, on a cluster only these calls change, every one is accepted and they leave both objects present and verified; what was there stays, but for a released volume's claim reference |
| EfsWorkspaces.SucceedsAlone | scripts/efs-workspace.py:92-125 | where what is left gets bound, reconciling then succeeds, from the empty cluster too |
| EfsWorkspaces.ClaimIsCreatedLast | scripts/efs-workspace.py:104-113 | of two mutations the later is the creation of the claim |
| EfsWorkspaces.ConfirmedIffBound | scripts/efs-workspace.py:115-123 | the last reads pass if and only if both objects verify and binding them again would change nothing |
| EfsWorkspaces.VerifiedIff | scripts/efs-workspace.py:67-90 | an object is verified if and only if it is what would be asked for, live, with an identity, and claimed by no other |
| EfsWorkspaces.DnsNameIff | scripts/efs-workspace.py:41-42 | names are 63 characters at most, a letter or digit, or beginning and ending with one |
| EfsWorkspaces.FilesystemIdIff | scripts/efs-workspace.py:43 | a filesystem is `fs-` and 8 to 40 lower-case hexadecimal digits |
| EfsWorkspaces.RerunIsQuiet | scripts/efs-workspace.py:92-125 | reconciling again on a quiet, confirmed cluster sends no mutation and succeeds |
| Installations.StepKeepsInv | astrabox/persistence/installation.py:29-54 | an id that was read is committed or about to be, and a committed row never changes |
| Installations.ReplicasAgree | astrabox/persistence/installation.py:29-54 | in every interleaving with aborts and crashes, all calls that return give the same id, the committed row's |
| Installations.Database.LoadInstallationId | astrabox/persistence/installation.py:29-54 | an uninterrupted call returns the stored id, stores and returns a new one, or raises on an empty stored id, leaving it |
| ImageIdentity.IdentityFollowsDigest | scripts/runtime_image_identity.py:117-173 | two registries that both resolve a digest, and serve no two different bodies of one digest, give the same manifest and config |
| ImageIdentity.ResolvedManifestIsFixed | scripts/runtime_image_identity.py:117-173 | a resolved manifest digest resolves to itself, for any platform |
| ImageIdentity.ResolvedIsTheOnlyMatch | scripts/runtime_image_identity.py:117-173 | a root digest resolves to itself when an image is served for it, otherwise to the manifest whose descriptor is the only one of the platform asked for; the config is the one that manifest names |
| ImageIdentity.DigestIff | scripts/runtime_image_identity.py:66 | a digest is `sha256:` and what 32 bytes are written as in lower-case hexadecimal |
| ImageIdentity.EvidenceIffSameContent | scripts/runtime_image_identity.py:238-263 | evidence passes if and only if the observed digest is the expected config's or resolves to the expected identity, so the shortcut agrees with resolving again |

## Left out

- Prediction.DryRunPredictsIffPredictable: where a path leads inside `name` or `version`, the exact condition is the one of `DryRunPredictsIffForetold`, over each row of the Agent's name, since the name a row then bears depends on how its stored mapping prints.
- Convergence.ApplyConverges: a deployment that refuses a write (an unknown field, an unknown environment) or that another client edits during the pass is not part of it; the version check of `Deployment.Put` covers one such edit.
- RequestBody.BuildBody: when a declared value is itself a mapping and another key's path runs into it, the original writes into the document's own value; here the body alone changes. Such keys are not well placed.
- ShellLexer.Step: the escapes of an ANSI-C quoted here-document delimiter are decoded by an arbitrary function, and letters and digits are whatever a classification parameter says.
- JsLexer.Code: whether a `<` begins a TypeScript generic arrow is an arbitrary answer for each position; the lookahead that computes it does not move the lexer.
- JsGrammar.ExactlyTheCommentsAreReported: a source in which a string, template, block comment, regular expression, element or brace is left open, or a brace closed too often, is spelled by no tree; of such sources `JsLexer.Code` says that they are consumed and their reported comments genuine. Whether a `/` begins a regular expression or divides is the code's own rule (`JsGrammar.After`), under which it divides after any `)`, `]` or `}`, so the tree is the code's reading of the source where ECMAScript's grammar would need its parser.
- ShellGrammar.ExactlyTheCommentsAreReported: that every source whose quotes, expansions and substitutions are closed has a tree is not stated.
- ShellCases.CaseGoes: the clauses are of one word each for the pattern and the command, on one line; `ShellCases.WordGoes`, `ShellCases.ClauseEnds` and the lemmas beside them are about each step of any other.
- CommentUnits.ViolationLocation: lines are separated by newlines only, not by the other separators Python's `splitlines` knows, and a rule is an arbitrary predicate on text.
- RotationHosts.Host.Rotate: file modes, symbolic links, temporary names and `fsync` are not modelled; replacing a file is atomic, and a file cut short is one whose text is no secret. The removal that an exception while generating triggers does not itself fail.
- Installations.ReplicasAgree: nothing deletes the row; the error for a row that disappears is reached only when a transaction sees none.
- ImageIdentity.EvidenceIffSameContent: stripping an image id to its digest, and the checks on the registry URL and the platform names, are easy string checks.
- Stream.ReconnectionsDoNotMatter: the deadline, a refused stream and a transport error are one failure of a connection at any line; session start-up and printing are not modelled.
- Floating-point rounding: JSON numbers are reals.
- Values YAML can yield and JSON cannot: a mapping with a key that is not a string makes `request_body` raise where the dry run announces a creation, a NaN equals nothing and so never converges, and dates are not modelled; the statements about every document are about documents of JSON values.
- Strings are compared by characters; `isspace` is modelled for characters below U+0100.
- YAML and JSON text, HTTP, `kubectl`, `docker`, `psql` and `curl` themselves: their results are parameters or already decoded values.
- The Dockerfile parser of the pinned sources, the other comment extractors (Python, CSS, HTML, hash comments) and the remaining `check_*.py` gates: single-pass checks that would add easy members.
- Listing, schema and skeleton output of the command line: formatting.
- The session orchestrator, the API and the persistence layer beyond the installation row: not part of this model.
