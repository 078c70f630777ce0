# Verification of Ocinye OS: conversations, screens, stores and gates

This project states in Dafny what six parts of the repository do and proves what
they promise. Where the code changes an object in place, the model is a class
whose methods are proved against functions on values; the promises are then
proved of those functions, for every input, every run and every interleaving.

- **The installer's conversation** (`Installer*`). An installation is told to its
  end as it happened, and the window shows that. The window asks the engine to
  check each text typed and matches answers to questions by order alone. The
  engine is the one the repository writes down for its own bench. Both are
  joined by a link that delivers in order but not at once. The engine never
  writes a disk that was not selected, allowed and confirmed, for any actions at
  all. The matching, though, does not hold in every run: with two navigations
  under way the window can ask one review and be answered by the next. The
  condition under which it does hold (`Overtaken` is false when something is
  asked or confirmed) is proved exact, step by step, and a count the window could
  keep is enough to know that it does. **Nor is the disk erased always the one
  shown**: tokens are the end of a serial and can coincide, and a window far behind
  the engine can then confirm one disk and have the other erased
  (`UnseenDiskIsCommitted`). It is the one shown exactly when the last step on its way is a review of it
  (`CommitsTheShownExactly`), and always when no confirmation leaves an overtaken
  window.
- **The byte stream below it** (`LineFraming`). A reader appends chunks while
  looks cut complete lines off; lines arrive whole under every interleaving.
- **The compositor** (`Seat`, `SeatHistory`, `Compositor`). The windows on the screen
  are in every state a function of a few facts; the keyboard follows, except after a
  press on a window already gone; every change is drawn or marked, except after a
  failed GPU call or a frame queued without its pointer, because the mark is taken
  first; frames are paced.
- **The Workspace's stores and checks** (`Sessions`, `SessionHistory`, `HostCache`,
  `Cidr`, `PercentDecoding`, `ReturnTarget`). A session is what was done to it, and
  removed it is gone; sweeping cannot be noticed; the cache of host names answers only what the Core said, recently, and a clearing reaches
  everything but questions under way; masks are division; return targets stay.
- **The guard over release texts** (`Templates`, `Escaping`, `TextRuntime`,
  `ReleaseGuard`, `ReleaseLexer`, `CataloguePrinting`, `CallReader`, `ObjectLiteral`,
  `StringLiterals`, `ReleaseScreen`). Its silence is for this: no brace reaches
  the screen. It is proved from the files to the screen, with the exact
  conditions, since the guard reads raw texts and the interface holds decoded
  ones. A brace or a key written with an escape, a key without quotes, and a comma
  or a bracket inside a quoted value all pass the guard and leave a brace; a lemma
  shows each, and an equivalence says for which keys and calls it cannot happen.
- **The gates over dependencies** (`SemVer`, `AdvisoryGate`, `AdvisoryRanges`,
  `LockFile`, `DependencyGate`). Version keys are the standard's precedence, findings
  are exactly the packages affected, as ranges and severities are written, and a
  passing graph has no way from the Workspace to the Core.

`Text`, `Powers` and `InstallerContract` hold what the others share. Times are
integers of the machine's clock, identifiers and answers of services are inputs.

## Model

| member | source | states |
|---|---|---|
| `InstallerEngine.Engine.constructor` | apps/system-ui/ui-tests/installer-fake.js:17-39 | the engine opens with a greeting and then its first step, or with the read-only report in a session that installs nothing |
| `InstallerEngine.Engine.Perform` | apps/system-ui/ui-tests/installer-fake.js:25-123 | what one action of the window does to the step, the disk, the settings and the events, at every step of the engine: a step entered is announced once, after everything said before, and installing starts at the first of its stages |
| `InstallerEngine.Engine.PerformAtNetwork` | apps/system-ui/ui-tests/installer-fake.js:76-91 | network settings are taken only if the interface exists, the addresses are well formed and the gateway is on the address's own network; otherwise the step says that they are refused |
| `InstallerEngine.Engine.PerformAtAdvanced` | apps/system-ui/ui-tests/installer-fake.js:92-100 | a host name is kept only if absent or well formed |
| `InstallerEngine.Engine.PerformAtStorage` | apps/system-ui/ui-tests/installer-fake.js:101-110 | a disk is chosen only if it is listed and may be erased; an unlisted or a protected one is refused |
| `InstallerEngine.Engine.PerformAtReview` | apps/system-ui/ui-tests/installer-fake.js:112-121 | at the review every check gets exactly one answer, a wrong confirmation gets a refusal, and a right one leaves the step |
| `InstallerEngine.Engine.OnTimer` | apps/system-ui/ui-tests/installer-fake.js:45-52 | each stage is told in order; the one that fails ends the installation as failed, and the last as installed |
| `InstallerEngine.FindDisk` | apps/system-ui/ui-tests/installer-fake.js:105 | the disk found is listed under the path asked for, and none is found only if none is so listed |
| `InstallerEngine.ActIsCareful` | apps/system-ui/ui-tests/installer-fake.js:56-123 | no action changes the disk except a selection the engine takes, and none starts writing except a right confirmation at the review |
| `InstallerEngine.TickIsCareful` | apps/system-ui/ui-tests/installer-fake.js:45-52 | the passing of time neither changes the disk nor starts writing |
| `InstallerEngine.LastSelectionStands` | apps/system-ui/ui-tests/installer-fake.js:101-110 | for any sequence of actions, not only this window's: the disk in force is the last one selected, and was listed and erasable when selected |
| `InstallerEngine.OnlyConfirmedDiskIsWritten` | apps/system-ui/ui-tests/installer-fake.js:112-122 | for any sequence of actions: writing is reached only with a disk that may be erased, was the last selected, and whose token was confirmed at the review while it was in force |
| `InstallerOutcome.InstallationIsTold` | apps/system-ui/ui-tests/installer-fake.js:41-54 | in every run: from its first step to its end an installation is told by exactly its script, stage by stage with its outcome, as far as it has gone, and nothing of it before; it ends as installed and the disk in force is written, or, where the write fails, as failed, and nothing is |
| `InstallerOutcome.InstallationEnds` | apps/system-ui/ui-tests/installer-fake.js:41-54 | an installation under way ends so once its stages have had their time |
| `InstallerSteps.RoadIsWalked` | apps/system-ui/ui-tests/installer-fake.js:63-121 | from compatibility to review, continue leads on and back leads back by one step, a disk that may be erased leads on from the list, a right confirmation from the review, and nothing else moves the engine; a blocked machine does not start |
| `InstallerSteps.BackUndoes` | apps/system-ui/ui-tests/installer-fake.js:69-110 | going on and coming back loses nothing, and a selected disk stays selected |
| `InstallerSteps.EachMachineHasItsSteps` | apps/system-ui/ui-tests/installer-fake.js:56-123 | in every run: a session that reports never leaves its report, a blocked machine and one driven elsewhere never get past their notice, only a machine with a key asks about it, and only one whose write fails ends as failed |
| `InstallerSteps.EndsExactlyWhenAsked` | apps/system-ui/ui-tests/installer-fake.js:58-62 | in every run the machine is restarted or turned off if and only if a session that only reports was asked to |
| `InstallerSteps.HostnamesAreValid` | apps/system-ui/ui-tests/installer-fake.js:96 | a host name is taken if and only if it is a letter or digit, or letters, digits and hyphens between two of these, sixty-three at most |
| `InstallerSteps.SettingsAreTakenExactly` | apps/system-ui/ui-tests/installer-fake.js:70-99 | only a listed layout, network settings whose gateway is in the address's own block, and a well-formed host name or none are taken, each at its own step, and nothing else changes them |
| `InstallerSteps.TimeSetsNothing` | apps/system-ui/ui-tests/installer-fake.js:45-52 | the passing of time changes no setting |
| `InstallerSteps.StepsToldAreTrue` | apps/system-ui/ui-tests/installer-fake.js:20-25 | every step told is the one the engine is at, with what is in force there, and speaks of a refusal if and only if something was asked there and not taken; a step entered is always told |
| `InstallerSteps.RightIsTheToken` | apps/system-ui/ui-tests/installer-fake.js:63 | a text typed is right if and only if, without the white space around it and in capitals, it is the token in capitals |
| `InstallerClient.Client.Show` | apps/system-ui/ui/installer.js:65-80 | a step told by the engine replaces the one shown; only when it is another step does the window forget dialog, text, questions and answer; it starts over at the welcome; a marked disk stays marked only while it is listed and may be erased |
| `InstallerClient.Client.TakeStep` | apps/system-ui/ui/installer.js:69-87 | a setting accepted by the engine goes on by itself, a refused one stays |
| `InstallerClient.Client.TakeEvent` | apps/system-ui/ui/installer.js:68-102 | an answer goes to the oldest question; one without a question is a refused confirmation; stages and the last four hundred lines are kept in order |
| `InstallerClient.Client.OnInput` | apps/system-ui/ui/installer.js:448-459 | every text typed is remembered as a question in the order it was sent; an empty one asks nothing |
| `InstallerClient.Client.OnSubmit` | apps/system-ui/ui/installer.js:460-470 | a confirmation is sent only for the text the engine has answered is right |
| `InstallerClient.Client.OnClick` | apps/system-ui/ui/installer.js:414-440 | what each control does to the window and sends |
| `InstallerClient.Client.OnClosed` | apps/system-ui/ui/installer.js:494 | a link that closes forgets the step but neither the questions nor what was pending |
| `InstallerConversation.DrainOneMore` | apps/system-ui/ui-tests/installer-fake.js:112-121 | what the engine will say to everything sent grows, with one more action sent, by its answer to that action alone |
| `InstallerConversation.EngineAnswersInKind` | apps/system-ui/ui-tests/installer-fake.js:56-123 | the three rules the window relies on: one answer for each check at the review, a step on leaving it, no answer anywhere else |
| `InstallerConversation.NextKeepsAligned` | apps/system-ui/ui/installer.js:68-102 | every move of window, engine or link keeps everything in flight aligned with the questions the window holds, unless something is asked or confirmed while overtaken |
| `InstallerConversation.DisciplinedRunIsAligned` | apps/system-ui/ui/installer.js:68-102 | alignment holds along every run in which nothing is asked or confirmed while overtaken, whatever else is in flight |
| `InstallerConversation.AlignedWindowIsTold` | apps/system-ui/ui/installer.js:90-95 | the next answer taken is to the head of the questions, for the disk on the screen; an answer shown as right or wrong is so; no unasked refusal has come |
| `InstallerConversation.ConfirmIsNeverRefused` | apps/system-ui/ui/installer.js:460-470 | a confirmation this window may send is not refused, and what it starts, it starts on the disk its review shows |
| `InstallerConversation.QuestionAskedTooLate` | apps/system-ui/ui/installer.js:457 | a question asked while overtaken is answered after the window has forgotten it, and the answer is shown as a refusal |
| `InstallerConversation.AskingIsSafeExactlyInTime` | apps/system-ui/ui/installer.js:455-457 | asking keeps the alignment if and only if the text is empty or the window is not overtaken |
| `InstallerConversation.ConfirmingIsSafeExactly` | apps/system-ui/ui/installer.js:466-468 | confirming keeps the alignment if and only if the window is not overtaken or the text is right for the disk under the later review |
| `InstallerTracing.EveryRunIsTraced` | apps/system-ui/ui/installer.js:68-102 | in every run, whatever is asked and when: the steps on their way end at the engine's own step and disk and never go from a review straight to a review, and until a confirmation is accepted no more changes of step are coming than the window can count by itself, from what it sends and what it is told |
| `InstallerTracing.OwedOneIsInTime` | apps/system-ui/ui/installer.js:418-440 | a window at the review that counts at most one change of step to come is not overtaken |
| `InstallerTracing.PatienceIsDiscipline` | apps/system-ui/ui/installer.js:448-470 | so a window that asks and confirms only at such a count keeps every run aligned |
| `InstallerErasure.CommitsTheShownExactly` | apps/system-ui/ui/installer.js:460-470 | in every run: a confirmation that will be accepted commits the disk then in force, which is the one shown if and only if the last step coming is a review of that disk, and it is when the window is not overtaken |
| `InstallerErasure.WrittenWasCommitted` | apps/system-ui/ui/installer.js:460-470 | in every run the disk the engine is bound to write is the one in force when some confirmation of the window was accepted; nothing else commits |
| `InstallerErasure.OnlyReviewedDiskIsWritten` | apps/system-ui/ui/installer.js:460-470 | if no confirmation is sent while overtaken, and whatever is asked, the disk the engine is bound to write was shown by the window's review when the person confirmed its token |
| `InstallerUnseen.UnseenDiskIsCommitted` | apps/system-ui/ui/installer.js:460-470 | without that condition it fails: a run, from the start, with two disks whose tokens coincide, in which the window confirms the disk it shows and the engine is bound to write the other |
| `InstallerOvertaken.AnswersCanReachTheWrongQuestion` | apps/system-ui/ui/installer.js:90-95 | without that condition it fails: a run, from the start, after which a wrong text is shown as right and its confirmation refused |
| `InstallerShown.WindowShowsWhatHappened` | apps/system-ui/ui/installer.js:68-102 | in every run, over any delays: a window that says installed shows four stages that went well, and the engine has written the disk in force; one that says failed shows that the media check went well and the write did not; while it installs, what it shows is how far the plan has gone |
| `InstallerShown.LastLinesAreKept` | apps/system-ui/ui/installer.js:98-101 | of the lines of detail the last four hundred are kept, in order |
| `InstallerShown.MarkedIsAlwaysListed` | apps/system-ui/ui/installer.js:80 | in every run the disk marked is on the list shown, as one that may be erased, and only such a one is sent to be selected |
| `InstallerExchange.ControlsLead` | apps/system-ui/ui/installer.js:414-440 | with nothing in flight, each control that leads on or back can be pressed at its step, is then waited for, and brings window and engine to the next step, settled, with settings and disk as they were |
| `InstallerExchange.MarkedIsSelected` | apps/system-ui/ui/installer.js:423 | the disk marked, selected, is the engine's disk at the next step |
| `InstallerExchange.LayoutIsTaken` | apps/system-ui/ui/installer.js:436 | a layout pressed is in force and on the screen if the engine lists it |
| `InstallerExchange.ListComesAgain` | apps/system-ui/ui/installer.js:420 | the list of disks asked for again comes again, and nothing changes |
| `InstallerExchange.ReportEnds` | apps/system-ui/ui/installer.js:432-434 | a session that only reports is ended by its controls |
| `InstallerExchange.NetworkGoesOn` | apps/system-ui/ui/installer.js:438 | network settings that can work go on by themselves to the disks; others come back refused, and nothing is changed |
| `InstallerExchange.HostnameGoesOn` | apps/system-ui/ui/installer.js:439 | a well-formed host name, or none, goes on by itself to the review; another comes back refused |
| `InstallerExchange.TextIsAnswered` | apps/system-ui/ui/installer.js:448-459 | a text typed in the dialog is asked about and answered, for what was typed |
| `InstallerExchange.RightTextLeads` | apps/system-ui/ui/installer.js:460-470 | a text can be confirmed if and only if it is right, and then starts the installation, or the question of the key |
| `InstallerExchange.WelcomeStartsOver` | apps/system-ui/ui/installer.js:69-80 | a window told of the welcome, wherever it was, has nothing left of before but the setting it waits for |
| `InstallerExchange.WaitingIsAnsweredExactly` | apps/system-ui/ui/installer.js:432 | a control that makes the window wait is answered, unless it asks for a restart or a shutdown where the engine says nothing: then the window waits in vain |
| `InstallerControls.ControlsOfEachStep` | apps/system-ui/ui/installer.js:414-470 | each step offers its own controls and no other, step by step |
| `InstallerControls.ActionsOfEachControl` | apps/system-ui/ui/installer.js:414-470 | every action is sent by its own control, alone, and by no other; and the window waits after each but a new look at the disks and a question |
| `InstallerControls.DialogOpensAndCloses` | apps/system-ui/ui/installer.js:425-426 | a dialog opens empty, and closed it leaves nothing but the questions asked; what is typed takes a refusal away |
| `InstallerControls.PagesLeadToEachOther` | apps/system-ui/ui/installer.js:415-416 | the first two pages lead to each other |
| `InstallerControls.RefusalIsShown` | apps/system-ui/ui/installer.js:90-95 | a confirmation the engine does not accept comes back as a refusal, its text is not right any more, and the window does not wait |
| `InstallerControls.ClosingLeaves` | apps/system-ui/ui/installer.js:494 | a link that closes takes step and dialog away; a new one starts at the welcome with nothing left of before |
| `Templates.FieldAt` | scripts/release_strings.py:55 | a field is a brace, a lower-case name and a brace, and the name has no brace |
| `Templates.FieldsAreTheNamesInBraces` | scripts/release_strings.py:55 | the fields of a text are exactly the names, of small letters, digits and low lines, that stand in braces anywhere in it |
| `Templates.BadExactly` | scripts/release_strings.py:56 | a text is refused if and only if somewhere in it stands a template of a shell, of C, doubled braces, or an opening brace that starts no field |
| `Templates.CleanIsWellBraced` | scripts/release_strings.py:56 | a text without any other form of template has no opening brace outside its fields |
| `Templates.FillOneMore` | apps/installer/ui/app.js:26-29 | replacing one more field in a text already filled is filling it with one more value |
| `Templates.OrderDoesNotMatter` | apps/system-ui/ui/installer.js:50 | replacing the fields one after another, in any order, is replacing them all at once, for texts the guard accepts and values without an opening brace |
| `Templates.LeftUnfilled` | apps/system-ui/ui/installer.js:50-53 | of any text no opening brace is left if and only if each one starts a field and every field has a value |
| `Templates.OrderMattersInBrokenTexts` | apps/system-ui/ui/installer.js:50 | in a text with nested braces the order of the fields does change the result |
| `Escaping.EscapedIsText` | apps/system-ui/ui/installer.js:45 | what is escaped has no character of markup and no ampersand but those of the four entities, and an independent reader of entities gives back what it was |
| `TextRuntime.Words.T` | apps/system-ui/ui/installer.js:46-55 | an unknown key gives itself and is recorded; a text left with a template is recorded, and has its templates taken out; what is given is only text, and reads as that |
| `TextRuntime.RenderMarkup` | apps/installer/ui/app.js:22-31 | the text is escaped first, and each field replaced by its value, escaped unless it is markup |
| `TextRuntime.PlainIsText` | apps/installer/ui/app.js:28 | a value that is not markup reaches the page as text, and reads as itself |
| `TextRuntime.PlainCellsAreText` | apps/installer/ui/app.js:22-31 | with values that are not markup, escaping first and filling then is filling first and escaping then: what is given is only text, and reads as the text filled |
| `TextRuntime.OnlyMarkupBrings` | apps/installer/ui/app.js:22-31 | whatever the values, a character of markup comes from a value that is markup already |
| `TextRuntime.UnfilledExactly` | apps/system-ui/ui/installer.js:53 | a text counts as unfilled if and only if a dollar and a brace, or small letters in braces, stand somewhere in it |
| `TextRuntime.DropsTemplate` | apps/system-ui/ui/installer.js:53 | a template is taken out whole, with its dollar and its braces, closed or not |
| `TextRuntime.DropKeeps` | apps/system-ui/ui/installer.js:53 | and what stands before it is kept as it is |
| `TextRuntime.DroppedIsPlain` | apps/system-ui/ui/installer.js:53 | taking the templates out leaves no opening brace |
| `TextRuntime.EscapeKeepsFields` | apps/installer/ui/app.js:25 | escaping a text, any text, changes none of its fields, adds none, and neither makes nor mends a brace outside them |
| `TextRuntime.FilledIsPlain` | apps/system-ui/ui/installer.js:46-55 | an accepted text comes out without an opening brace if and only if its fields all have values |
| `TextRuntime.FilledMarkupIsPlain` | apps/installer/ui/app.js:22-31 | the same for the surface that escapes before it fills |
| `ReleaseGuard.CheckTexts` | scripts/release_strings.py:225-239 | nothing is reported of an entry if and only if it has three texts that are not blank, no other form of template, and the same fields in each |
| `ReleaseGuard.CheckEntries` | scripts/release_strings.py:225-239 | nothing is reported if and only if every entry is good, and then the table of fields is the entries' own |
| `ReleaseGuard.CheckCall` | scripts/release_strings.py:245-260 | a call is reported if and only if a key with fields is reached without values or with some left out; otherwise it fills the key, waits for another call, or is trusted |
| `ReleaseGuard.CheckCalls` | scripts/release_strings.py:245-260 | the calls are silent if and only if none is bad, and what they fill and leave waiting is collected |
| `ReleaseGuard.CheckWaiting` | scripts/release_strings.py:261-263 | silent if and only if every key that waits was filled by some call |
| `ReleaseGuard.CheckUnproven` | scripts/release_strings.py:264-271 | silent if and only if no key with fields that nothing fills is quoted in the callers, except the declared ones |
| `ReleaseGuard.Check` | scripts/release_strings.py:220-275 | what the guard reports of a surface is exactly each complaint there is about a text, a call, a waiting key or an unproven one, with its key and its fields; and it is silent if and only if there is none |
| `ReleaseGuard.SilentExactly` | scripts/release_strings.py:220-275 | silence, entry by entry: three texts each, not blank, well formed, with the same fields; and of a key with fields, every call for it and every call by a prefix of it hands over all of them or some that cannot be read, save that a call by a prefix may hand over none if another fills the key; and a key that no call is known to fill is declared, or quoted nowhere |
| `ReleaseGuard.ComplaintsAreFailures` | scripts/release_strings.py:220-275 | there is something to complain of if and only if the surface does not pass |
| `ReleaseGuard.FieldsAreSupplied` | scripts/release_strings.py:220-263 | under a silent guard a literal call it can read supplies every field of its key, in each language |
| `ReleaseLexer.Tokens` | scripts/release_strings.py:68-103 | texts, names and punctuation in order, without comments; an unclosed comment or text is refused |
| `ReleaseLexer.ScanQuoted` | scripts/release_strings.py:83-92 | a text ends at its first quote that is not escaped |
| `ReleaseLexer.ReadValues` | scripts/release_strings.py:119-125 | the texts up to the closing bracket; anything but texts and commas is refused |
| `ReleaseLexer.CollectEntries` | scripts/release_strings.py:116-129 | every key with a list of texts, in order; a key seen before is refused |
| `ReleaseLexer.Catalogue` | scripts/release_strings.py:106-132 | the entries of several files together; a missing file, a broken one and an empty catalogue are refused |
| `CataloguePrinting.LexUndoesPrinting` | scripts/release_strings.py:68-103 | tokens written with any blanks and comments between them are read back as those tokens |
| `CataloguePrinting.EverySourceIsPrinted` | scripts/release_strings.py:68-103 | every catalogue whose texts can stand between quotes has a printed file |
| `CataloguePrinting.CataloguesAreReadBack` | scripts/release_strings.py:106-132 | any number of printed files, with unquoted keys among the quoted ones and with or without a last comma, are read back as exactly the properties with a quoted key, in order; they are refused if and only if a key is repeated, also across files, or a file gives no entry |
| `CataloguePrinting.UnclosedIsRefused` | scripts/release_strings.py:75-93 | after anything well written, a comment or a text that is not closed is refused |
| `CataloguePrinting.OneBadValueIsEnough` | scripts/release_strings.py:119-125 | a list with anything but texts and commas is refused, naming its key |
| `CataloguePrinting.TemplatesAreNotTexts` | scripts/release_strings.py:122 | a template string in a list is read as one that the guard reports |
| `CataloguePrinting.UnclosedListEnds` | scripts/release_strings.py:119-129 | a list the file does not close ends with the file |
| `CallReader.ArgsOf` | scripts/release_strings.py:135-167 | the arguments of the call that opens at an index, and where it closes; an unclosed call is refused, and so is one that ends in a lone backslash |
| `CallReader.PrintedCallIsRead` | scripts/release_strings.py:135-167 | a printed list of balanced arguments without commas of their own is read back as those arguments, trimmed, with the index of its closing bracket |
| `ObjectLiteral.NamesReadExactly` | scripts/release_strings.py:173-189 | of any text between braces: a name is read if and only if it stands somewhere, alone or after a comma and before a colon, a comma or the end, in what is left once nested brackets are blanked; no match hides another |
| `ObjectLiteral.GivenNamesExactly` | scripts/release_strings.py:173-189 | of any object literal, empty or not, with or without a last comma: the names read are its properties and what is found in their values, up to the first value that leaves the brackets uneven for the guard, and then what is found in all that follows; when no value does, none is missed, and none is made up if and only if no value shows a comma, a name, and a colon, a comma or the end |
| `ObjectLiteral.GivenNamesAreTheProperties` | scripts/release_strings.py:173-189 | so the names are exactly the properties when quoted texts hold no bracket, and no comma outside brackets |
| `ObjectLiteral.CallTextIsRead` | scripts/release_strings.py:200-211 | the text of a literal call with any object literal is read as that key with those names |
| `ObjectLiteral.KeysAreQuotedExactly` | scripts/release_strings.py:170 | a first argument is a literal key if and only if it is one or more characters, no quote among them, between two quotes of one kind |
| `ObjectLiteral.QuotedCommaMakesUpAName` | scripts/release_strings.py:173-189 | a comma inside a quoted value makes the guard read a name that is not there, and a brace reaches the screen |
| `ObjectLiteral.QuotedBracketHidesAName` | scripts/release_strings.py:173-189 | a bracket inside a quoted value can hide a name that is there: the values that fill the text are taken not to |
| `ObjectLiteral.QuotedBracketMakesUpAName` | scripts/release_strings.py:173-189 | and it can let a name through that is not there: of a literal with the one property `a` the guard reads `a` and `b`, and a brace is left |
| `StringLiterals.VerbatimDecodes` | scripts/release_strings.py:83-93 | a text without escapes is what the interface holds |
| `StringLiterals.NumbersAreRead` | scripts/release_strings.py:85-87 | what the guard keeps as an escape the interface holds as a character: by its number in two digits, in four, or in any between braces |
| `StringLiterals.OtherNumbersAreRefused` | scripts/release_strings.py:85-87 | a script with a number that is none, or of no character, does not load |
| `StringLiterals.NumbersOfCharacters` | scripts/release_strings.py:85-87 | which numbers are characters |
| `StringLiterals.CutShortIsRefused` | scripts/release_strings.py:85-87 | nor does one with a number cut short by the end of its text, or a backslash that ends it |
| `StringLiterals.EmptyBracesAreRefused` | scripts/release_strings.py:85-87 | nor one with braces and no number in them |
| `StringLiterals.LettersAreRead` | scripts/release_strings.py:85-87 | the six letters that stand for control characters |
| `StringLiterals.OctalsAreRead` | scripts/release_strings.py:85-87 | digits of base 8, as many as there are and go up to 377 |
| `StringLiterals.OthersAreThemselves` | scripts/release_strings.py:85-87 | a backslash before any other character stands for nothing |
| `StringLiterals.LineEndsAreTakenOut` | scripts/release_strings.py:85-87 | a backslash takes a line end out, and one without it does not load |
| `ReleaseScreen.AlwaysFilledExactly` | apps/system-ui/ui/installer.js:50-53 | a text is filled by all values for certain names if and only if each opening brace starts a field and each field is one of the names |
| `ReleaseScreen.WhatIsReadIsHeld` | scripts/release_strings.py:106-132 | what the guard reads for a key is what the interface holds, decoded, if the properties that decode to the key are those the guard sees under it |
| `ReleaseScreen.VerbatimKeysAreSeen` | scripts/release_strings.py:106-132 | so they are when quoted keys have no escapes and this one is not also written without quotes |
| `ReleaseScreen.HeldFilledExactly` | scripts/release_strings.py:220-263 | of every key the interface holds, seen by the guard or not: every call the guard has nothing against shows the text filled, on either surface, if and only if its braces are those of its fields and the guard thinks those fields needed, none for a key it does not see |
| `ReleaseScreen.SilentGuardExactly` | scripts/release_strings.py:220-263 | from files to screen, for every key the interface holds: under a silent guard each literal call is one it has nothing against, and these show the text filled if and only if that holds |
| `ReleaseScreen.ShownFilledExactly` | scripts/release_strings.py:220-263 | for a key the guard sees that is if and only if decoding kept the text's braces in fields and brought no field the guard did not see |
| `ReleaseScreen.SilentGuardMeansFilled` | scripts/release_strings.py:220-263 | in particular, for a key the guard sees as the interface holds it: for every literal call with readable values, in all three languages and for all values without an opening brace, the text is shown with every field filled and no brace left, if it is so kept, and it is if it has no escapes |
| `ReleaseScreen.WrittenCallIsFilledExactly` | scripts/release_strings.py:198-263 | from the text of a call with any object literal to the screen, on either surface: a kept text is shown filled if and only if none of its fields is a name that the guard found and the call does not supply |
| `ReleaseScreen.EscapedBraceSlipsThrough` | scripts/release_strings.py:85-87 | a brace written as an escape: the guard is silent, and a brace reaches the screen |
| `ReleaseScreen.QuotedBracketSlipsThrough` | scripts/release_strings.py:173-189 | a call with a bracket inside a quoted value, read as its text: the guard is silent, and a brace reaches the screen |
| `ReleaseScreen.UnquotedKeySlipsThrough` | scripts/release_strings.py:116-118 | a printed file with a key without quotes: the guard reads the file without it and is silent, and a brace reaches the screen |
| `ReleaseScreen.EscapedKeySlipsThrough` | scripts/release_strings.py:116-128 | a quoted key with an escape, another key for the guard and the same for the interface: the guard is silent, and a brace reaches the screen |
| `LineFraming.Conversation.OnBytes` | apps/system-ui/src/main.rs:132-146 | a chunk is kept unless a mebibyte or more is unread |
| `LineFraming.Conversation.Events` | apps/system-ui/src/main.rs:158-173 | the events of exactly the complete lines unread, in order, leaving the tail after the last line end, or nothing on the last look |
| `LineFraming.Conversation.Parsed` | apps/system-ui/src/main.rs:169-172 | each complete line gives its event, and a line that is not one gives none |
| `LineFraming.Conversation.OnPoll` | apps/system-ui/src/main.rs:99-153 | a closed link is told once, at the next look, with all its lines; a missing one is waited for; an open one gives what is complete |
| `LineFraming.LinesRebuild` | apps/system-ui/src/main.rs:162-165 | lines and tail put together again are the bytes received |
| `LineFraming.LinesAreUnique` | apps/system-ui/src/main.rs:162-172 | there is one way to write a stream as complete lines and an unfinished one |
| `LineFraming.CutAtLastLine` | apps/system-ui/src/main.rs:162-165 | cutting at the last line end finds every complete line and leaves the unfinished one |
| `LineFraming.LinesArriveWhole` | apps/system-ui/src/main.rs:132-173 | for every chunking and every interleaving: what was handed on and what waits spell the stream if and only if no chunk was dropped, the lines are its complete lines in order, and at most a mebibyte less one and a chunk wait |
| `LineFraming.LooksHandOnEveryLine` | apps/system-ui/src/main.rs:114-153 | a look hands on every complete line and leaves only the tail; the last look leaves nothing, and a new link starts with nothing of the old one |
| `LineFraming.LinkIsItsConnection` | apps/system-ui/src/main.rs:110-153 | in every run the link is held while there is a connection, and marked closed if and only if the engine has closed that very connection |
| `LineFraming.KeptOrDropped` | apps/system-ui/src/main.rs:132-146 | of what arrives while a mebibyte or more waits nothing is kept, and of anything else everything |
| `LineFraming.ReadsAreTaken` | apps/system-ui/src/main.rs:132-146 | a read brings up to four kibibytes while the engine has not closed its end |
| `LineFraming.TheWaitIsBounded` | apps/system-ui/src/main.rs:132-146 | less than a mebibyte and four kibibytes ever waits |
| `LineFraming.LineFeedEndsALine` | apps/system-ui/src/main.rs:162-165 | a line ends at the first line feed, and what follows is cut by itself |
| `LineFraming.ReturnsAreDropped` | apps/system-ui/src/main.rs:166-172 | a carriage return before each line end changes no event |
| `LineFraming.EventsAreInOrder` | apps/system-ui/src/main.rs:169-172 | each line that is an event gives it, in its place, and any other nothing |
| `Seat.BarOf` | apps/compositor/src/handlers.rs:146 | the bar is forty-four high, or as high as the screen if that is less |
| `Seat.BarAndBelowPartition` | apps/compositor/src/handlers.rs:146-176 | the bar and the area below it share out the screen point by point, for every height, also under the bar's own |
| `Seat.WithoutKeeps` | apps/compositor/src/handlers.rs:266 | the windows that stay are all but the destroyed one, each once |
| `Seat.ArrangedFollowsPolicy` | apps/compositor/src/handlers.rs:130-188 | arranging puts the live windows exactly where the policy says, whatever was mapped before |
| `Seat.StepFollowsPolicy` | apps/compositor/src/handlers.rs:247-297 | no request, input, answer or refresh takes the screen away from the policy |
| `Seat.ScreenIsThePolicy` | apps/compositor/src/handlers.rs:130-188 | in every reachable state the live windows shown and their rectangles are a function of who is trusted, full screen, session and applications: nothing without a trusted surface, it alone while exclusive, and otherwise the bar and the newest application |
| `SeatHistory.WindowsAreWhereTheyBelong` | apps/compositor/src/handlers.rs:130-193 | in every reachable state, in numbers: nothing without a trusted surface; it alone over the whole screen while exclusive; otherwise it as a bar of forty-four, or of all there is, at the top, and the newest application over all that is below; each asked for exactly what it has, and no other window shown |
| `SeatHistory.OnlyTheInterfaceIsTrusted` | apps/compositor/src/handlers.rs:247-256 | in every run who is trusted was created by the interface process while nobody was |
| `SeatHistory.LastIsNewest` | apps/compositor/src/handlers.rs:247-268 | in every reachable state the applications are the live windows that are not trusted, in the order they came |
| `SeatHistory.FullAtFirst` | apps/compositor/src/handlers.rs:272-297 | the whole screen is the trusted surface's until the one then trusted gives it up, and again when it asks |
| `SeatHistory.NothingMappedWithoutTrust` | apps/compositor/src/handlers.rs:179-184 | in every reachable state without a trusted surface not even a window already gone stays mapped |
| `SeatHistory.RefreshDropsTheGone` | apps/compositor/src/drm.rs:403 | a refresh unmaps exactly the windows that are gone, so that no press after it reaches one |
| `Seat.SessionIsLastVerdict` | apps/compositor/src/session.rs:33-57 | the session counts as active if and only if the last answer said so and the person had not been idle too long |
| `SeatHistory.SessionIsLiveExactly` | apps/compositor/src/session.rs:33-57 | and in numbers: if and only if the last answer said active and, if it gave a number of seconds, the person had done something since less than that before it |
| `Seat.AppsShownOnlyInASession` | apps/compositor/src/session.rs:33-57 | an application is on the screen only beside a trusted surface that gave up the whole screen, and only after a last answer of an active session that is not idle |
| `Seat.FocusIsGoodExactly` | apps/compositor/src/input.rs:91-108 | the keyboard is with no window or a live mapped one, and with the trusted surface while it is alone, if and only if it was not last given by a press on a window already gone |
| `Seat.FocusCanBeGone` | apps/compositor/src/handlers.rs:258-268 | that press happens: a run in which an application is destroyed, is still mapped, and is given the keyboard |
| `SeatHistory.KeyboardExactly` | apps/compositor/src/input.rs:91-108 | in every reachable state the keyboard is with the window last pressed since windows were last put in their places, and otherwise with the newest application, the trusted surface when it is alone, or none |
| `SeatHistory.PointerStaysInside` | apps/compositor/src/input.rs:75-90 | in every run the pointer stays on the screen |
| `SeatHistory.ClampedIsNearest` | apps/compositor/src/input.rs:81-82 | a motion is held at the nearest place on the screen |
| `Seat.ChangesAreRequested` | apps/compositor/src/handlers.rs:188 | what is to be seen changes only together with a request to draw |
| `SeatHistory.FramesAreAskedFor` | apps/compositor/src/handlers.rs:55-188 | new contents, a moved pointer and windows put in their places each ask for a frame, and nothing else does |
| `Compositor.Compositor.Arrange` | apps/compositor/src/handlers.rs:130-240 | the windows, the size and kind they are asked for, the keyboard and the request to draw that follow from who is there; the applications and nothing else leave the screen when they must |
| `Compositor.Compositor.NewToplevel` | apps/compositor/src/handlers.rs:247-256 | the first window of the interface process becomes the trusted surface, and every other one an application, the newest last |
| `Compositor.Compositor.ToplevelDestroyed` | apps/compositor/src/handlers.rs:258-268 | the window destroyed is neither trusted nor an application any more, and the rest is arranged |
| `Compositor.Compositor.FullscreenRequest` | apps/compositor/src/handlers.rs:272-297 | only the trusted surface takes the whole screen, and only it gives the screen up |
| `Compositor.Compositor.SetSessionActive` | apps/compositor/src/session.rs:52-57 | the windows are arranged again only when the session changes |
| `Compositor.Compositor.FollowSession` | apps/compositor/src/session.rs:33-50 | anything but an answer of an active session counts as none, and an idle one as locked |
| `Compositor.Compositor.OnInput` | apps/compositor/src/input.rs:23-119 | a relative motion is held on the screen and draws the pointer where it is, and a press gives the keyboard to the window under it unless the pointer is grabbed |
| `Compositor.Compositor.Render` | apps/compositor/src/drm.rs:319-406 | a frame is drawn only if something changed and none is pending; the mark is taken before the attempt; a pointer whose element cannot be built is left out of a frame that is queued all the same; windows already gone leave the screen after it |
| `Compositor.Compositor.OnVBlank` | apps/compositor/src/drm.rs:257-281 | a frame that reached the screen lets the next one be drawn |
| `Compositor.NextInStep` | apps/compositor/src/drm.rs:312-405 | every callback keeps the marks of drawing in step with the changes of the seat |
| `Compositor.EveryChangeIsDrawnOrMarked` | apps/compositor/src/drm.rs:337-405 | in every reachable state each change of windows, contents or pointer is drawn or still marked, unless the last attempt failed on the GPU or left the pointer out, and then it is not on the screen |
| `Compositor.AChangeIsLost` | apps/compositor/src/drm.rs:337-405 | both losses happen, at the first frame: after a frame that could not be queued, and after one queued without its pointer, nothing complete has been drawn and nothing is marked |
| `Compositor.WholeFramesLoseNothing` | apps/compositor/src/drm.rs:337-405 | in every reachable state: if the last frame attempted was whole, what is to be seen is drawn or marked; if it was not, it is marked or lost; and before the first attempt it is marked |
| `Compositor.NextIsPaced` | apps/compositor/src/drm.rs:257-281 | an event keeps the count of frames if and only if it is not a vertical blank that answers no frame |
| `Compositor.PacedExactly` | apps/compositor/src/drm.rs:245-281 | between activations the frames queued and not confirmed are none or one, and one exactly while a frame is pending, if and only if each vertical blank answers a queued frame |
| `Compositor.NeverTwoFrames` | apps/compositor/src/drm.rs:337-339 | no frame is queued while another is on its way |
| `Sessions.SessionStore.Get` | apps/workspace/src/session.rs:148-152 | a session is found only while it lives |
| `Sessions.SessionStore.Update` | apps/workspace/src/session.rs:159-162 | a session held, also an expired one, is changed and the change's own answer given |
| `Sessions.SessionStore.Sweep` | apps/workspace/src/session.rs:171-177 | the expired sessions go, and with them their desks |
| `Sessions.SessionStore.WithDesk` | apps/workspace/src/session.rs:184-194 | the desk of a live session, new if it had none, is read and changed; no desk is made for anyone else |
| `Sessions.DesksBelongToSessions` | apps/workspace/src/session.rs:80-168 | in every reachable state, for any clock and any identifiers, whatever was created, changed or removed, each desk belongs to a session |
| `SessionHistory.RemovedIsGone` | apps/workspace/src/session.rs:164-168 | once a session is removed, whoever asks for it, for its desk or for a change to it is told there is none, until one is created again under its identifier, and that one starts with a blank desk |
| `SessionHistory.OthersAreUntouched` | apps/workspace/src/session.rs:138-194 | nothing done to one session touches another or its desk, and a sweep touches none that lives |
| `SessionHistory.SessionIsItsHistory` | apps/workspace/src/session.rs:138-177 | at any moment of any run, however often the store was swept, who asks for a session is given what its creation and its own updates made of it, if it was not removed and has not expired, and nothing otherwise |
| `SessionHistory.UpdateAnswers` | apps/workspace/src/session.rs:159-162 | an update answers with what the change says of that |
| `SessionHistory.DeskAnswers` | apps/workspace/src/session.rs:184-194 | a use of the desk answers with what the use says of the desk its own uses made |
| `Sessions.SweepingIsInvisible` | apps/workspace/src/session.rs:171-177 | for any interleaving with a clock that does not go back, no identifier given out again while the desk of its expired session is held, and no update that brings an expired session back, callers are told the same with the sweeps and without them |
| `Sessions.DeskIsItsHistory` | apps/workspace/src/session.rs:184-194 | a session live at the end has the desk that its own uses made, whatever was done to others, however its expiry was moved while it lived, and however often the store was swept |
| `Sessions.LivesUntilItsExpiry` | apps/workspace/src/session.rs:148-177 | a session whose expiry no update moves is live at the end of a run if and only if its expiry is later, and then has it unchanged |
| `Sessions.RevivalIsSeenExactly` | apps/workspace/src/session.rs:159-162 | an update lets a sweep before it be noticed if and only if it brings an expired session back |
| `Sessions.RevivalIsSeen` | apps/workspace/src/session.rs:159-162 | such an update, at one run |
| `Sessions.ReuseIsSeen` | apps/workspace/src/session.rs:138-142 | an identifier given out again over the desk of an expired session lets it be noticed too, at one run |
| `HostCache.HostCache.Get` | apps/workspace/src/access.rs:170-175 | an answer is given while it is younger than its time to live |
| `HostCache.HostCache.Put` | apps/workspace/src/access.rs:188-201 | a full cache drops what is old, and a new name enters only if there is room then |
| `HostCache.HostCache.Finish` | apps/workspace/src/access.rs:224-243 | what the Core's answer means for the host asked about, kept unless the Core did not answer |
| `HostCache.PutDropsNoRecentAnswer` | apps/workspace/src/access.rs:188-201 | a put keeps the bound of 256 and takes away no good answer of another host |
| `HostCache.PutIsRefusedExactly` | apps/workspace/src/access.rs:196-199 | a new answer is refused if and only if 256 good answers of other hosts take the room |
| `HostCache.HitsAreRecentAnswers` | apps/workspace/src/access.rs:163-243 | in every run, with any number of resolutions under way: at most 256 entries, and each hit is what the Core said about that same host less than the time to live ago and after the last clearing, never that it is down |
| `HostCache.HitsAreWhatTheCoreSaid` | apps/workspace/src/access.rs:163-243 | in every run and in numbers: at most 256 hosts are remembered; one is served only if less than five seconds ago the Core answered about it with an active endpoint, called disabled only if with a disabled one, unverified only if with one of another state, unknown only if with 404; and nothing was forgotten since |
| `HostCache.AnswerIsServed` | apps/workspace/src/access.rs:188-243 | an answer is served for exactly five seconds if there is room for it, and none that the Core is down is kept |
| `HostCache.AskingWaitsExactly` | apps/workspace/src/access.rs:212-215 | who asks is answered from the cache or waits for the Core |
| `HostCache.ClearingReachesExactly` | apps/workspace/src/access.rs:204-243 | at any point of any run, something asked before a clearing can be served after it if and only if a question about that host is under way |
| `Cidr.ParseUndoesPrinting` | apps/workspace/src/access.rs:47-66 | a block written with or without a prefix, in any white space, is read back; without one it is a single address |
| `Cidr.ParsedIsValid` | apps/workspace/src/access.rs:55-65 | every block read has a prefix its family allows |
| `Cidr.ParsesExactly` | apps/workspace/src/access.rs:47-66 | a block is read if and only if its address is one the platform reads and what follows a slash is a number, perhaps after a plus and zeros, that the family allows; anything else is refused |
| `Cidr.MaskIs` | apps/workspace/src/access.rs:72-76 | the shift stays under the width, and the mask is the ones above the cut |
| `Cidr.AndWithMask` | apps/workspace/src/access.rs:77 | masking an address keeps what is above the cut and clears the rest |
| `Cidr.ContainsIsDivision` | apps/workspace/src/access.rs:69-89 | an address is in a block if and only if the families agree and the quotients by two to the bits below the prefix are equal |
| `Cidr.BlockIsARange` | apps/workspace/src/access.rs:69-89 | a block is a run of consecutive addresses, as many as those bits can count |
| `Cidr.BlocksNestOrAreApart` | apps/workspace/src/access.rs:69-89 | two blocks of one family are nested or disjoint (section 3.1 of RFC 4632) |
| `Cidr.GatewayTestIsMembership` | apps/system-ui/ui-tests/installer-fake.js:83-86 | the installer's test of a gateway by division decides membership of the address's own block |
| `SemVer.FirstThree` | scripts/advisory_gate.py:89-97 | exactly three numbers, whatever was given |
| `SemVer.Parse` | scripts/advisory_gate.py:79-109 | the key of a version text; a part of the core that is not a number is refused |
| `SemVer.KeysAreOrdered` | scripts/advisory_gate.py:79-109 | the keys are in a strict total order: no key below itself, transitive, and any two comparable |
| `SemVer.KeysComparePrecedence` | scripts/advisory_gate.py:79-109 | keys compare exactly as section 11 of Semantic Versioning 2.0.0 orders versions, and are equal exactly when the versions differ at most in build metadata (section 10) |
| `SemVer.PrintedVersionIsRead` | scripts/advisory_gate.py:79-109 | a well-formed version, printed, is read as its key |
| `SemVer.TextsComparePrecedence` | scripts/advisory_gate.py:79-109 | so the texts of two versions compare as the versions do |
| `SemVer.NumbersAreRead` | scripts/advisory_gate.py:93-97 | missing numbers are zeros and those after the third do not count |
| `SemVer.OnlyNumbersAreRead` | scripts/advisory_gate.py:86-92 | a text is read if and only if its core is numbers between points, whatever follows |
| `SemVer.RefusedIsNamed` | scripts/advisory_gate.py:86-92 | what is refused is named without its build metadata |
| `AdvisoryGate.HoldsBetween` | scripts/advisory_gate.py:112-127 | a constraint that holds of two versions holds of what lies between |
| `AdvisoryGate.RangesAreConvex` | scripts/advisory_gate.py:130-139 | what lies between two versions in a range is in it |
| `AdvisoryRanges.ConstraintMeansItsSign` | scripts/advisory_gate.py:112-127 | a constraint, however it is spaced, holds of a version if and only if its sign says so of the two by section 11 of Semantic Versioning 2.0.0 |
| `AdvisoryRanges.TwoEqualSignsNeedSpace` | scripts/advisory_gate.py:114 | two equal signs at once before the version cannot be read |
| `AdvisoryRanges.NoConstraintIsRaised` | scripts/advisory_gate.py:114-116 | white space alone, or two words, are raised as no constraint |
| `AdvisoryRanges.VersionIsRaised` | scripts/advisory_gate.py:117 | a version that cannot be read is raised as it is, with any constraint that can |
| `AdvisoryRanges.RangeMeansItsLimits` | scripts/advisory_gate.py:130-139 | a range holds of a version if and only if each of its constraints does, and is refused if it has none |
| `AdvisoryGate.Evaluate` | scripts/advisory_gate.py:145-181 | the findings, sorted, or the first error that is met |
| `AdvisoryGate.Grouped` | scripts/advisory_gate.py:155-157 | each package's advisories, in the order given |
| `AdvisoryGate.PackagesJudgedAreHits` | scripts/advisory_gate.py:159-180 | nothing is raised if and only if every pair with one name can be judged, and then the pairs that hit are found |
| `AdvisoryGate.SortedIsAStableSort` | scripts/advisory_gate.py:180-181 | the same findings, by severity descending, package and advisory, and equals in the order they had |
| `AdvisoryGate.FindingsAreExactlyTheHits` | scripts/advisory_gate.py:145-181 | when nothing is raised, the findings are a permutation of exactly the pairs with equal name, severity at or above the floor and version in range, in order |
| `AdvisoryRanges.LevelsAreRanked` | scripts/advisory_gate.py:36-42 | four levels in this order, the second with two names, in any capitals |
| `AdvisoryRanges.FindingsAreTheAffected` | scripts/advisory_gate.py:145-181 | of packages and advisories as they should be written: a finding is made if and only if some package has the advisory's name, a version in its range and the severity is at least the floor, and it says which |
| `AdvisoryRanges.FindingsAreInOrder` | scripts/advisory_gate.py:180-181 | worst first, then by package, then by advisory, by the first letter that differs |
| `AdvisoryRanges.FirstErrorIsRaised` | scripts/advisory_gate.py:151-170 | what is raised is what the first pair raises that cannot be judged, unless the floor is unknown |
| `AdvisoryRanges.SeverityComesFirst` | scripts/advisory_gate.py:162-168 | an unknown severity is raised whatever the range, and below the floor the range is not looked at |
| `AdvisoryGate.HigherFloorFindsLess` | scripts/advisory_gate.py:151-170 | a higher floor finds a sub-multiset, and raises nothing where a lower one did not |
| `LockFile.ParseLock` | scripts/advisory_gate.py:54-73 | a name waits for the version after it, a new package forgets it, and each pair is kept in order |
| `LockFile.PrintedLockIsRead` | scripts/advisory_gate.py:54-73 | a printed lock file is read back as its packages, in order, whatever stands before them and between their lines |
| `LockFile.CutsALine` | scripts/advisory_gate.py:63 | a line is cut at exactly the characters that end one for the platform |
| `LockFile.QuotesAreTakenOff` | scripts/advisory_gate.py:68-70 | all quotes around a value are taken off |
| `DependencyGate.Compare` | scripts/architecture_boundaries.py:350-369 | each edge the table lacks and each it has in vain is reported once, and nothing else |
| `DependencyGate.FindPromoted` | scripts/architecture_boundaries.py:566-587 | the edges of tests that have become edges of production, once each |
| `DependencyGate.FindBuilt` | scripts/architecture_boundaries.py:621-626 | every edge of a build is reported once |
| `DependencyGate.Check` | scripts/architecture_boundaries.py:557-626 | the problems of the three graphs, each once, and no other |
| `DependencyGate.SilentExactlyWhenEqual` | scripts/architecture_boundaries.py:557-626 | the gate says nothing of edges if and only if production and tests have exactly the edges of their tables and builds have none |
| `DependencyGate.TablesByUse` | scripts/architecture_boundaries.py:42-162 | the tables, read the other way: each crate may be used by those named and by no other |
| `DependencyGate.SilentByUse` | scripts/architecture_boundaries.py:557-626 | so the gate is silent if and only if each crate is used as the tables say, in production and in tests, and nothing is in builds |
| `DependencyGate.EachEdgeReportedOnce` | scripts/architecture_boundaries.py:566-591 | a production edge outside its table is reported exactly once: as promoted if the tests may have it, as new otherwise |
| `DependencyGate.EdgesGoDown` | scripts/architecture_boundaries.py:62-162 | every edge of the production table leads to a lower crate |
| `DependencyGate.PassingGraphKeepsTheBoundary` | scripts/architecture_boundaries.py:42-162 | in every passing production graph there is no cycle, no path from the Workspace to the Core, its domain or its server, and none to the Core but from its server and its worker |
| `PercentDecoding.Decode` | apps/workspace/src/session.rs:338-355 | the escapes undone from left to right, or the empty text if what comes out is not UTF-8 |
| `PercentDecoding.ChangesExactlyEscapes` | apps/workspace/src/session.rs:338-355 | decoding never lengthens, changes nothing if and only if no escape stands anywhere, and otherwise shortens |
| `PercentDecoding.DecodedUndoesExactly` | apps/workspace/src/session.rs:338-355 | an encoding is undone if and only if no percent sign was left that reads as the start of an escape |
| `PercentDecoding.ValueUndoesEncoding` | apps/workspace/src/session.rs:338-355 | every percent-encoding (section 2.1 of RFC 3986) of a text is undone, whichever bytes were escaped and in either case, if `%` was |
| `PercentDecoding.PlainTextIsItself` | apps/workspace/src/session.rs:338-355 | text without a percent sign is its own value |
| `PercentDecoding.PlusReadsOneDigit` | apps/workspace/src/session.rs:342-347 | a plus sign in an escape stands for no digit |
| `PercentDecoding.OnlyTextComesOut` | apps/workspace/src/session.rs:354 | what does not come out as text is empty, and all else is what comes out |
| `ReturnTarget.MatchIsInstance` | apps/workspace/src/boot.rs:276-290 | a path fits a route if and only if, without its outer slashes, it is the route with a value for each parameter |
| `ReturnTarget.MatchesWhatIsBuilt` | apps/workspace/src/boot.rs:276-290 | a path fits a route if and only if it is the route with something put in each place in braces: every other segment is the route's own |
| `ReturnTarget.PlainRouteIsItself` | apps/workspace/src/boot.rs:276-290 | a route without braces lets only itself through |
| `ReturnTarget.SlashesDoNotCount` | apps/workspace/src/boot.rs:276-290 | slashes around a path do not count |
| `ReturnTarget.PathEnds` | apps/workspace/src/boot.rs:265 | a path ends at the first question mark or number sign |
| `ReturnTarget.AcceptedExactlyInternal` | apps/workspace/src/boot.rs:247-269 | a target is returned, unchanged, if and only if it starts with one slash, has nothing refused in it and its path is an instance of a route of the catalogue |
| `ReturnTarget.AcceptedExactlyBuilt` | apps/workspace/src/boot.rs:247-290 | so a target is accepted if and only if it starts with one slash, has no control character, backslash, colon or at sign, and its path is built from a route |
| `ReturnTarget.EveryInstanceIsAccepted` | apps/workspace/src/boot.rs:247-290 | every instance of a route with non-empty parameters and any query, free of the refused characters, is accepted unchanged |
| `ReturnTarget.AcceptedStaysHere` | apps/workspace/src/boot.rs:248-263 | no accepted target has a scheme or is a network-path reference (section 4.2 of RFC 3986), also for a browser that takes backslashes for slashes |

## Left out

- InstallerConversation.DisciplinedRunIsAligned: states alignment for runs in which nothing is asked or confirmed while overtaken, because in other runs it is false; `AskingIsSafeExactlyInTime` and `ConfirmingIsSafeExactly` say exactly when a step keeps it, and `AnswersCanReachTheWrongQuestion` gives a run that breaks it.
- InstallerErasure.OnlyReviewedDiskIsWritten: asks that no confirmation is sent while overtaken, because otherwise it is false (`UnseenDiskIsCommitted`); `CommitsTheShownExactly` is the exact condition, for every run.
- ReleaseScreen.WhatIsReadIsHeld: ties the guard's entry to the interface's text only for keys that the guard sees as the interface holds them; for the others, where nothing need be common (`UnquotedKeySlipsThrough`), `HeldFilledExactly` and `SilentGuardExactly` say when they are shown filled.
- ObjectLiteral.GivenNamesExactly: covers properties written as a plain name, with or without a value; computed and quoted names, spreads, methods and comments inside a literal are not, and of those `NamesReadExactly` alone says what is read.
- StringLiterals.Decode: half of a surrogate pair, which is no character here, stands for the replacement character; octal escapes are read, as a script outside strict mode does.
- ReleaseLexer.Tokens: takes letters, digits and white space of ASCII outside texts and comments, where the platform also knows those of Unicode.
- InstallerEngine.Engine.PerformAtNetwork: says that settings are refused, and of a disk or a host name likewise, not with which of the engine's codes, which the window only shows.
- LineFraming.Conversation.Events: takes the reading of one line as an event as a parameter and works on bytes, so neither JSON nor the replacement of bytes that are not UTF-8 is modelled.
- DependencyGate.Check: says which problems are reported and how often, not in which order, since the code sorts sets of names only for printing.
- AdvisoryGate.Evaluate: lower-cases ASCII letters only, and takes the platform's sort as a stable insertion sort.
- SemVer.Parse: trims the white space of ASCII and takes ASCII digits as digits, where the platform also knows those of Unicode.
- Cidr.ParseUndoesPrinting: takes the platform's reading of an address as a parameter.
- PercentDecoding.Decode: takes the platform's judgement of UTF-8 as a parameter.
- The engine of the real installer: `installer-fake.js` is the only statement of its side here; the upper-casing of tokens is a parameter of the machine.
- The forms of the installer window (the text of network and host name fields, focus, languages, the report of a session that installs nothing) and all drawing of HTML and CSS.
- Claims about the automatic `continue` after a setting while something else is in flight: `NetworkGoesOn` and `HostnameGoesOn` are for a window and an engine that are settled; what is pending survives a closed link and a double submission, so it is carried in the model everywhere.
- The moments before the screen is taken, when arranging returns at once (apps/compositor/src/handlers.rs:137-145): the model starts after `drm::init`, which main.rs runs before any client.
- The request to lock that an idle session sends to the Session Service (apps/compositor/src/session.rs:45): what it does to the windows is modelled, the request is not.
- Popups, cursors, keyboard layouts, terminal switching, and which surface is under the pointer: a press may reach any mapped window.
- The names of keys in callers' text by other forms than a literal (a prefix, a choice of quoted keys), the search for calls, and the scan for terminal prompts (scripts/release_strings.py:171-172, 213-217, 276-286): the guard's own treatment of prefix calls is modelled, their reading is not.
- Cookies, hosts of requests and proxies' headers (apps/workspace/src/access.rs:95-118), the fetching of advisories, files, sockets, subprocesses and timers.
- The list of what the Experience may link (scripts/architecture_boundaries.py:595-622) and the reading of the graphs from Cargo.
- Concurrency inside one step: each operation under a lock, and each callback of the event loop, is one step.
