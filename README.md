# E-SAT exam portal: a verified model of its core

E-SAT is a browser-based exam portal. Students register, log in, pass an access-code gate and sit a timed exam in fullscreen. A client-side integrity monitor watches for copying, pasting, screenshot keys, tab switches and fullscreen exits. Each violation is logged locally and, except fullscreen exits, also filed as an incident in a hosted database. After six screenshots or six tab switches, an English-titled exam is cancelled unless an administrator has enabled a retake. Administrators filter and page the student list, toggle retakes, flag incidents, edit questions, and import or export questions as CSV. A dev-server middleware keeps an in-memory session table behind a `Cookie` header parser.

This project models that core in Dafny and proves properties of the model. Module by module:

- `Base`:
  - `Option`;
  - the database key (exam id, admission id);
  - lookup results;
  - the routes a page can navigate to.
- `Text`: the JavaScript string operations the pages rely on:
  - `trim` over the ECMAScript white-space set;
  - ASCII `toLowerCase`;
  - `includes`, `startsWith`, `split`, `indexOf`, `slice`;
  - decimal digits.
- `Store`: the three tables `exam_submissions`, `exam_incidents` and `exam_retake` as maps in a `Backend` class. Every call takes a success flag, so failures are inputs.
- `SecureExam`: the integrity monitor hook `useSecureExam`, as a `Monitor` class driven by browser events.
- `ExamSession`: the exam page.
  - Pure parts: the access-code gate, the clock display, scoring, the entry checks and the cancellation rule.
  - The page itself is an `ExamPage` class: timer ticks, snapshot and recovery, the threshold effect and `handleEndExam`.
- `QuizPlayer`: the question player, as the `Player` class, with answers, flags, navigation, scoring and the save chain with its local pending queue.
- `Dashboard`: exam row mapping, the gate in front of an exam, and how exam cards are shown.
- `Admin`:
  - the student filter and pagination;
  - exam status encoding and exam-id validation;
  - question ordering, validation, CSV export and import;
  - retake flags and answer statistics.
- `DevServer`: the `Cookie` parser and the `AuthMiddleware` session table of the dev server.
- `PageTitle`: the longest-prefix page-title lookup.
- `Registration`, `PasswordChange`, `Login`: the validation chains of the three forms, the admission-id generator and the registration countdown.
- `Chat`: the support chat panel, including its de-duplicated realtime insert.
- `VerbalReasoning`: the verbal-reasoning quiz state machine.
- `ExamCancelled`: the cancellation page message and its countdown.
- `ImportQuestions`: the question import script, with batches of 20.

Modelling choices:

- Database reads and writes, router navigation, `localStorage`, timers, random numbers and the clipboard read are inputs or state fields:
  - a navigation is a `Route` value;
  - `localStorage` is a map or a field;
  - a timer tick is a method call;
  - a random draw is a parameter;
  - the clipboard is a `ClipboardRead` value.
- Scores and point values are exact `real`s, so fractional marks such as 2.5 are represented exactly.

The code is followed wherever it differs from the comments or the intended design:

- The monitor files incidents even when a retake is enabled. The retake flag is consulted only by the pages.
- The exam page blocks a student when the configured access code is blank. The comment at src/pages/Exam.tsx:24 says no code is required then (`ExamSession.BlankCodeBlocks`).
- `handleEndExam` has no re-entry guard. No idempotence is claimed for it.
- Both the typed access code and the configured code are trimmed before the comparison.
- The dashboard checks incidents before submissions, and the exam page checks them the other way round (`Dashboard.DashboardAndExamPageDisagree`).

Three methods are worked examples, not part of the source. Each drives a class through a short run whose expected states are stated as assertions, so they have no contract and no row below:

- `ExamSession.ReloadScenario`: a reload in the middle of an English exam. The saved clock comes back, the first threshold evaluation cancels nothing, and the next tick counts down.
- `SecureExam.MonitorScenario`: a copy is ignored while the monitor is inactive and logged once it is active; after deactivation a tab switch is ignored again.
- `QuizPlayer.BlankAnswerScenario`: a blank answer marks its question answered in the grid but not in the review.

## Model

| member | source | states |
|---|---|---|
| Store.Merge | src/pages/Exam.tsx:214-217 | an update writes score, total and answers from the payload and keeps the stored status when the payload has none |
| Store.StatuslessPayloadKeepsStatus | src/components/QuizPlayer.tsx:125-132 | the quiz player's payload sets no status, so writing it over a row keeps that row's status and replaces only score, total and answers |
| Store.Backend.constructor | src/pages/Exam.tsx:175-180 | the three tables start as given |
| Store.Backend.SubmissionLookup | src/pages/Exam.tsx:175-180 | a failed call is Failed; otherwise Found exactly when the key has a row, and then it returns that row |
| Store.Backend.FirstIncident | src/pages/Dashboard.tsx:183-189 | an unordered limit(1) lookup: Found exactly when an incident exists for the key; the reason returned is one of the key's reasons, and any of them can be the one (the database's choice is an argument) |
| Store.Backend.LatestIncident | src/pages/Exam.tsx:409-416 | the newest-first lookup: Found exactly when an incident exists for the key, and then it returns the most recent reason |
| Store.Backend.InsertSubmission | src/pages/Exam.tsx:197-199 | an insert succeeds only when the call succeeds and no row exists for the key (unique key); on success only that key changes, and the other tables are unchanged |
| Store.Backend.UpsertSubmission | src/pages/Exam.tsx:205-207 | an upsert on (exam_id, admission_id) adds the row or merges the payload into the existing one; other tables are unchanged |
| Store.Backend.UpdateSubmission | src/pages/Exam.tsx:214-217 | an update merges into an existing row and never creates one |
| Store.Backend.InsertIncident | src/pages/Exam.tsx:88-95 | a successful insert appends the reason to the key's incidents; nothing else changes |
| Store.Backend.EnableRetakeRow | src/pages/Admin.tsx:416-418 | a successful upsert sets the key's retake flag to true |
| Store.Backend.InsertRetakeRow | src/pages/Admin.tsx:424 | a plain insert succeeds only for a key without a retake row |
| Store.Backend.DeleteRetakeRow | src/pages/Admin.tsx:550-554 | a successful delete removes the key's retake row |
| Store.Backend.ZeroScore | src/pages/Admin.tsx:466 | sets the score of the key's submission to 0 when one exists |
| SecureExam.KeyDownHits | src/hooks/useSecureExam.ts:65-98 | at most three keydown rules fire; the count is non-zero exactly when PrintScreen, Ctrl/Meta+Shift+S or Meta+Shift+3/4/5 matches |
| SecureExam.KeyDownScreenshots | src/hooks/useSecureExam.ts:65-91 | a keydown logs only screenshots, one per matching rule, or two per rule when the clipboard holds an image |
| SecureExam.BlockedShortcutNotLogged | src/hooks/useSecureExam.ts:94-97 | Ctrl/Meta+F and Ctrl/Meta+U have their default blocked and log nothing |
| SecureExam.PrintScreenPressCountsTwice | src/hooks/useSecureExam.ts:70-108 | one PrintScreen press (keydown then keyup) logs at least two screenshots even with an empty clipboard; there is no de-duplication |
| SecureExam.BlurLogsOnlyOnImage | src/hooks/useSecureExam.ts:124-130 | a window blur logs one screenshot when some item of the clipboard read offers an image/ type, and nothing when no item does or when there is no read API |
| SecureExam.ReasonIdentifiesKind | src/hooks/useSecureExam.ts:36 | the reason "<type> detected" is injective in the violation type |
| SecureExam.FullscreenExitNeverSent | src/hooks/useSecureExam.ts:31-44 | logging any types keeps the earlier requests, adds at most one per type except exit-fullscreen, and none of the added requests is a fullscreen exit |
| SecureExam.CountOfLogged | src/hooks/useSecureExam.ts:17-29 | the per-type count of the log after appending grows by exactly the count of appended types, which ties screenshotCount to the log |
| SecureExam.Monitor.constructor | src/hooks/useSecureExam.ts:15-47 | the first render: empty log, no listeners, not active, fullscreen as the document reports |
| SecureExam.Monitor.SetActive | src/hooks/useSecureExam.ts:47-48 | activating attaches exactly the seven listeners and deactivating detaches them all; log and counter unchanged |
| SecureExam.Monitor.LogViolation | src/hooks/useSecureExam.ts:15-45 | appends one entry at the end, keeps screenshotCount equal to the screenshots in the log, and sends the insert unless the type is exit-fullscreen or an id is missing |
| SecureExam.Monitor.TryReadClipboardImage | src/hooks/useSecureExam.ts:169-190 | returns true exactly when some clipboard item has an image/ type, and logs one screenshot in that case only |
| SecureExam.Monitor.Dispatch | src/hooks/useSecureExam.ts:149-165 | an event without an attached listener changes nothing; otherwise the log grows by exactly the event's kinds in order, and copy, paste and blocked shortcuts prevent the default |
| SecureExam.Monitor.HandleLog | src/hooks/useSecureExam.ts:51-62 | copy or paste logs exactly one entry of its type |
| SecureExam.Monitor.HandleKeyDown | src/hooks/useSecureExam.ts:65-98 | the three keydown rules, each followed by its clipboard check; the default is prevented exactly for Ctrl/Meta+F/U |
| SecureExam.Monitor.HandleDetect | src/hooks/useSecureExam.ts:101-120 | a keyup on PrintScreen or a tab becoming hidden logs its type, then a screenshot if the clipboard holds an image |
| SecureExam.Monitor.EnterFullscreen | src/hooks/useSecureExam.ts:192-204 | marks fullscreen and stores the flag unless the request threw; nothing is logged |
| SecureExam.Monitor.ExitFullscreen | src/hooks/useSecureExam.ts:206-216 | clears fullscreen and the stored flag unless the exit threw; nothing is logged |
| ExamSession.AccessGate | src/pages/Exam.tsx:462-477 | a blank entry changes nothing; a blank configured code blocks; otherwise it passes if and only if the trimmed codes are equal ignoring case |
| ExamSession.BlankCodeBlocks | src/pages/Exam.tsx:466-470 | no entry at all opens an exam whose configured code is blank |
| ExamSession.GateIgnoresCase | src/pages/Exam.tsx:472 | lower-casing either code does not change the gate's answer |
| ExamSession.GateIgnoresPadding | src/pages/Exam.tsx:463 | any white space typed before or after the code does not change the gate's answer |
| ExamSession.TwoDigits | src/pages/Exam.tsx:459 | padStart(2, '0') gives at least two digits, exactly two below 100, whose decimal value is the number |
| ExamSession.TimeFieldsExact | src/pages/Exam.tsx:455-458 | minutes and seconds are below 60 and hours*3600 + minutes*60 + seconds is the input |
| ExamSession.FormatTimeShape | src/pages/Exam.tsx:455-460 | below 100 hours the display is exactly HH:MM:SS |
| ExamSession.FormatTimeRoundTrip | src/pages/Exam.tsx:455-460 | reading the display back gives the seconds it was made from, so no information is lost |
| ExamSession.FieldsRoundTrip | src/pages/Exam.tsx:459 | a display of three two-digit fields parses back to their total in seconds |
| ExamSession.CalculateScore | src/pages/Exam.tsx:116-149 | a failed fetch gives {0, 0}; otherwise the loop's score and total are the scoring functions over all questions |
| ExamSession.ScoreAtMostTotal | src/pages/Exam.tsx:133-142 | with non-negative values the score is between 0 and the total |
| ExamSession.NoAnswersScoreZero | src/pages/Exam.tsx:167-172 | with the empty answers the end-of-exam write actually reads, the score is 0 |
| ExamSession.MountDecision | src/pages/Exam.tsx:244-305 | no id goes to login; a submission without retake goes to submitted; a non-empty incident reason without retake and without a submission goes to cancelled with that reason |
| ExamSession.StartDecision | src/pages/Exam.tsx:372-436 | the Start button aborts on any lookup error, redirects on a submission and then on a non-empty incident reason, never consults retake, and starts only otherwise |
| ExamSession.RetakeMountVersusStart | src/pages/Exam.tsx:269-282 | with retake enabled the mount check keeps a student who has a submission, but Start still sends them to submitted |
| ExamSession.SubmissionBeforeIncident | src/pages/Exam.tsx:269-295 | with both records, both paths go to submitted |
| ExamSession.UncountedKindsIgnored | src/pages/Exam.tsx:54-64 | copy, paste and fullscreen exits change neither the threshold test nor the reason |
| ExamSession.ReasonPrefersScreenshots | src/pages/Exam.tsx:87 | the reason is "taking 6 screenshots" whenever screenshots reached six, otherwise tab switches reached six and the reason says so |
| ExamSession.WriteSubmission | src/pages/Exam.tsx:174-218 | the submission table after the end-of-exam write is the update, insert or upsert branch for the key |
| ExamSession.EndWriteCompletes | src/pages/Exam.tsx:196-218 | after a successful lookup and write the key has a completed row with the payload's score, and no other key appears or disappears |
| ExamSession.EndWriteNeedsLookup | src/pages/Exam.tsx:196 | a failed existence check writes nothing |
| ExamSession.ExamPage.constructor | src/pages/Exam.tsx:23-40 | the clock starts at duration*60 (0 without an exam); started exactly when a saved snapshot says so; nothing entered or cancelled |
| ExamSession.ExamPage.SubmitCodes | src/pages/Exam.tsx:462-477 | the gate's answer decides the code-entered flag; nothing else changes |
| ExamSession.ExamPage.MountCheck | src/pages/Exam.tsx:244-308 | the route taken is the mount decision over the retake flag, the submission lookup and whichever incident row the unordered lookup returns |
| ExamSession.ExamPage.ClickStart | src/pages/Exam.tsx:366-369 | a click proceeds only from the start screen with no start pending |
| ExamSession.ExamPage.CompleteStart | src/pages/Exam.tsx:370-453 | the outcome is the start decision over the latest records; the exam starts and the monitor attaches all listeners exactly on Begin, even when fullscreen fails |
| ExamSession.ExamPage.EvaluateThreshold | src/pages/Exam.tsx:43-114 | the threshold effect: skipped before start, after a cancellation, and once after recovery; otherwise it cancels exactly when the exam is English, the log is over the threshold and retake is not enabled, and files one incident with the reason |
| ExamSession.ExamPage.EndExam | src/pages/Exam.tsx:151-242 | clears the snapshot and navigates only when asked; writes only with an admission id and an exam id |
| ExamSession.ExamPage.Tick | src/pages/Exam.tsx:348-362 | a running clock drops by one; at one second or less the exam ends, the clock is 0 and never negative, and the end writes the time-out submission (empty answers, status completed) exactly as `EndExam` does; the start, recovery and server flags are untouched |
| ExamSession.ExamPage.PersistSnapshot | src/pages/Exam.tsx:311-321 | while the exam runs the snapshot holds the current clock; no other page state changes |
| ExamSession.ExamPage.Recover | src/pages/Exam.tsx:324-346 | a saved running snapshot restarts the exam at its saved clock and marks the session recovered; the snapshot, route, verification codes, flags and violation log are untouched |
| QuizPlayer.FindIndex | src/components/QuizPlayer.tsx:70 | findIndex: -1 exactly when no question has the id, otherwise the first index with it |
| QuizPlayer.ScoreAtMostTotal | src/components/QuizPlayer.tsx:81-122 | flagged questions still count in the total; with non-negative values 0 <= score <= total |
| QuizPlayer.FlaggingNeverRaises | src/components/QuizPlayer.tsx:85-86 | flagging more questions never raises the score |
| QuizPlayer.AllFlaggedScoresZero | src/components/QuizPlayer.tsx:86 | with every question flagged the score is 0 whatever the answers |
| QuizPlayer.ClickedOptionMatches | src/components/QuizPlayer.tsx:102-108 | a clicked option index scores exactly when that option's normalised text equals the normalised correct answer |
| QuizPlayer.BlankAnswerPicksFirstOption | src/components/QuizPlayer.tsx:104-108 | Number reads a blank answer as 0, so it is judged as the first option |
| QuizPlayer.TextAnswerMustBeAnOption | src/components/QuizPlayer.tsx:110-115 | a non-numeric answer scores only if the correct answer is one of the options |
| QuizPlayer.ToggleFlipsOne | src/components/QuizPlayer.tsx:247-255 | the flag toggle flips only the given index, and toggling twice restores the set |
| QuizPlayer.UpsertSkipsInsert | src/components/QuizPlayer.tsx:134-142 | a successful upsert stores the payload, attempts no insert and queues nothing |
| QuizPlayer.QueuedEvenWhenRetrySucceeds | src/components/QuizPlayer.tsx:143-165 | once the first insert is refused, the payload is queued locally even though the stringified retry saves it |
| QuizPlayer.SavedOrQueued | src/components/QuizPlayer.tsx:134-192 | every submission is saved or queued; an unsaved one leaves the table unchanged |
| QuizPlayer.Player.constructor | src/components/QuizPlayer.tsx:28-33 | no answers, no flags, no answered indices, index 0 |
| QuizPlayer.Player.HandleSelect | src/components/QuizPlayer.tsx:68-72 | overwrites only answers[qId]; the answered-index set only grows, by the question's index when it is found |
| QuizPlayer.Player.ToggleFlag | src/components/QuizPlayer.tsx:247-255 | the flagged set becomes the toggle of the current index; nothing else changes |
| QuizPlayer.Player.Prev | src/components/QuizPlayer.tsx:291 | the index moves back by one and stops at 0 |
| QuizPlayer.Player.Next | src/components/QuizPlayer.tsx:301 | the index moves forward by one and stops at the last question |
| QuizPlayer.Player.JumpTo | src/components/QuizPlayer.tsx:344 | the grid button sets the index to the question clicked |
| QuizPlayer.Player.ScoreAnswers | src/components/QuizPlayer.tsx:85-122 | the forEach accumulation equals the score function over questions, flags and answers |
| QuizPlayer.Player.PerformSubmit | src/components/QuizPlayer.tsx:74-198 | without an id nothing happens; otherwise the table is the save chain's result, the payload is queued exactly when the chain queues it, and the player always navigates to submitted |
| Dashboard.Minutes | src/pages/Dashboard.tsx:73 | a finite duration is kept, null becomes 0, an absent or non-finite one becomes 90 |
| Dashboard.FromRow | src/pages/Dashboard.tsx:68-75 | a blank title falls back to the id, the access code falls back to the description, status defaults to "" |
| Dashboard.FromRows | src/pages/Dashboard.tsx:68-75 | the rows are mapped one for one in order |
| Dashboard.Loaded | src/pages/Dashboard.tsx:57-76 | remote rows replace the list only when at least one row comes back; an error or an empty answer keeps the current list |
| Dashboard.TitleFallsBackToId | src/pages/Dashboard.tsx:70 | a null or blank title shows the exam id |
| Dashboard.StartFailsOpen | src/pages/Dashboard.tsx:162-211 | a thrown error, or failed incident and submission lookups, let the student into the exam |
| Dashboard.RetakeAlwaysEnters | src/pages/Dashboard.tsx:171-207 | with retake enabled the student enters whatever is on record |
| Dashboard.IncidentBeforeSubmission | src/pages/Dashboard.tsx:183-205 | with both records the student lands on the cancelled page with one of the stored reasons, or "previous dismissal" when it is blank; the row the database returns is the one forwarded |
| Dashboard.DashboardAndExamPageDisagree | src/pages/Dashboard.tsx:183-205 | the same records send the student to cancelled from the dashboard and to submitted from the exam page |
| Dashboard.BadgeText | src/pages/Dashboard.tsx:260-264 | only in-progress and not-ready get display names; any other status is shown raw |
| Dashboard.UnavailableBySubstring | src/pages/Dashboard.tsx:246 | the exact "unavailable" test adds nothing to the substring test |
| Dashboard.EnabledReadsStart | src/pages/Dashboard.tsx:280-288 | a card whose button is enabled reads "Start Exam" |
| Dashboard.EnglishCardAlwaysDisabled | src/pages/Dashboard.tsx:245 | the exam with id elyonaris is always blurred and its Start button disabled |
| Dashboard.DefaultCardsDisabled | src/pages/Dashboard.tsx:45-49 | none of the three built-in cards can be started |
| Admin.Filtered | src/pages/Admin.tsx:388-400 | the result holds exactly the students that match query, section and retake filter, and is no longer than the input |
| Admin.FilteredConcat | src/pages/Admin.tsx:388-400 | filtering distributes over concatenation, so the kept students stay in their original order |
| Admin.FilteredSnoc | src/pages/Admin.tsx:388-400 | a student added at the end of the list is kept at the end exactly when the filters keep it |
| Admin.QueryIgnoresCase | src/pages/Admin.tsx:390-393 | the search is case-insensitive |
| Admin.NoFilterKeepsAll | src/pages/Admin.tsx:390-397 | a blank query with no section and all retake states keeps every student in order |
| Admin.RetakeViewsPartition | src/pages/Admin.tsx:395-396 | the enabled and disabled views together hold as many students as the unfiltered view: each student is in exactly one |
| Admin.TotalPagesBounds | src/pages/Admin.tsx:402 | at least one page, and exactly enough pages of 10 to hold all rows |
| Admin.Paged | src/pages/Admin.tsx:403 | a page is the contiguous slice of at most 10 rows starting at (page-1)*10, empty past the end |
| Admin.RowOnItsPage | src/pages/Admin.tsx:402-403 | every row appears on the page i/10+1, within the page count, at position i%10 |
| Admin.PastLastPageEmpty | src/pages/Admin.tsx:403 | a page past the last one shows nothing |
| Admin.PagingStaysInRange | src/pages/Admin.tsx:839-840 | Prev and Next keep the page within [1, totalPages] |
| Admin.DecodeEncode | src/pages/Admin.tsx:304-318 | decoding an encoded status gives (available, available and blurred) |
| Admin.DecodeLowercase | src/pages/Admin.tsx:304-306 | a lower-case status decodes to (not "unavailable", contains "blur") |
| Admin.DecodeUnavailable | src/pages/Admin.tsx:305 | "unavailable" decodes to neither available nor blurred |
| Admin.DecodeAvailableBlurred | src/pages/Admin.tsx:306 | "available_blurred" decodes to available and blurred |
| Admin.DecodeAvailable | src/pages/Admin.tsx:304-306 | "available" decodes to available and not blurred |
| Admin.ValidExamIdIsTrimmed | src/pages/Admin.tsx:348 | an id the pattern accepts is already trimmed |
| Admin.MaxOf | src/pages/Admin.tsx:1068 | Math.max over a non-empty list is an element and bounds every element |
| Admin.NextOrder | src/pages/Admin.tsx:1068 | a new question's order is 1 for an empty exam, otherwise one past the largest order |
| Admin.QuestionList.constructor | src/pages/Admin.tsx:169 | the list holds the fetched questions |
| Admin.QuestionList.MoveUp | src/pages/Admin.tsx:693-701 | index 0 is a no-op; otherwise the row swaps order with the one above |
| Admin.QuestionList.MoveDown | src/pages/Admin.tsx:703-711 | the last index is a no-op; otherwise the row swaps order with the one below |
| Admin.QuestionList.Exchange | src/pages/Admin.tsx:697-699 | the list becomes the result of the two order updates |
| Admin.SwapExchanges | src/pages/Admin.tsx:697-699 | two successful updates exchange the two order indices and touch nothing else |
| Admin.SwapKeepsOrders | src/pages/Admin.tsx:693-711 | a successful swap keeps the multiset of order indices |
| Admin.HalfSwapDuplicates | src/pages/Admin.tsx:698-699 | if only the first update succeeds, both rows end up with the same order index |
| Admin.TrimAndDropBlankFacts | src/pages/Admin.tsx:127 | the kept options are exactly the non-blank inputs, trimmed |
| Admin.SaveEdit | src/pages/Admin.tsx:123-131 | an edit is rejected exactly when the trimmed text is empty, or options remain and the answer is not one of them |
| Admin.PaddedAnswerRejected | src/pages/Admin.tsx:127-128 | an answer with white space at an end is always rejected when options exist |
| Admin.NonBlank | src/pages/Admin.tsx:1071 | a blank answer is stored as null, otherwise trimmed |
| Admin.UntaggedTextIsStem | src/pages/Admin.tsx:1066-1067 | without subject, bank or media tags the stored text is the trimmed stem |
| Admin.AsWrittenRejectsLastOption | src/pages/Admin.tsx:1050-1052 | as written, with a blank first option, marking the last option is rejected |
| Admin.AsWrittenDropsAnswer | src/pages/Admin.tsx:1053-1071 | as written, a multiple-choice question is stored with a null correct answer when the answer field was never typed in |
| Admin.AddQuestion | src/pages/Admin.tsx:1045-1072 | the intended handler rejects exactly on the type checks; an accepted mcq/media question has at least 2 options and its correct answer is among them; a tf question has True/False; a short/fib question stores the trimmed answer; its order is the next order |
| Admin.IntendedAcceptsMarkedOption | src/pages/Admin.tsx:1050-1053 | the corrected handler accepts both forms the as-written handler gets wrong, with the marked option stored as the answer |
| Admin.ExportRows | src/pages/Admin.tsx:1288-1291 | one exported line per question, in order |
| Admin.ParseLines | src/pages/Admin.tsx:1271-1272 | one parsed row per import line |
| Admin.OptionsFieldRoundTrip | src/pages/Admin.tsx:1272-1289 | the '\|'-joined options field, split, trimmed and filtered, gives back the options, and an empty field reads as null |
| Admin.CsvRowRoundTrip | src/pages/Admin.tsx:1271-1290 | importing an exported line gives back the question's text, options and answer when the fields are trimmed and free of ',', '\|' and line breaks |
| Admin.ExportRowIsLine | src/pages/Admin.tsx:1290 | an exported line has no line break, is not blank and is trimmed, so the import keeps it |
| Admin.CsvLinesOfExport | src/pages/Admin.tsx:1266-1292 | the import's lines of an exported file are the exported rows |
| Admin.CsvFileRoundTrip | src/pages/Admin.tsx:1266-1292 | importing an exported file gives back every question's text, options and answer, in order |
| Admin.ImportCsv | src/pages/Admin.tsx:1262-1278 | the rows inserted from a file, with their orders, and the count of successful inserts |
| Admin.InsertRows | src/pages/Admin.tsx:1270-1278 | the loop inserts line k with order base+k, the offset advancing even past a failed insert, and counts the successes |
| Admin.ImportedOrders | src/pages/Admin.tsx:1268-1277 | inserted rows keep the file's order and carry strictly increasing orders in [base, base+n) |
| Admin.ImportAllOk | src/pages/Admin.tsx:1270-1277 | when every insert succeeds, line k becomes a question with order base+k |
| Admin.ReimportExport | src/pages/Admin.tsx:1266-1292 | re-importing an exported file adds every question after all existing ones, in order |
| Admin.SetAllFacts | src/pages/Admin.tsx:856-870 | a bulk update sets exactly the selected ids and keeps the rest |
| Admin.BulkRowsFacts | src/pages/Admin.tsx:852-864 | a bulk action touches only the chosen exam's rows for the selected ids, and when every call succeeds enables or removes each of them |
| Admin.Without | src/pages/Admin.tsx:531 | the list without the deleted id, nothing else removed |
| Admin.AdminPanel.constructor | src/pages/Admin.tsx:147-153 | the panel holds the fetched students and the retake view |
| Admin.AdminPanel.EnableRetake | src/pages/Admin.tsx:405-439 | an upsert, or an insert when the upsert fails; the row and the shown flag are set exactly when one succeeds |
| Admin.AdminPanel.DisableRetake | src/pages/Admin.tsx:547-560 | a successful delete removes the row and shows the student as disabled |
| Admin.AdminPanel.FlagIncident | src/pages/Admin.tsx:441-475 | a successful incident insert appends the reason, deletes the retake row, zeroes the submission score and shows retake disabled; a failed insert changes nothing |
| Admin.AdminPanel.DeleteUser | src/pages/Admin.tsx:477-545 | once confirmed and the deletes succeeded, the student leaves the list and the retake view; otherwise nothing changes |
| Admin.AdminPanel.BulkSet | src/pages/Admin.tsx:852-870 | the retake rows follow each call's outcome while the shown flags are set for every selected id |
| Admin.BulkViewIgnoresFailures | src/pages/Admin.tsx:852-860 | the shown flag can say enabled while the failed call left the table unchanged |
| Admin.FlaggedListedAsDisabled | src/pages/Admin.tsx:462 | after a flag the student is in the retake-disabled view and not in the enabled view |
| Admin.CountAnswers | src/pages/Admin.tsx:733-738 | each (question, answer) pair of one submission adds exactly one to its count |
| Admin.ItemStats | src/pages/Admin.tsx:727-739 | itemStats[qid][answer] is the number of parsed submissions holding that pair, and a question appears exactly when some submission answers it |
| DevServer.ParseCookies | vite.config.ts:65-75 | the forEach loop computes the cookie map of the header |
| DevServer.CollectPairs | vite.config.ts:68-73 | the loop's map is the fold of the parsed pairs |
| DevServer.NoHeaderNoCookies | vite.config.ts:66-67 | an empty header parses to the empty map |
| DevServer.PairSplitsAtFirstEquals | vite.config.ts:69-71 | a pair splits at its first '=', so the value may contain '='; both sides are trimmed |
| DevServer.PairWithoutEquals | vite.config.ts:69-71 | a pair without '=' gives the key "pair minus its last character" and the whole pair as value |
| DevServer.CookieNames | vite.config.ts:72 | the empty name is never stored, and a name is present exactly when some pair has it |
| DevServer.LaterPairWins | vite.config.ts:72 | a pair's value survives exactly when no later pair repeats its name |
| DevServer.SingleCookie | vite.config.ts:65-75 | a header with one trimmed name=value parses to exactly that cookie |
| DevServer.SessionCookieReadBack | vite.config.ts:97 | the session cookie the server sets reads back as the session id |
| DevServer.AuthMiddleware.constructor | vite.config.ts:64 | the session table starts empty |
| DevServer.AuthMiddleware.ValidateToken | vite.config.ts:77-106 | bad JSON, an empty token or a missing id or first name gives 400 and changes nothing; otherwise the id maps to the user and the cookie is set |
| DevServer.AuthMiddleware.Me | vite.config.ts:108-120 | returns the stored user exactly when the cookie's session id is in the table, else 401 |
| DevServer.AuthMiddleware.Logout | vite.config.ts:121-128 | deletes the cookie's session and always clears the cookie |
| DevServer.AuthMiddleware.Handle | vite.config.ts:76-130 | any other URL or method passes through untouched; only validate-token creates a session |
| DevServer.SessionLifecycle | vite.config.ts:77-128 | after login, me returns the user; after logout, me with the same cookie gives 401 |
| PageTitle.SortFacts | src/components/PageTitle.tsx:23-24 | the keys sorted longest first are a permutation of the keys |
| PageTitle.FirstPrefix | src/components/PageTitle.tsx:25 | find returns the first key that is a prefix of the path |
| PageTitle.ValueOf | src/components/PageTitle.tsx:27 | a present key's title is the table's entry for it |
| PageTitle.TitleIsLongestMatch | src/components/PageTitle.tsx:19-27 | when k is the longest key prefixing the lower-cased path, the title is k's title |
| PageTitle.NoMatchDefault | src/components/PageTitle.tsx:27 | with no matching key the title is "Elyon Tested" |
| PageTitle.TitleIgnoresCase | src/components/PageTitle.tsx:19 | the title does not depend on the path's letter case |
| Registration.DigitPrefix | src/pages/Registration.tsx:60 | parseInt reads the longest run of leading digits |
| Registration.ParseIntNumeral | src/pages/Registration.tsx:60 | parseInt of a decimal numeral gives its value |
| Registration.Check | src/pages/Registration.tsx:49-68 | missing fields first, then an age outside 1..120, then a password under 6 UTF-16 code units, each exactly when its condition holds |
| Text.Utf16Length | src/pages/Registration.tsx:65 | JavaScript's length: at least the number of characters and at most twice it, equal to it for characters of the Basic Multilingual Plane and twice it for characters outside it |
| Registration.AstralPasswordLongEnough | src/pages/Registration.tsx:65 | a password of three characters outside the Basic Multilingual Plane passes the length rule |
| Registration.AcceptedForm | src/pages/Registration.tsx:50-68 | an accepted form has every required field, a password of 6 or more UTF-16 code units and a numeric age within 1..120 |
| Registration.NonNumericAgeAccepted | src/pages/Registration.tsx:60-63 | an age parseInt cannot read (NaN) passes the age check |
| Registration.CandidateShape | src/pages/Registration.tsx:76 | a candidate id is "7" and 6 digits whose value is the draw |
| Registration.CandidateInjective | src/pages/Registration.tsx:76 | different draws give different ids |
| Registration.AdminDraw | src/pages/Registration.tsx:77 | a candidate is the admin id exactly for the draw 975035 |
| Registration.GenAsWritten | src/pages/Registration.tsx:75-81 | the generator as written: a 7-character id, the first candidate unless it is the admin id |
| Registration.AsWrittenCanIssueAdminId | src/pages/Registration.tsx:75-81 | two draws of 975035 make the generator as written issue "7975035" |
| Registration.Gen | src/pages/Registration.tsx:75-81 | the corrected generator never issues the admin id, issues a candidate of one of the draws, and fails only when every draw is 975035 |
| Registration.GenAgreesWithAsWritten | src/pages/Registration.tsx:75-81 | whenever the original does not issue the admin id, the corrected generator gives the same id |
| Registration.Register | src/pages/Registration.tsx:45-114 | as written: a submit while loading is ignored; a failing check is reported; the student is registered exactly when the checks pass and the write succeeds, under a well-shaped id that is the admin id only for two draws of 975035, with trimmed names |
| Registration.AdminAsWritten | src/pages/Registration.tsx:75-81 | the written generator issues the admin id exactly for two draws of 975035 |
| Registration.RegisterCanIssueAdminId | src/pages/Registration.tsx:45-114 | a valid form with two draws of 975035 and a successful write registers the student under "7975035" |
| Registration.RegisterIntended | src/pages/Registration.tsx:45-114 | the handler with the corrected generator: the same checks, and a registered student never gets the admin id |
| Registration.RegisterAgreesWithIntended | src/pages/Registration.tsx:75-81 | whenever the written generator avoids the admin id, both handlers give the same outcome |
| Registration.Countdown.constructor | src/pages/Registration.tsx:27-31 | the countdown starts at 20 |
| Registration.Countdown.Tick | src/pages/Registration.tsx:33-40 | a tick decrements, and at 1 or less goes to login with 0 |
| Registration.Countdown.RunToLogin | src/pages/Registration.tsx:29-43 | reaching login takes exactly 20 ticks |
| PasswordChange.Submit | src/pages/PasswordChange.tsx:22-61 | changed exactly when the passwords match, are 6 or more UTF-16 code units long, the id is non-empty and the update succeeds; only then are the two local flags written |
| PasswordChange.MismatchFirst | src/pages/PasswordChange.tsx:22-25 | a mismatch is reported before any other check |
| PasswordChange.DefaultRuleUnreachable | src/pages/PasswordChange.tsx:27-36 | the "1234" rule is unreachable behind the length rule |
| PasswordChange.MissingIdBeforeUpdate | src/pages/PasswordChange.tsx:40-43 | an empty admission id is rejected before the update |
| Login.HandleLogin | src/pages/Login.tsx:39-98 | an empty normalised id and then an empty password are errors exactly then; any non-admin id with password 1234 goes to the password change without touching storage; any other password logs in exactly when the row exists and the verification is truthy, and is invalid otherwise |
| Login.NormalIdHasNoSpace | src/pages/Login.tsx:39 | the normalised id has no white space |
| Login.ErrorsStay | src/pages/Login.tsx:42-91 | the outcomes that do not navigate are exactly the empty id, the empty password and invalid credentials |
| Login.FirstLoginSkipsLookup | src/pages/Login.tsx:63-67 | with password 1234 the outcome does not depend on the database |
| Login.AdminOnlyByCredentials | src/pages/Login.tsx:53-60 | the admin page is reached exactly with id 7975035 and password 1234 |
| Login.IdStoredOnlyOnSuccess | src/pages/Login.tsx:94-97 | storage is unchanged unless the login succeeds, and then holds the normalised id |
| Chat.InsertedIdempotent | src/components/chat/Chat.tsx:271-285 | delivering the same realtime message twice is the same as once |
| Chat.InsertedKeepsDistinct | src/components/chat/Chat.tsx:271-285 | the insert keeps ids distinct, keeps the earlier list as a prefix and contains the new id |
| Chat.ChatPanel.constructor | src/components/chat/Chat.tsx:43-49 | no user, no messages, empty input, not loading |
| Chat.ChatPanel.SubmitUserInfo | src/components/chat/Chat.tsx:116-156 | a blank name, id or phone changes nothing; a saved user loads the stored messages or, without any, exactly one welcome message |
| Chat.ChatPanel.Send | src/components/chat/Chat.tsx:158-233 | a blank input, no user or a pending send changes nothing; a send whose two inserts succeed appends the user then the bot message and clears the input; a failed insert appends nothing |
| Chat.ChatPanel.Receive | src/components/chat/Chat.tsx:271-285 | a realtime message already present leaves the list unchanged, a new one is appended at the end |
| VerbalReasoning.Correct | src/pages/VerbalReasoning.tsx:21-23 | the number of correct picks is at most the number of picks |
| VerbalReasoning.CorrectAll | src/pages/VerbalReasoning.tsx:21-23 | every pick is correct exactly when the count equals the number of picks |
| VerbalReasoning.Quiz.constructor | src/pages/VerbalReasoning.tsx:8-11 | first question, nothing selected, score 0 |
| VerbalReasoning.Quiz.Select | src/pages/VerbalReasoning.tsx:16-18 | selecting sets the selected option |
| VerbalReasoning.Quiz.Next | src/pages/VerbalReasoning.tsx:20-31 | disabled with nothing selected; the score rises by one exactly for the correct option; it advances and clears the selection, or on the last question shows the result |
| VerbalReasoning.ScoreBound | src/pages/VerbalReasoning.tsx:7-31 | the score is the number of correct picks and never exceeds the number of questions |
| ExamCancelled.ReasonEmbedded | src/pages/ExamCancelled.tsx:33 | a reason that is not a prior dismissal appears verbatim between the cancellation text and the closing full stop |
| ExamCancelled.KeywordMakesPrior | src/pages/ExamCancelled.tsx:31 | a lower-case reason containing "cheat" or "dismiss" anywhere gets the prior-dismissal text |
| ExamCancelled.PreviousDismissalByKeyword | src/pages/ExamCancelled.tsx:31 | the explicit "previous dismissal" test is already covered by the "dismiss" substring test |
| ExamCancelled.DefaultReasonIsPrior | src/pages/ExamCancelled.tsx:13 | without a reason in the navigation state, the default "cheating detected" gets the prior-dismissal text |
| ExamCancelled.EmptyReasonNotPrior | src/pages/ExamCancelled.tsx:30-33 | an empty reason is shown as an empty cancellation reason |
| ExamCancelled.Countdown.constructor | src/pages/ExamCancelled.tsx:14 | the countdown starts at 10 |
| ExamCancelled.Countdown.Step | src/pages/ExamCancelled.tsx:16-23 | above 0 it decrements; at 0 it reloads |
| ExamCancelled.Countdown.RunToReload | src/pages/ExamCancelled.tsx:14-23 | the reload comes after exactly 10 steps |
| ImportQuestions.MappedRows | scripts/import-questions.js:46-56 | question i gets exam id 00SAT2025, order i+1 and value 2.5, with text, options and answer copied |
| ImportQuestions.BatchesFacts | scripts/import-questions.js:59-62 | the batches concatenate to the full list, number ceil(n/20), and each holds 1 to 20 rows |
| ImportQuestions.BatchAt | scripts/import-questions.js:60-62 | batch k is the slice starting at 20k |
| ImportQuestions.FirstFailure | scripts/import-questions.js:63-70 | the first failing batch index, all earlier ones succeeded |
| ImportQuestions.Import | scripts/import-questions.js:33-71 | a failed delete aborts with the table untouched; otherwise the batches before the first failure stay inserted and the outcome names that batch |

## Left out

- Database calls, realtime channels, the `verify_password` RPC and `JSON.parse` are foreign I/O. They are success flags, lookup results or `Option` inputs, and the database is the `Store.Backend` maps.
- React rendering, toasts, `setTimeout`/`setInterval`, the fullscreen API and router navigation: a timer tick is a method call and a navigation is a `Route` value.
- Random session and admission ids (vite.config.ts:90, src/pages/Registration.tsx:76) are parameters.
- Concurrency is not modelled. This covers:
  - the timer tick racing "End Exam";
  - several threshold closures inserting incidents before the cancelled flag is set;
  - a realtime delivery racing the send that appends the same message;
  - a clipboard read that resolves after the monitor is deactivated and still logs a screenshot (src/hooks/useSecureExam.ts:78, 127-129). The model completes each clipboard read inside the event that started it.
- Floating-point analytics are not modelled: average, pass rate, completion rate and the trend arrays (src/pages/Admin.tsx:724-742), and the age from the date of birth on the dashboard.
- The answers of the end-of-exam write are read from a DOM element that does not exist (src/pages/Exam.tsx:167-169). They are a parameter (`ExamSession.NoAnswersScoreZero` states the effect of the empty map). The undefined `setExamScore` call (src/pages/Exam.tsx:221) throws after the write, which changes no modelled state.
- Admin.AdminPanel.DeleteUser: the four cascade deletes are one `deletesOk` flag, because they are I/O sequencing only.
- Admin.QuestionList.MoveUp: the re-fetch after a swap, which reorders rows by order index, is not modelled.
- The `students_1` table is left out. It is only read by login and written by registration, which take its row or a save flag as input.
- The admin confirmation dialog of the login page (src/pages/Login.tsx:104-136) is left out because it is dead code.
- Chat messages carry no timestamps; created_at is display-only.
- The verbal-reasoning question file is not part of this model; the questions are a parameter.
- Text.Lower: letter case is folded for ASCII letters only.
- Strings are sequences of Unicode characters, not of UTF-16 code units. The two password-length rules count code units through `Text.Utf16Length`. Trimming, splitting and searching give the same results in both views.
- DevServer.PairWithoutEquals: for a pair without '=', `slice(0, -1)` drops one UTF-16 code unit. When the pair ends in a character outside the Basic Multilingual Plane, the source's key ends in a lone surrogate, which a Dafny string cannot hold. The model drops the whole character instead.
- QuizPlayer.OptionIndex: an answer is read as an option number only when it is a plain decimal numeral (`Text.NumberOf`).
  - `Number` also reads "1.0", "+1", "1e0", "0x1" and "1." as 1, and these are scored through the text comparison here.
  - "1.5" is a number to `Number` and indexes no option, so the source scores it only when the correct answer is blank; the model compares its text.
  - The option buttons store only `String(i)`, so only answers restored from a snapshot or the database can take these forms.
- QuizPlayer.SaveChain: the retry of the insert sends the answers as a JSON string. The model's table stores the same answers map as the first attempt.
- Registration.ParseInt reads optional leading white space, one sign and decimal digits. Other parseInt inputs, such as `0x`, are not modelled.
- DevServer.AuthMiddleware.ValidateToken: the token and the user fields are given as their string coercions. A falsy non-string id such as 0 is not modelled.
- Dashboard.Minutes: `Number` on a duration is taken as given (finite, non-finite, null or absent).
- Admin.ImportCsv: the rows are parsed up front and then inserted by the loop. Parsing has no effects, so this is the same as parsing inside the loop.
- PageTitle.TitleIsLongestMatch covers the "/administrator" example only through the generic longest-prefix statement. There is no lemma for that concrete path.
- The store assumes submission ids are unique per (exam id, admission id), so an update by id is an update of the key.
- ContactUs, App, Landing, Welcome, NotFound, Index, ForgotId, ExamSubmitted, the UI components, the database client and scripts/delete-student.js are display, routing or plain I/O and are not modelled.

## Findings

| source | as written | input that shows it | evidently intended | confidence | as-written member | corrected member |
|---|---|---|---|---|---|---|
| src/pages/Admin.tsx:1050-1052 | the radio index, an index into the raw option inputs, is used on the list with blank inputs removed | inputs ["", "Paris", "London"] with "London" marked (index 2): rejected with "Select a valid correct option" | the marked input is the correct option | high, not executed | Admin.AsWrittenRejectsLastOption | Admin.IntendedAcceptsMarkedOption |
| src/pages/Admin.tsx:1053-1071 | `setNewQAnswer` does not update `newQAnswer` within the same handler, so the insert uses the old answer field | options ["Paris", "London"], first marked, answer field never typed in: stored with correct_answer null | the marked option is stored as the correct answer | high, not executed | Admin.AsWrittenDropsAnswer | Admin.AddQuestion |
| src/pages/Registration.tsx:75-81 | an id equal to the admin id "7975035" is re-drawn only once | both draws 975035: the student is issued "7975035" | a student id never equals the admin id | medium, not executed | Registration.RegisterCanIssueAdminId | Registration.RegisterIntended |
