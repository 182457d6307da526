# Verification of a daily trivia game

A Dafny model of the rules of a daily trivia game: nine questions a day in three topics, typed
answers that score a star, multiple choice that scores a circle, accounts that sign in with mailed
codes. The rules live in Go code around a SQL store. The model follows that code component by
component, and each result is proved for every input, every random stream and every interleaving it
speaks of.

| file | component |
|---|---|
| `Distance.dfy` | the three-row edit distance, proved equal to the cheapest edit script |
| `Grading.dfy` | free-text grading: loops over aliases and wrong options against an order-free verdict |
| `QuestionImport.dfy` | validation and storage of a question, and what its players can then score |
| `Judging.dfy` | the second opinion, its cached verdicts and the aliases it teaches |
| `Duplicates.dfy` | the duplicate-answer check before an import |
| `RunLifecycle.dfy` | runs and answers under every interleaving of SQL statements |
| `RunProvenance.dfy` | which request wrote each run, row and column, and what justifies each reply |
| `RunHandlers.dfy` | the request handlers as methods over tables updated in place |
| `Generator.dfy` | the randomised board generator as a function of its random stream |
| `Boards.dfy` | what a board that was made satisfies, and what a failure to make one means |
| `Schedule.dfy` | the whole schedule over generation, pin-and-rebuild, play and edits |
| `GeneratorStore.dfy` | the generator as loops over tables, inside a transaction that rolls back |
| `Ensure.dfy` | lazy generation by many callers at once, under per-date locks |
| `LoginCodes.dfy` | sign-in codes: sliding windows, attempt budgets, supersession and sweeping |
| `Paste.dfy` | straightening curly delimiters in pasted JSON |
| `Cookies.dfy` | signed and expiring cookies |
| `Standings.dfy` | competition ranks and streaks |
| `Wrappers.dfy` | `Option`, and picking a member of a set |

`dafny verify dfyconfig.toml` checks everything.

## How the model is built

A table is a map or a sequence of rows. A handler that several browsers can be inside at once is a
program counter over atomic statements (`RunLifecycle`, `Ensure`); the same handlers are also written
as methods on a class whose fields are the tables, and each method is proved to reach what the
counters reach (`RunHandlers`). An algorithm with loops is a method proved against a function
(`GeneratorStore` against `Generator`, `StraightenDelimiters` against `Straighten`) or against a
meaning that does not mention the algorithm at all (`DamerauLevenshtein` against the cheapest script,
`Grade` against a verdict over sets). Clocks, random numbers, hashes, mail and the judge's scores are
parameters, so every theorem holds whatever they are. `RunLifecycle` takes the boards as fixed, which is
what `Schedule.SettledBoardsNeverChange` proves of a date that has a run.

Unicode stays abstract: grading takes a `Lexicon`, any total normalization together with what counts
as a digit and a blank. Dates are day numbers, except in the lock key, where they are year, month and
day. Question ids, topic ids and account ids are integers.

## Where the code does less than it says

Some promises of the code or of its comments do not hold on all inputs. The code is modelled as it is;
each failure has an input and an exact condition.

- Validation counts distinct normalized wrong options so that three are always stored
  (`internal/content/seed.go:194-212`). Storage drops the empty text, so three are stored if and only
  if the empty text was not one of exactly three (`QuestionImport.EnoughOptionsStored`; an input is in
  `QuestionImport.AShortQuestionPasses`).
- A pressed option is trimmed on its way in (`internal/httpapi/server.go:469`) and then compared with
  the canonical answer as stored, which the import of a file does not trim. The right option scores if
  and only if the canonical answer has no outer blanks; otherwise no option on the board can score
  (`QuestionImport.OneOptionScores`; an input is in `QuestionImport.ABlankAnswerCannotScore`).
- Straightening takes a curly mark for the end of a string when something structural follows it. It
  restores a pasted document if and only if no string in it holds an unescaped curly mark that looks
  like that (`Paste.StraightenRestores`; an input is in `Paste.AnInnerMarkMisleads`).
- The comment on the answer key (`internal/content/store.go:281-285`) says that two answers have one key
  exactly when each is marked correct for the other. Equal keys do give that, up to wrong options
  (`Grading.SameKeyIsMarkedAlike`). The converse fails for an answer and its plural
  (`Grading.MangosAreMangoes`). It holds of an answer, against all others and all wrong options, if and
  only if its key is a number, ends in a numeral or has no first letter to match, provided that some
  answer has a key one ordinary letter longer (`Grading.KeyDecidesIffLiteral`); without that proviso
  the "if" still holds (`Grading.LiteralKeysDecide`).

The edit distance is optimal string alignment, which is not a metric: `Distance.BreaksTriangle` gives
three texts that break the triangle inequality, and nothing here relies on it.

## Model

| member | source | states |
|---|---|---|
| Distance.DamerauLevenshtein | internal/grading/distance.go:7-41 | three rotated rows compute the least cost of any edit script between the two texts |
| Distance.FillRow | internal/grading/distance.go:24-37 | one pass of the inner loop writes a whole row of the recurrence over a row that is no longer needed |
| Distance.OsaIsLeastCost | internal/grading/distance.go:24-40 | the recurrence is attained by some script of keeps, substitutions, insertions, deletions and adjacent swaps, and beaten by none |
| Distance.CheapestScript | internal/grading/distance.go:24-37 | every cell of the table is the cost of a script between the two prefixes |
| Distance.NoneCheaper | internal/grading/distance.go:24-37 | no script between two prefixes costs less than their cell |
| Distance.Symmetric | internal/grading/distance.go:3-6 | the distance is the same both ways |
| Distance.ZeroIffEqual | internal/grading/grade.go:126-132 | the distance is zero exactly for equal texts, so the literal-match gate passes literal matches only |
| Distance.Bounds | internal/grading/distance.go:10-15 | at least the difference in length, at most the longer length |
| Distance.InsertionsCoverGrowth | internal/grading/grade.go:148-158 | net additions are a floor on the insertions of every script, and a script costs at least its insertions |
| Distance.BreaksTriangle | internal/grading/distance.go:32-36 | CA to ABC costs more than going through AC |
| Grading.Grade | internal/grading/grade.go:39-112 | correct, near miss, match, distance and reads-as-wrong-option are what their order-free definitions say |
| Grading.ScanWrongOptions | internal/grading/grade.go:52-68 | one pass finds the nearest wrong option and whether the text reads as any |
| Grading.ScanAliases | internal/grading/grade.go:70-97 | one pass keeps the nearest alias that reads and the closest miss by slack, then by distance |
| Grading.VerdictIsUnique | internal/grading/grade.go:70-77 | reordering or repeating aliases and wrong options changes nothing but which tied alias is named |
| Grading.CorrectGrowsWithAliases | internal/grading/grade.go:82-104 | more aliases never make an accepted text wrong |
| Grading.CorrectShrinksWithWrongOptions | internal/grading/grade.go:45-68 | fewer wrong options never make an accepted text wrong |
| Grading.LiteralMatch | internal/grading/grade.go:126-132 | an alias typed literally is correct exactly when it is not also a wrong option |
| Grading.WrongOptionIsSettled | internal/grading/grade.go:23-28 | a wrong option typed literally is never correct, never near, and reads as a wrong option |
| Grading.NearMissCanBePromoted | internal/grading/grade.go:14-18 | a near miss is rejected now and correct once it is made an alias |
| Grading.NumbersAreLiteral | internal/grading/grade.go:201-220 | an alias with a digit or a final numeral accepts its own spelling only |
| Grading.ForgivesUnlessNumber | internal/grading/grade.go:201-231 | as texts to compare, an alias accepts nothing but its own spelling if and only if it has a digit, a final numeral or no first letter to match |
| Grading.SameKeyIsMarkedAlike | internal/content/store.go:281-293 | answers with one key are marked correct for each other exactly when that key is no wrong option of either |
| Grading.LiteralKeysDecide | internal/content/store.go:281-293 | an answer whose key forgives no misspelling is marked alike only with answers of its own key |
| Grading.KeyDecidesIffLiteral | internal/content/store.go:281-293 | an answer is marked alike with none but its own key's answers if and only if its key forgives no misspelling, once some key is one ordinary letter longer |
| Grading.MangosAreMangoes | internal/content/store.go:281-293 | two answers with different keys that are marked correct for each other |
| Grading.AcceptedAddsLittle | internal/grading/grade.go:129-179 | an accepted text is within six edits, shares its first letter and has at most two characters more |
| Grading.ReadsAsMeans | internal/grading/grade.go:129-231 | a text reads as an alias when it is the alias, or the alias forgives at all, the first letters agree, at most one letter or a third of the edits is net, and some edit script within one, three, five or six edits (up to four, eight, twelve letters, or more) leads there |
| Grading.MoreLetters | internal/grading/distance.go:7-41 | appending letters costs exactly one edit each |
| Grading.EndingsLeftOut | internal/grading/grade.go:212-231 | leaving out the last letters of an alias is correct exactly up to its budget, and a near miss exactly one beyond |
| Grading.EndingsAdded | internal/grading/grade.go:162-179 | of letters added at the end of an alias one is forgiven and no more |
| QuestionImport.ValidateQuestion | internal/content/seed.go:161-218 | accepts exactly the questions that meet every rule, reports the first problem there is, and adds the answer to the aliases only when it is missing |
| QuestionImport.CollectAccepted | internal/content/seed.go:177-192 | gathers every accepted normalized form, or finds the first alias that has none |
| QuestionImport.CollectDistractors | internal/content/seed.go:200-207 | gathers the distinct forms of the wrong options, or finds the first that is accepted |
| QuestionImport.BandsSplitTheScale | internal/content/store.go:122-135 | the ten ratings fall into bands of four, three and three, and nothing else has a band |
| QuestionImport.QuestionRows.ReplaceAliases | internal/content/store.go:153-172 | the rows are the distinct non-empty normalized forms, each with a spelling it came from |
| QuestionImport.QuestionRows.ReplaceDistractors | internal/content/store.go:175-193 | the rows are the distinct non-empty options |
| QuestionImport.AnswersAreCorrect | internal/content/seed.go:156-160 | typing the answer or any alias of an imported question is correct |
| QuestionImport.WrongOptionsAreWrong | internal/content/seed.go:172-176 | typing any stored wrong option is neither correct nor near |
| QuestionImport.EnoughOptionsStored | internal/content/seed.go:194-212 | three options are stored if and only if the empty text was not one of exactly three |
| QuestionImport.AShortQuestionPasses | internal/content/store.go:180-184 | a question that passes validation and stores only two options |
| QuestionImport.OneOptionIsTheAnswer | internal/play/play.go:316-318 | whatever the shuffle, exactly one option shown is the canonical answer |
| QuestionImport.OneOptionScores | internal/httpapi/server.go:469 | only the canonical option can score a circle, and it does so if and only if the answer has no outer blanks |
| QuestionImport.BlankAnswerIsImported | internal/content/seed.go:161-218 | a question whose answer starts with a blank passes validation and is stored |
| QuestionImport.ABlankAnswerCannotScore | internal/httpapi/server.go:469 | no option shown for that question scores a circle, whatever the shuffle |
| Judging.QuestionTables.AnswerFreeText | internal/play/play.go:335-354 | one typed answer changes aliases, verdicts and answers exactly as one step of the protocol |
| Judging.QuestionTables.SecondOpinion | internal/play/judging.go:69-141 | a touched question, an earlier verdict or a failure accept nothing; a fresh verdict is recorded and an acceptance becomes an alias |
| Judging.QuestionTables.GradeText | internal/play/play.go:340-344 | stored aliases and freshly normalized wrong options give the verdict of grading |
| Judging.HistoryKeeps | internal/play/judging.go:87-95 | every verdict is on a non-empty text that is no wrong option, and every accepted text is an alias |
| Judging.NothingIsTakenBack | internal/play/judging.go:127-139 | verdicts, aliases and answers are never changed or lost |
| Judging.NeverJudgedTwice | internal/play/judging.go:87-99 | after a verdict no spelling with the same normalized form is put to the judge again |
| Judging.AcceptedForEver | internal/play/judging.go:134-140 | an accepted text is correct by grading alone at every later moment |
| Judging.LearnedMeansAccepted | internal/play/judging.go:134-139 | the aliases at any moment are the original ones and the accepted ones, exactly |
| Judging.WrongOptionsNeverStar | internal/play/judging.go:47-51 | typing a wrong option earns no star and teaches nothing, whatever has been learned |
| Judging.TheJudgeOnlyAddsStars | internal/play/judging.go:66-68 | over the same submissions every star earned without the judge is earned with it |
| Judging.StarsAreEarned | internal/play/judging.go:43-141 | what a run has is what its first submission earned: a star exactly if it was correct by the aliases of that moment, or was put to the judge and its scores clear all three limits |
| Judging.VerdictsAreGiven | internal/judge/judge.go:69-73 | a text has a verdict if and only if the judge has scored it, and the verdict is what the three limits make of those scores |
| Duplicates.FindDuplicateAnswers | internal/content/duplicates.go:53-117 | reports, in payload order, each question whose key came earlier in the payload or is held by another row |
| Duplicates.FindingMeans | internal/content/duplicates.go:91-115 | a question is reported if and only if its key came earlier or another question in play holds it, and that one is named |
| Duplicates.CleanImportsKeepAnswersUnique | internal/content/duplicates.go:42-52 | a clean import leaves no two questions in play with one topic, band and answer |
| Duplicates.AppliedRows | internal/content/seed.go:273-311 | after an import each imported question has the columns of the payload, keeps its id and is in play, and every other question is as it was |
| Duplicates.ReimportIsCleanAndIdle | internal/content/duplicates.go:50-52 | the same payload again is clean again and leaves the library as it is |
| Duplicates.ImportIsIdempotent | internal/content/seed.go:273-311 | writing a parsed payload twice is writing it once |
| RunLifecycle.HistoryKeeps | internal/play/play.go:126-389 | the invariant holds after every interleaving of statements |
| RunLifecycle.StepKeeps | internal/play/play.go:222-389 | each statement keeps the tables and its own handler in order |
| RunLifecycle.HandlerStable | internal/play/play.go:181-220 | what a handler has read and relies on is never taken away by another |
| RunLifecycle.StepOwes | internal/play/play.go:378-387 | nine resolved answers without completion appear only together with a handler that still owes the completing update |
| RunLifecycle.CompletedIffResolved | internal/play/play.go:378-387 | a completed run has all nine resolved; nine resolved without completion means some request owes it; when all is quiet the two are equivalent |
| RunLifecycle.CompletedRunIsFrozen | internal/play/play.go:194-199 | neither the row nor any answer of a completed run ever changes |
| RunLifecycle.OutcomesAreFinal | internal/play/play.go:302-370 | an outcome never changes, a submission is never replaced, and revealing forfeits the star |
| RunLifecycle.ScoredAnswersAreInTime | internal/play/play.go:322-376 | scores are given within the grace period at their own stage, and a pick is a circle exactly when it is the canonical answer |
| RunLifecycle.OneRunPerBrowserAndDate | internal/play/play.go:141-145 | no browser holds two runs for a date |
| RunLifecycle.HistoryMovesForward | internal/play/play.go:222-242 | completion, outcomes and stages only ever move forward |
| RunLifecycle.RequestsAreShort | internal/play/play.go:321-389 | a request executes at most the statements its kind allows, twelve for a typed answer that is judged, whatever the others do |
| RunLifecycle.NeverStuck | internal/play/play.go:126-389 | an unfinished request can always execute its next statement |
| RunLifecycle.CurrentIsCounted | internal/httpapi/server.go:546-556 | a completed run that the board shows is the one the statistics count |
| RunLifecycle.ViewerCountsAsUser | internal/httpapi/server.go:546-584 | for an attached browser the viewer's counted runs are those chosen for the account over the whole table |
| RunLifecycle.ChoosingThenFiltering | internal/httpapi/server.go:568-584 | choosing one run per account and date and then keeping a date is choosing within the date |
| RunLifecycle.OneRunPerUserAndDate | internal/httpapi/server.go:577-584 | every account has exactly one chosen run for each date it has finished one on |
| RunProvenance.ScoresFallWithinTheLimit | internal/play/play.go:138-145 | every run was started by a request of its browser for its date, at the instant it bears and for exactly that date's time limit, and no answer scores two seconds or more past that |
| RunProvenance.RunsCloseForAReason | internal/play/play.go:194-199 | a completed run was finished on request, found past its deadline, or given its last answer, at the instant it bears; an answer finds it over only from two seconds past the deadline |
| RunProvenance.RowsAreRequested | internal/play/play.go:302-377 | every row and column was written by a request for that run and question, with that text and at that instant, and what nobody answered expired when the run completed |
| RunProvenance.HistoryIsTraced | internal/play/play.go:126-389 | every run, row and handler has its cause after every interleaving of statements |
| RunProvenance.RepliesAreTrue | internal/play/play.go:290-389 | every reply was true of the tables at the statement that gave it: a refusal states what was the case, and what is shown is what was stored |
| RunProvenance.OnlyOwnersChangeRuns | internal/play/play.go:79-89 | a run and its answers are only changed by a request whose viewer had been found to own the run |
| RunProvenance.LookedFirst | internal/play/play.go:126-133 | a run is inserted only for a viewer who had none for the date when the handler looked |
| RunProvenance.ShowsTheEarliest | internal/play/play.go:160-174 | the run shown for a date was, when the handler looked, the viewer's that was started first, the lower id breaking ties |
| RunHandlers.RunStore.SelectCurrent | internal/play/play.go:160-172 | finds the viewer's earliest run for the date, if there is one |
| RunHandlers.RunStore.InsertRun | internal/play/play.go:139-148 | creates the run with exactly the given time to run and nothing answered, or returns the one the browser already has and changes nothing |
| RunHandlers.RunStore.UpdateFinished | internal/play/play.go:222-242 | completes an owned run once and expires every unresolved question of its board |
| RunHandlers.RunStore.UpsertRevealed | internal/play/play.go:302-305 | moves an unresolved typed row, or a missing one, to multiple choice and reports whether it did |
| RunHandlers.RunStore.WriteAnswer | internal/play/play.go:366-377 | a typed answer only where there is no row, a pick only in an unresolved multiple-choice row |
| RunHandlers.RunStore.UpdateCompleted | internal/play/play.go:378-387 | completes the run exactly when nine of its answers are resolved |
| RunHandlers.RunStore.Load | internal/play/play.go:181-220 | ends where the statement model can, finishing an expired run on the way |
| RunHandlers.RunStore.ReadRun | internal/play/play.go:181-219 | reads the run, then its board, then its answers |
| RunHandlers.RunStore.ExpireRun | internal/play/play.go:194-199 | finishes a run whose clock has run out before it is loaded again |
| RunHandlers.RunStore.Open | internal/play/play.go:290-301 | refuses a run that is not the viewer's, is over or lacks the question, and otherwise leaves the tables as they were |
| RunHandlers.RunStore.Current | internal/play/play.go:160-174 | ends where the statement model can |
| RunHandlers.RunStore.Start | internal/play/play.go:126-150 | ends where the statement model can; at most one run is added, of this browser and date, started now with exactly the given time to run, and no other run is changed but for its completion |
| RunHandlers.RunStore.Finish | internal/play/play.go:222-242 | ends where the statement model can |
| RunHandlers.RunStore.Reveal | internal/play/play.go:290-319 | ends where the statement model can, on every path, and returns the answer and the wrong options in the order of the run's seed |
| RunHandlers.RunStore.Touched | internal/play/play.go:302-315 | moves the row to multiple choice or reports why not |
| RunHandlers.RunStore.AnswerQuestion | internal/play/play.go:321-389 | ends where the statement model can; a recorded pick is a circle exactly when it is the answer, a recorded text a star exactly when grading or the judge accepts it |
| RunHandlers.RunStore.Judge | internal/play/play.go:335-354 | settles a typed answer by grading and then by the judge, statement by statement, and teaches what the judge accepts |
| RunHandlers.RunStore.Record | internal/play/play.go:366-388 | writes the answer with its outcome and completes the run when it is the ninth |
| RunHandlers.Shuffle | internal/play/play.go:398-404 | swapping in place yields the order its draws determine |
| RunHandlers.ShufflingPermutes | internal/play/play.go:398-404 | whatever the draws, shuffling keeps every value |
| RunHandlers.EveryOrderIsDrawn | internal/play/play.go:398-404 | every order of the values comes from some draws |
| RunHandlers.EachOrderIsDrawnOnce | internal/play/play.go:398-404 | different values are put in one order only by draws that agree place by place, so no order is favoured |
| RunHandlers.InSeededOrder | internal/play/play.go:316-318 | the options are the answer and the wrong options, each as often as stored |
| Generator.EligibleExactly | internal/content/store.go:350-391 | the query lists exactly the active, well-formed questions that are on no other board within the cooldown |
| Generator.FillIsSound | internal/puzzle/generator.go:351-394 | a filled topic has one eligible question of each difficulty, with new and different answers when the rule is on |
| Generator.StarvingIsJustified | internal/puzzle/generator.go:363-380 | a topic starves because nothing is eligible, or because all that is eligible repeats an answer spent before it was tried or taken by its own picks below, which are given |
| Generator.FillsIffItCan | internal/puzzle/generator.go:364-372 | with the answer rule off a topic fills if and only if each difficulty has an eligible question, whatever the draws |
| Generator.OrderIsPermutation | internal/puzzle/generator.go:298-322 | the weighted order holds each topic once |
| Generator.DrawsAreProportional | internal/puzzle/generator.go:305-317 | of the possible draws exactly as many as its weight select each topic |
| Generator.PlacesAreDrawn | internal/puzzle/generator.go:301-322 | at every place of the order stands the topic whose share of the weights, among the topics that have no place yet, holds that place's draw |
| Generator.SharesAreProportional | internal/puzzle/generator.go:305-317 | of the possible draws for a place each topic left holds exactly its weight in number, and no draw belongs to two |
| Generator.PicksAreDrawn | internal/puzzle/generator.go:363-391 | each question of a filled topic is the one its own draw points at among the eligible ones whose answers are still free, by id |
| Generator.CandidatesAreUsable | internal/puzzle/generator.go:363-381 | the candidates for a difficulty are, by id, the eligible questions whose answers are neither spent nor taken |
| Generator.EligibleMeans | internal/content/store.go:350-391 | eligible means of the topic and difficulty, active, with at least one alias and three wrong options, and on no other board but those at least the cooldown away |
| Generator.NearbyAnswersMean | internal/content/store.go:295-345 | the spent answers are those on other boards strictly within the answer cooldown, and there are none to speak of when it is off |
| GeneratorStore.Draw | internal/puzzle/generator.go:305-317 | subtracting weights always breaks inside the loop, at the topic the draw falls on |
| GeneratorStore.WeightedTopicOrder | internal/puzzle/generator.go:301-322 | the shrinking list yields the weighted order and one draw per topic; every place went to the topic whose share of the remaining weights held the draw |
| GeneratorStore.FreshAnswers | internal/puzzle/generator.go:399-409 | keeps, in order, the candidates whose answer is spent neither nearby nor by this topic |
| GeneratorStore.FillTopicFrom | internal/puzzle/generator.go:351-394 | picks easiest first, and returns nothing of a topic that starves halfway |
| GeneratorStore.Store.FillPinned | internal/puzzle/generator.go:169-190 | pins are filled in position order and the first that starves ends the attempt |
| GeneratorStore.Store.FillRemaining | internal/puzzle/generator.go:192-216 | free positions are filled in order, a starved topic costs nothing |
| GeneratorStore.Store.GenerateFor | internal/puzzle/generator.go:124-233 | stores a made board and changes nothing otherwise |
| GeneratorStore.Store.Insert | internal/puzzle/store.go:77-93 | the stored rows are the entries |
| GeneratorStore.Store.SetPins | internal/puzzle/rebuild.go:61-73 | the date's pins become exactly the wanted ones |
| GeneratorStore.Store.RebuildBoard | internal/puzzle/rebuild.go:31-53 | refuses a date that is not in the future or has runs, and otherwise regenerates |
| GeneratorStore.Store.RebuildWithPins | internal/httpapi/admin.go:208-253 | pins and board change together or not at all |
| GeneratorStore.Store.AdminSetTopics | internal/httpapi/admin.go:150-193 | a position out of range or a topic twice is refused, and the last word on a position counts |
| GeneratorStore.LastWordWins | internal/httpapi/admin.go:172-182 | a position is pinned to the last topic the request names for it, and to none if it names none |
| Boards.MadeBoardsAreSound | internal/puzzle/generator.go:158-232 | whatever the draws, a made board has three columns of three difficulties, honours the pins, uses eligible questions and, with the rule on, new and different answers |
| Boards.EveryCellOnce | internal/puzzle/generator.go:383-391 | each position and difficulty is on the board exactly once |
| Boards.QuestionsDiffer | internal/puzzle/generator.go:381-391 | the nine questions are different |
| Boards.ShortageIsExplained | internal/puzzle/generator.go:192-226 | a shortage counts pins and accepted topics, accounts for every choosable topic exactly once, gives reasons that were true of the board when each topic was tried, and its final spent set is the nearby answers and those of the entries kept |
| Boards.EasyRepeatsAreSpent | internal/puzzle/generator.go:45-48 | a topic starved at its first difficulty repeats only answers spent nearby or on the board |
| Boards.PinsStarveOnlyByPins | internal/puzzle/generator.go:155-157 | a pin is starved only by nearby days, the pins to its left and its own picks below |
| Boards.MadeIffFillable | internal/puzzle/generator.go:158-226 | with the answer rule off a board is made if and only if every pinned topic and enough others can fill a column |
| Boards.MadeBoardsFollowTheOrder | internal/puzzle/generator.go:192-216 | after its pins a made board has the first topics of the weighted order that could be filled, left to right; those tried before them starved for reasons that were true, and trying stops with the last one needed |
| Schedule.HistoryKeeps | internal/puzzle/generator.go:124-233 | the schedule's invariant holds after every sequence of generation, rebuild, play, edit and the passing of days |
| Schedule.StepKeeps | internal/puzzle/rebuild.go:31-53 | each operation keeps the invariant |
| Schedule.EveryBoardIsAGrid | internal/puzzle/generator.go:383-391 | every board on the schedule holds each cell once, three topics, nine questions and its pins |
| Schedule.QuestionsRest | internal/content/store.go:366-371 | a question on two dates is on dates at least the cooldown apart |
| Schedule.AnswersRest | internal/content/store.go:295-302 | with the rule on, equal answers are never on one board and are at least its cooldown apart |
| Schedule.SettledBoardsNeverChange | internal/puzzle/rebuild.go:31-45 | a board that has a run, or whose day has come, never changes, and no date loses its board |
| Schedule.GenerationIsIdempotent | internal/puzzle/generator.go:106-111 | a date with a board is returned unchanged, whatever the draws |
| Schedule.RebuildIsAllOrNothing | internal/httpapi/admin.go:208-253 | success shows exactly the given pins and touches one date, failure changes nothing |
| Schedule.RebuildDecides | internal/puzzle/rebuild.go:31-53 | a rebuild succeeds exactly for known topics in different positions of a later, unplayed date for which a board can then be made, and a refusal names the first of these to fail |
| Schedule.BoardsAreTheLastMade | internal/puzzle/generator.go:124-233 | a date has a board if and only if one was made for it, and it is the last one made |
| Schedule.DaysAndRunsAreKept | internal/puzzle/rebuild.go:39-45 | the day advances with midnights alone, and the dates that count as played are exactly those a run was started on |
| Schedule.PlayedBoardsStay | internal/puzzle/rebuild.go:31-45 | from the first run on a date, or from its day on, its board is the same for ever |
| Schedule.RowsFitTheKeys | internal/db/migrations/00001_initial_schema.sql:59-72 | the rows of a good board meet every uniqueness constraint and check of their table |
| Schedule.BoardsReadBack | internal/puzzle/store.go:32-73 | however its rows were written, a board reads back as its nine cells in one canonical order |
| Ensure.LockKeysDiffer | internal/puzzle/ensure.go:83-89 | lock keys fit 32 bits and differ for different dates |
| Ensure.RunKeeps | internal/puzzle/ensure.go:40-81 | every interleaving keeps locks, rows and callers consistent |
| Ensure.OneInside | internal/puzzle/ensure.go:54-65 | no two callers for a date are inside the lock at once |
| Ensure.InsertsAreFree | internal/puzzle/ensure.go:54-65 | an insert neither waits on another caller's row nor collides with a committed one |
| Ensure.NobodyConflicts | internal/puzzle/ensure.go:54-61 | no caller meets a key conflict, however the others fail |
| Ensure.OneBoardPerDate | internal/puzzle/ensure.go:54-61 | a date gets at most one board, ever |
| Ensure.CommittedWasMade | internal/puzzle/ensure.go:67-80 | a committed board is one that generation made in a caller for that date |
| Ensure.ServedAlike | internal/puzzle/ensure.go:26-28 | callers who are served for one date are served one board, the committed one |
| Ensure.FailedForAReason | internal/puzzle/ensure.go:40-81 | a caller fails only by a move of its own that was an error, an unanswered commit or a generation that made no board |
| Ensure.FinishedMeansServed | internal/puzzle/ensure.go:40-81 | a finished caller with no such move has been served the committed board of its date |
| Ensure.FirstReadDecides | internal/puzzle/ensure.go:44-46 | the first read serves a committed board at once, and otherwise never finishes the caller |
| Ensure.CommitsAreStored | internal/puzzle/ensure.go:74-80 | a commit stores the board its caller wrote, whether or not the caller hears of it, and nothing else changes what is stored |
| Ensure.SixMovesAtMost | internal/puzzle/ensure.go:40-81 | a caller is done after at most six moves of its own |
| Ensure.LocksAreReleased | internal/puzzle/ensure.go:57-59 | a finished caller holds no lock |
| Ensure.WaitsForItsOwnDate | internal/puzzle/ensure.go:83-86 | an unfinished caller can go on, or waits for one of its own date that can |
| LoginCodes.SweepingKeepsLimits | internal/accounts/store.go:229-238 | sweeping rows older than the longest window changes no limit decision |
| LoginCodes.CodesPerFastWindow | internal/accounts/store.go:87-89 | at most the configured number of codes per address in any short window |
| LoginCodes.CodesPerDay | internal/accounts/store.go:90-91 | at most the configured number of codes per address in any twenty-four hours |
| LoginCodes.CodesPerAddressOfOrigin | internal/accounts/store.go:96-98 | at most the configured number of codes per network address in any hour |
| LoginCodes.GuessesPerCode | internal/accounts/store.go:132-144 | a code is open to at most the configured number of guesses |
| LoginCodes.FailsPerHour | internal/accounts/store.go:92-95 | the codes of any hour absorb at most the hourly limit less one plus one code's budget of failed guesses |
| LoginCodes.GuessesPerDay | internal/accounts/store.go:42-49 | the codes of any day are open to at most the product of both limits |
| LoginCodes.OneLiveCode | internal/accounts/store.go:42-49 | at most one code per address is live, and it is the newest |
| LoginCodes.SignInSpendsTheCode | internal/accounts/store.go:117-155 | a guess signs in exactly when it matches the live code in time and within budget, and then no live code is left |
| LoginCodes.FreshCodeSignsIn | internal/accounts/store.go:42-62 | a code that was sent signs its address in until it expires |
| LoginCodes.RequestsAreDecidedByWindows | internal/accounts/store.go:68-100 | after any history a request is allowed if and only if the address has had fewer codes than each limit in the short window and the day, fewer misses in the hour, and the network address has room; a refusal names the first limit reached |
| LoginCodes.CountsAreWindows | internal/accounts/store.go:73-84 | the four counts of the query are those of the windows that end now |
| LoginCodes.RequestsAreRecorded | internal/accounts/store.go:42-62 | an allowed request records a fresh code with all its columns and consumes every other live code of the address; a refused one changes nothing |
| LoginCodes.RowsAfterRequest | internal/accounts/store.go:42-62 | the table then holds the new code and the rows of other addresses, and nothing older than the retention |
| LoginCodes.RefusalsNameTheirReason | internal/accounts/store.go:132-162 | a guess that does not sign in costs the live code one attempt and is told the first that is so: too many misses, expired, wrong |
| LoginCodes.NothingToGuess | internal/accounts/store.go:147-151 | without a live code a guess is wrong and changes nothing |
| LoginCodes.KeptExactly | internal/accounts/store.go:229-238 | sweeping keeps exactly the rows created at the cutoff or later |
| LoginCodes.ConsumedStaysConsumed | internal/accounts/store.go:132-141 | a consumed code never changes and so never verifies again |
| LoginCodes.TokenStore.RequestCode | internal/accounts/store.go:26-63 | decides from the rows left after sweeping; the decision names the first limit that the windows ending now have reached over everything ever sent and guessed, and allows exactly when none has |
| LoginCodes.TokenStore.SendCode | internal/accounts/store.go:26-63 | a bad address changes nothing, a limit is reported, and otherwise the hash of the new code is recorded |
| LoginCodes.TokenStore.VerifyCode | internal/accounts/store.go:117-162 | updates the newest live row and gives the verdict of the whole record |
| LoginCodes.TokenStore.SignIn | internal/accounts/store.go:104-163 | a malformed address or code costs nothing, a wrong one an attempt, and a right one yields the account of the address |
| LoginCodes.TokenStore.UpsertUser | internal/accounts/store.go:165-180 | the account of an address, created once and never shared |
| LoginCodes.TokenStore.Sweep | internal/accounts/store.go:229-238 | deletes exactly the rows created before the cutoff |
| Paste.LooksStructural | internal/content/paste.go:106-119 | the scan past blanks decides whether a structural character or the end follows |
| Paste.LookaheadMeans | internal/content/paste.go:103-119 | something structural follows exactly when, past any spaces, tabs and line breaks, there is a comma, a colon, a closing brace or bracket, or nothing |
| Paste.StraightenDelimiters | internal/content/paste.go:65-101 | the flag-driven loop is the scanner |
| Paste.OnlyCurlyMarksChange | internal/content/paste.go:49-51 | length is kept, and only curly double quotes change, into straight ones |
| Paste.LookaheadSurvives | internal/content/paste.go:103-119 | straightening never changes what a lookahead sees |
| Paste.StraightenIsIdempotent | internal/content/paste.go:65-101 | straightening twice is straightening once |
| Paste.StraightenRestores | internal/content/paste.go:58-64 | a JSON document typed with any mix of marks is restored if and only if no string in it misleads |
| Paste.AnInnerMarkMisleads | internal/content/paste.go:83-89 | a document with a quotation before a comma that does not come back |
| Paste.FenceComesOff | internal/content/paste.go:32-47 | a fence with a tag line comes off, surrounding white space with it |
| Paste.RepairRestoresFenced | internal/content/paste.go:23-28 | a fenced document is restored if and only if no string in it misleads |
| Paste.RepairRestoresBare | internal/content/paste.go:23-28 | a bare document that is not yet valid is restored if and only if no string in it misleads |
| Paste.ValidFilesAreUntouched | internal/content/paste.go:23-26 | a file that is already valid comes back as it is |
| Paste.StraightDocumentsAreUntouched | internal/content/paste.go:18-26 | so a document typed with straight marks comes back unchanged, even where its strings would mislead the straightening |
| Paste.NoFenceNoChange | internal/content/paste.go:33-42 | what does not start with a fence, or has no line after it, keeps its text |
| Paste.UnclosedFenceComesOff | internal/content/paste.go:37-46 | a fence that is never closed comes off, and everything after its line stays |
| Cookies.EncodingRoundTrips | internal/httpapi/cookies.go:39-50 | unpadded base64url decoding undoes encoding for every byte string |
| Cookies.EncodesGroupByGroup | internal/httpapi/cookies.go:39-42 | each three bytes are four symbols of six bits each, high bits first, and the last group has as many symbols as its bytes need |
| Cookies.SymbolIsOfAlphabet | internal/httpapi/cookies.go:39-42 | the symbols are the URL-safe alphabet of RFC 4648, table 2 |
| Cookies.MacInputIsInjective | internal/httpapi/cookies.go:90-99 | no two pairs of name and payload give one hash input |
| Cookies.UnsignOfSign | internal/httpapi/cookies.go:39-62 | read under any key and name, a signed value yields its payload exactly when the hashes agree |
| Cookies.CookiesReadBack | internal/httpapi/cookies.go:34-62 | a cookie reads back under its own name; another name gives the hash another input, and reads nothing unless the hash collides |
| Cookies.AcceptedIsSigned | internal/httpapi/cookies.go:44-62 | an accepted value carries the hash of the very payload it yields |
| Cookies.SessionsReadBack | internal/httpapi/cookies.go:64-88 | an expiring cookie reads back exactly until its whole second, whatever its payload holds |
| Standings.AssignRanks | internal/httpapi/alltime.go:199-213 | in place, each rank is one plus the number strictly ahead |
| Standings.PlaceGlobally | internal/httpapi/alltime.go:377-404 | in any order of the accounts, counts those that qualify, finds the best and places the viewer |
| Standings.GlobalRankIsPosition | internal/httpapi/alltime.go:393-395 | the global place is the position in a list of the qualifying accounts |
| Standings.Streaks | internal/httpapi/server.go:634-654 | the longest row of consecutive days, and the row that ends today or yesterday |

## Left out

- HTTP routing, JSON and CSV encoding, mail, the judge's client, configuration, the command line, migrations and the browser client: input, output and wrappers.
- Unicode normalization, the hash functions and the random number generator: any total function, any function and any stream.
- Text that is not valid UTF-8: strings are sequences of characters, while Go replaces invalid bytes as it converts.
- The query plan: each SQL statement of a handler is one atomic step. In `RunLifecycle` the board, question, alias and verdict tables are read and written in steps of their own whose results are arbitrary; `RunHandlers` and `Judging` say what they are.
- RunLifecycle.HistoryKeeps: no statement fails, and no process stops between an answer write and its completing update.
- RunHandlers.RunStore.Load: the board it reads is not put in the reply, and neither is the order questions are shown in.
- Player records, referrals, share links and the touch of a player's last visit: they decide nothing about a run.
- LoginCodes.TokenStore.RequestCode: calls are serialized and time does not run backwards.
- LoginCodes.TokenStore.SignIn: how an address and a code are read and hashed is any function, and codes are whatever the caller draws.
- Generator.EligibleExactly: prompts, slugs and time limits are left out, and queries do not fail.
- Schedule.HistoryKeeps: generation steps are serialized, so two dates generated at the same moment are outside it, because only one date's callers exclude each other; the cooldowns stay the same throughout.
- Schedule.EditKeeps: edits keep the answers of scheduled questions; replacing the seed, the development reset and an edit of a scheduled answer are not steps of the schedule.
- Ensure.NobodyConflicts: no other writer touches the date, so an operator who generates the same date at that moment is outside it.
- Judging.HistoryKeeps: submissions to one question are serialized, writes succeed and no operator edits its aliases; scores are reals.
- Duplicates.CleanImportsKeepAnswersUnique: the library holds imported questions, which all have external ids.
- QuestionImport.ValidateQuestion: the conversion of flat files, slugs and duplicate identifiers within a file are not modelled.
- Standings.AssignRanks: averages are reals, so rounding to hundredths is whatever the caller stored; the sort before it and the per-topic sections are left out.
- Friends, invitations, the audit log, exports and the history page: storage and presentation.
