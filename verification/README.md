# LinguaSync learning engine in Dafny

A model of the engine behind the LinguaSync language-learning app (`dafoma_72`). The engine has three parts:

- **Content catalog** (`DataService`). A list of language modules, each holding lessons and quizzes. Completing a lesson rebuilds its module: the module's progress is recomputed and a completion badge is minted. Completing a quiz records the score.
- **Progress ledger** (`ProgressService`). The learner's counters, daily streak, weekly goal, earned badges and preferences. It also has a few analytics read-outs.
- **Session engine** (`LearningModuleViewModel`). The state machine a learner walks through: the loaded module, the current lesson and exercise, or the current quiz with its question index and answers. It scores quizzes and runs the completion side effects on the catalog and the ledger.

The model also covers the small pure helpers in the views:

- screen choice, card locks and the quiz button in `LearningModuleView`;
- answer checking, multiple-choice option splitting and fill-in-the-blank rendering;
- the study-time label in `ProgressTrackerView`;
- the recent-badge list, motivational message and ring colour in `ProgressTrackerViewModel`;
- the onboarding pages and the hex colour decoder in `OnboardingView`.

Every Swift record has only `let` fields, so each one becomes an immutable `datatype`. Each update becomes a pure function returning the rebuilt value. Things outside the engine become parameters:

- the clock is an integer instant `now`;
- a `UUID` is a natural number chosen by the caller;
- the calendar's day difference is a function `days` passed in;
- a `Double` progress or percentage is a `real`.

A session transition returns a `Step`: the next state of catalog, ledger and view model, plus the list of service calls it issued. The lemmas `FinishLessonReplays` and `FinishQuizReplays` show that replaying those calls explains the whole change.

Modules, one per file:

| file | module | Swift origin |
|---|---|---|
| common.dfy | `Common` | `Option`, first-index search, `prefix`/`dropFirst`, decimal rendering, trimming |
| models.dfy | `Models` | Models/LanguageModel.swift |
| catalog.dfy | `Catalog` | Services/DataService.swift |
| ledger.dfy | `Ledger` | Services/ProgressService.swift |
| session.dfy | `Session` | ViewModels/LearningModuleViewModel.swift |
| tracker.dfy | `Tracker` | ViewModels/ProgressTrackerViewModel.swift |
| moduleview.dfy | `ModuleView` | Views/LearningModuleView.swift |
| timeformat.dfy | `TimeFormat` | Views/ProgressTrackerView.swift (`formatTime`) |
| onboarding.dfy | `Onboarding` | Views/OnboardingView.swift |
| scenarios.dfy | `Scenarios` | worked examples over the model |

Behaviours of the code that may surprise:

- The quiz score is truncated, not rounded.
- An empty quiz traps; it does not score 0. The scorer's precondition `Scorable` excludes that case.
- A completion badge is minted on every lesson completion that leaves the module complete, not only on the transition to complete.
- A quiz's `isCompleted` flag means "passed" (`score >= passingScore`). It does not mean "a score is recorded".
- A streak of consecutive days never grows past 1 through the app's own calls (see Findings).
- Swiping the onboarding pages skips the language and goal gates, so onboarding can finish with nothing chosen (`Onboarding.SwipeSkipsGates`).

## Model

| member | source | states |
|---|---|---|
| Common.FirstIndex | dafoma_72/Services/DataService.swift:33-34 | the search returns the first position whose id matches, and none exactly when no element has that id |
| Common.NatToStringParse | dafoma_72/ViewModels/LearningModuleViewModel.swift:145 | every decimal numeral is the rendering of its value, so rendering is one-to-one between naturals and numerals (partner of `ParseNatToString`) |
| Common.ParseNatToString | dafoma_72/ViewModels/LearningModuleViewModel.swift:145 | reading back the rendering of a number gives the number |
| Common.TrimBy | dafoma_72/Views/LearningModuleView.swift:564-565 | trimming gives the slice left after removing only characters of the class from both ends, and the result neither starts nor ends with one |
| Common.TrimByUnique | dafoma_72/Views/LearningModuleView.swift:564-565 | any slice with only class characters before and after it, and no class character at either of its ends, is the trimmed result |
| Common.PaddedTrim | dafoma_72/Views/LearningModuleView.swift:564-565 | padding a trimmed string with class characters on both sides trims back to the same string |
| Common.IntToStringInjective | dafoma_72/ViewModels/ProgressTrackerViewModel.swift:221 | two different integers never render to the same decimal text |
| Models.DifficultyFromName | dafoma_72/Models/LanguageModel.swift:174-177 | a raw value decodes to a difficulty exactly when it is that difficulty's name, and every name decodes back to its own difficulty |
| Models.DifficultyNameRoundTrip | dafoma_72/Models/LanguageModel.swift:170-177 | decoding a difficulty's raw value gives it back, and two difficulties never share a raw value |
| Models.DifficultyColor | dafoma_72/Models/LanguageModel.swift:179-185 | each difficulty has a seven-character `#RRGGBB` colour |
| Models.NewModule | dafoma_72/Models/LanguageModel.swift:24 | a freshly built module is not completed, has progress 0 and no badge |
| Models.NewLesson | dafoma_72/Models/LanguageModel.swift:48 | a freshly built lesson is not completed |
| Models.NewQuiz | dafoma_72/Models/LanguageModel.swift:67 | a freshly built quiz is not completed and has no score |
| Models.NewBadge | dafoma_72/Models/LanguageModel.swift:137 | a badge's earned date defaults to absent |
| Models.DefaultProgress | dafoma_72/Models/LanguageModel.swift:159 | the default progress has all counters and streaks at 0, no badges, no activity, weekly goal 5, and keeps longest ≥ current |
| Models.DefaultPreferences | dafoma_72/Models/LanguageModel.swift:238 | the default preferences have nothing chosen, no reminder, sound and haptics on, dark mode off, onboarding not done |
| Models.CompletedLessonsFull | dafoma_72/Services/DataService.swift:76-89 | the completed-lesson count equals the lesson count exactly when every lesson is completed |
| Models.CompletedLessonsMark | dafoma_72/Services/DataService.swift:65-78 | marking a lesson done raises the count by one if it was not done, and leaves it unchanged if it was |
| Models.FreshLessonsNoneCompleted | dafoma_72/Models/LanguageModel.swift:48 | lessons nobody has done count zero completed |
| Catalog.RatioReachesOne | dafoma_72/Services/DataService.swift:76-91 | the completed fraction lies in [0, 1] and reaches 1.0 exactly when every lesson is completed |
| Catalog.GetModule | dafoma_72/Services/DataService.swift:33-35 | the lookup yields the first module with the id, or nothing exactly when no module has it |
| Catalog.CompletionBadge | dafoma_72/Services/DataService.swift:134-142 | the completion badge is named "<language> <difficulty>", described "Completed <title>", with icon `star.fill`, colour `#FFD700`, dated now |
| Catalog.MarkLesson | dafoma_72/Services/DataService.swift:61-94 | only the target lesson is marked done; the other lessons, quizzes, identity and descriptive fields are kept; progress is the completed fraction; completion holds iff every lesson is done; a complete module gets a fresh badge, otherwise the old badge is kept |
| Catalog.CompleteLesson | dafoma_72/Services/DataService.swift:57-96 | an unknown module or lesson leaves the catalog unchanged; modules with other ids are untouched |
| Catalog.CompleteLessonFound | dafoma_72/Services/DataService.swift:57-96 | when found, the first matching module is rebuilt with its lesson marked, its progress recomputed and completion iff all lessons are done; every other module is kept |
| Catalog.CompleteLessonKeepsConsistent | dafoma_72/Services/DataService.swift:76-91 | completing a lesson keeps every module's progress and completion flag consistent with its lessons |
| Catalog.CompleteLessonTwice | dafoma_72/Services/DataService.swift:65-78 | completing the same lesson twice gives the same lesson flags, progress, completion and quizzes as completing it once |
| Catalog.CompleteLessonKeepsPositions | dafoma_72/Services/DataService.swift:57-96 | completing a lesson keeps the module and lesson at the same positions, and that lesson is then marked done |
| Catalog.RecompletionMintsBadge | dafoma_72/Services/DataService.swift:89-91 | a module that was already complete gets a brand-new badge when a lesson is completed again |
| Catalog.CompleteQuiz | dafoma_72/Services/DataService.swift:98-131 | only the quizzes of the matching module can change; an unknown module leaves the catalog unchanged |
| Catalog.CompleteQuizFound | dafoma_72/Services/DataService.swift:106-127 | the found quiz records the score and is marked done exactly when the score meets its pass mark; other quizzes, lessons, progress, completion and badge are unchanged |
| Catalog.CompleteQuizMissing | dafoma_72/Services/DataService.swift:99-100 | a quiz id not in the module leaves the catalog unchanged |
| Catalog.CompleteQuizKeepsConsistent | dafoma_72/Services/DataService.swift:119-127 | quiz completion never disturbs a module's lesson-based progress or completion |
| Catalog.UpdateModuleProgress | dafoma_72/Services/DataService.swift:37-55 | an unknown module leaves the catalog unchanged; the first module with the id gets exactly the given progress, is complete iff the value is at least 1.0, gets a fresh completion badge then and keeps its old badge otherwise, and keeps everything else; every other module is unchanged |
| Catalog.UpdateModuleProgressWithRatio | dafoma_72/Services/DataService.swift:37-55 | writing a module's own completed-lesson fraction back through the updater keeps that module consistent and leaves its progress value unchanged |
| Catalog.FreshModuleConsistent | dafoma_72/Models/LanguageModel.swift:24 | a freshly built module over untouched lessons is consistent |
| Catalog.SampleLessonExercises | dafoma_72/Services/DataService.swift:202-215 | lesson k of the sample receives exercises 3k to 3k+2 of the list, clamped to the list's end |
| Catalog.SampleLaterLessonsEmpty | dafoma_72/Services/DataService.swift:208-215 | with at most three exercises, the second and third sample lessons get none |
| Ledger.StreakStep | dafoma_72/Services/ProgressService.swift:295-311 | no previous activity gives 1, the same day gives max(1, s), the next day gives s+1, any other gap resets to 1, and a non-negative streak always ends at least 1 |
| Ledger.UpdateStreak | dafoma_72/Services/ProgressService.swift:288-327 | the streak is stepped by the day gap since the recorded activity, and the record streak is raised to max(old record, new streak) |
| Ledger.UpdateProgress | dafoma_72/Services/ProgressService.swift:26-99 | modules replace; lessons, quizzes and time add; lessons also add to weekly progress; any supplied field stamps the activity date; the record streak is max(old, new) and stays ≥ the current streak |
| Ledger.UpdateProgressSameDay | dafoma_72/Services/ProgressService.swift:43-95 | with any field supplied the streak becomes max(1, old), whatever the real gap since the last activity |
| Ledger.UpdateProgressNoFields | dafoma_72/Services/ProgressService.swift:95 | a call with no field keeps the activity date and steps the streak by the real gap |
| Ledger.StreakStuckAtOne | dafoma_72/Services/ProgressService.swift:43-95 | a streak of at most 1 stays at exactly 1 through any call with a field |
| Ledger.NextDayDoesNotExtend | dafoma_72/Services/ProgressService.swift:296-300 | activity yesterday and again today (gap of one day) leaves the streak at 1 |
| Ledger.UpdateProgressIntended | dafoma_72/Services/ProgressService.swift:26-99 | the reordered update adds the same lesson count, stamps the same date and keeps the streak invariant |
| Ledger.IntendedNextDayExtends | dafoma_72/Services/ProgressService.swift:295-311 | with the streak judged before stamping, a next-day call extends the streak and a same-day call keeps it |
| Ledger.AddBadge | dafoma_72/Services/ProgressService.swift:101-120 | the badge is appended at the end with the earlier list as prefix, with no deduplication; nothing else changes, not even the activity date |
| Ledger.SetWeeklyGoal | dafoma_72/Services/ProgressService.swift:122-138 | the goal is stored as given, without any range check, and no other field changes; its effect on the derived figures is in `SetWeeklyGoalAgainstProgress` |
| Ledger.SetWeeklyGoalAgainstProgress | dafoma_72/Services/ProgressService.swift:122-138 | any goal is accepted: a goal of 0 or less turns the weekly percentage off, a goal already reached reads as met with nothing outstanding, and a larger goal leaves exactly the difference outstanding |
| Ledger.ResetWeeklyProgress | dafoma_72/Services/ProgressService.swift:140-156 | only this week's lesson count goes back to 0; the goal, totals, streaks and badges are kept |
| Ledger.ResetWeeklyRestartsGoal | dafoma_72/Services/ProgressService.swift:140-156 | after the weekly reset the goal is kept, all of it is outstanding again, and the percentage is 0 |
| Ledger.UpdatePreferences | dafoma_72/Services/ProgressService.swift:159-256 | each supplied field replaces the stored one, and each absent field keeps it |
| Ledger.UpdatePreferencesLaws | dafoma_72/Services/ProgressService.swift:159-256 | the empty patch is the identity; applying a patch twice equals applying it once; no patch can clear a set reminder |
| Ledger.ResetAllData | dafoma_72/Services/ProgressService.swift:259-269 | every field of both records takes its default value, the ten of the progress record (no badges, goal 5, streaks 0, no activity date) and the seven of the preferences (no language, no goal, onboarding not done), which keeps the streak invariant |
| Ledger.ResetAllDataForgets | dafoma_72/Services/ProgressService.swift:259-269 | any two states reset to the same state, resetting twice is resetting once, and the result is the default progress and preferences |
| Ledger.WeeklyPercentage | dafoma_72/Services/ProgressService.swift:272-275 | the percentage is 0 without a positive goal; below the goal it is exactly progress divided by goal; it is exactly 1 iff the goal is reached, never above 1, and non-negative for non-negative progress |
| Ledger.WeeklyPercentageMonotone | dafoma_72/Services/ProgressService.swift:272-275 | more lessons this week never lower the weekly percentage |
| Ledger.LessonsUntilWeeklyGoal | dafoma_72/Services/ProgressService.swift:277-280 | the remaining count is never negative, is 0 iff the goal is reached, and otherwise adds up to the goal |
| Ledger.AverageTimePerLesson | dafoma_72/Services/ProgressService.swift:282-285 | the average is 0 before any lesson, and otherwise times the lesson count gives the total time |
| Session.LoadModule | dafoma_72/ViewModels/LearningModuleViewModel.swift:26-35 | loading sets the module and clears lesson, quiz, exercise, answers, index and results |
| Session.StartLesson | dafoma_72/ViewModels/LearningModuleViewModel.swift:37-44 | the lesson starts on its first exercise, or none for an empty lesson; quiz, answers and results are cleared |
| Session.StartQuiz | dafoma_72/ViewModels/LearningModuleViewModel.swift:46-53 | the quiz starts at question 0 with exactly one empty answer per question; lesson and exercise are cleared |
| Session.PreviousExercise | dafoma_72/ViewModels/LearningModuleViewModel.swift:71-81 | the exercise moves to the one before it in the lesson; on the first exercise, with an unknown exercise or with no lesson or exercise the session is unchanged; only the current exercise can change and the invariant is kept |
| Session.PreviousQuestion | dafoma_72/ViewModels/LearningModuleViewModel.swift:95-99 | the index moves back by one and never goes below 0; nothing else changes |
| Session.SelectAnswer | dafoma_72/ViewModels/LearningModuleViewModel.swift:101-104 | an index in range writes only that slot; an index out of range changes nothing |
| Session.ResetCurrentSession | dafoma_72/ViewModels/LearningModuleViewModel.swift:215-223 | reset keeps the module and equals reloading it |
| Session.CanProceedToNextQuestion | dafoma_72/ViewModels/LearningModuleViewModel.swift:206-213 | the learner may proceed iff the current question has a non-empty answer |
| Session.CorrectCount | dafoma_72/ViewModels/LearningModuleViewModel.swift:166-175 | among the first n questions, at most n are answered right |
| Session.QuizScore | dafoma_72/ViewModels/LearningModuleViewModel.swift:161-178 | the score lies in [0, 100] and is the largest integer not above 100·correct/questions |
| Session.CorrectCountAll | dafoma_72/ViewModels/LearningModuleViewModel.swift:166-175 | when every answer is right, the right-answer count equals the number of questions |
| Session.AllCorrectScoresHundred | dafoma_72/ViewModels/LearningModuleViewModel.swift:161-178 | all answers right score exactly 100 |
| Session.CalculateQuizScore | dafoma_72/ViewModels/LearningModuleViewModel.swift:161-178 | the loop counts the answers equal to the correct option's text and returns the truncated percentage; with no quiz it returns 0 |
| Session.QuizBadge | dafoma_72/ViewModels/LearningModuleViewModel.swift:145-151 | the quiz badge is "Quiz Master", described "Passed <title> with <score>%", dated now |
| Session.NextExercise | dafoma_72/ViewModels/LearningModuleViewModel.swift:56-69 | below the last exercise the exercise moves to the one after it with no service call; on the last exercise the lesson is finished exactly as `FinishLesson` does; with no lesson or exercise nothing happens; the session invariant is kept |
| Session.NextThenPreviousReturns | dafoma_72/ViewModels/LearningModuleViewModel.swift:56-81 | in a lesson with distinct exercise ids, Next below the last exercise followed by Previous returns to the same session |
| Session.PreviousThenNextReturns | dafoma_72/ViewModels/LearningModuleViewModel.swift:56-81 | past the first exercise, Previous followed by Next returns to the same session, without any service call |
| Session.NextQuestion | dafoma_72/ViewModels/LearningModuleViewModel.swift:84-93 | below the last question only the index advances; on the last question with a module loaded it finishes the quiz exactly as `FinishQuiz` does, and without a module nothing happens; with no quiz nothing happens; the quiz stays set and the invariant is kept |
| Session.FinishLessonReplays | dafoma_72/ViewModels/LearningModuleViewModel.swift:107-130 | finishing a lesson issues catalog completion, then a progress update of one lesson and 15 minutes, then, as a third call, the badge of the refreshed module iff that module is complete; replaying the calls gives exactly the new catalog and ledger |
| Session.FinishQuizReplays | dafoma_72/ViewModels/LearningModuleViewModel.swift:132-158 | finishing a quiz issues catalog completion with the score, then a progress update of one quiz and 10 minutes, then a "Quiz Master" badge iff the score reaches the pass mark; replaying the calls gives exactly the new catalog and ledger |
| Session.FinishLesson | dafoma_72/ViewModels/LearningModuleViewModel.swift:107-130 | with no module or lesson nothing happens; otherwise the catalog completes the lesson, the ledger credits one lesson and 15 minutes dated now, results show, and the lesson, exercise and a module stay loaded |
| Session.FinishQuiz | dafoma_72/ViewModels/LearningModuleViewModel.swift:132-158 | with no module or quiz nothing happens; otherwise the catalog records the score, the ledger credits one quiz and 10 minutes, exactly one badge is added iff the score reaches the pass mark, and only `showResults` changes in the session |
| Session.LessonFinishRepeats | dafoma_72/ViewModels/LearningModuleViewModel.swift:56-69 | because finishing does not clear the lesson, pressing Next again finishes it again and credits another lesson |
| Session.Perform | dafoma_72/ViewModels/LearningModuleViewModel.swift:26-223 | every transition of the view model keeps the session invariant: lesson and quiz exclusive, exercise from the lesson, one answer per question, index inside the quiz |
| Session.PerformKeepsLedgerInvariant | dafoma_72/ViewModels/LearningModuleViewModel.swift:107-158 | only Next and the quiz's Next call the services, and every transition keeps longest streak ≥ current streak |
| Session.TotalLessonsCount | dafoma_72/ViewModels/LearningModuleViewModel.swift:186-194 | with no module the total is 0, otherwise it is the module's number of lessons, and the completed count never exceeds it |
| Session.CompletedLessonsCount | dafoma_72/ViewModels/LearningModuleViewModel.swift:186-189 | with no module the count is 0, otherwise it is the number of completed lessons of the module |
| Session.TotalQuizzesCount | dafoma_72/ViewModels/LearningModuleViewModel.swift:196-204 | with no module the total is 0, otherwise it is the module's number of quizzes, and the completed count never exceeds it |
| Session.CompletedQuizzesCount | dafoma_72/ViewModels/LearningModuleViewModel.swift:196-199 | with no module the count is 0, otherwise it is the number of completed quizzes of the module |
| Session.ProgressPercentage | dafoma_72/ViewModels/LearningModuleViewModel.swift:181-184 | the percentage is 0 with no module and is the stored progress of the loaded module otherwise |
| Session.OverviewCountsAgree | dafoma_72/ViewModels/LearningModuleViewModel.swift:181-194 | for a consistent module with lessons, the percentage equals completed lessons over total lessons, lies in [0, 1], and reaches 1.0 exactly when the two counts agree |
| Tracker.KeepRecent | dafoma_72/ViewModels/ProgressTrackerViewModel.swift:205-207 | only dated badges from the last week are kept, never more often than earned, and each recent badge exactly as often as earned |
| Tracker.KeepRecentKeepsAll | dafoma_72/ViewModels/ProgressTrackerViewModel.swift:205-207 | every dated badge from the last week survives the filter |
| Tracker.SortNewestFirst | dafoma_72/ViewModels/ProgressTrackerViewModel.swift:208 | the output is ordered newest first and is a permutation of the input |
| Tracker.RecentAchievements | dafoma_72/ViewModels/ProgressTrackerViewModel.swift:201-209 | recent achievements are newest first, all recent, a sub-multiset of the earned badges, and hold each recent earned badge exactly as often as it was earned |
| Tracker.AddBadgeCounts | dafoma_72/ViewModels/ProgressTrackerViewModel.swift:211-213 | awarding a badge raises the total by exactly one |
| Tracker.TotalBadgesCount | dafoma_72/ViewModels/ProgressTrackerViewModel.swift:211-213 | the total is the number of badges earned, duplicates included |
| Tracker.NewBadgeIsRecent | dafoma_72/ViewModels/ProgressTrackerViewModel.swift:205-207 | a badge just awarded with today's date is among the recent achievements |
| Tracker.MotivationalMessage | dafoma_72/ViewModels/ProgressTrackerViewModel.swift:216-233 | a streak of 7 or more always picks the streak message; below that the first threshold of ≥1.0, ≥0.8, ≥0.5, then streak > 0 wins; each message holds iff its condition does |
| Tracker.GoalMetCongratulates | dafoma_72/ViewModels/ProgressTrackerViewModel.swift:222-223 | meeting the weekly goal without a week-long streak gives the congratulation |
| Tracker.MessageTextInjective | dafoma_72/ViewModels/ProgressTrackerViewModel.swift:216-233 | the six messages are pairwise different, and streak messages for different day counts differ |
| Tracker.Symbol | dafoma_72/ViewModels/ProgressTrackerViewModel.swift:216-233 | each message opens with its own symbol |
| Tracker.ProgressColor | dafoma_72/ViewModels/ProgressTrackerViewModel.swift:235-247 | green iff ≥ 1.0, blue iff in [0.7, 1), orange iff in [0.4, 0.7), red iff below 0.4 |
| Tracker.ProgressColorMonotone | dafoma_72/ViewModels/ProgressTrackerViewModel.swift:235-247 | more progress never shows a lower colour |
| ModuleView.ScreenFor | dafoma_72/Views/LearningModuleView.swift:23-31 | a lesson wins over a quiz, results show only with neither set, and otherwise the overview shows |
| ModuleView.FinishedLessonStaysOnLesson | dafoma_72/Views/LearningModuleView.swift:23-31 | after Next in a lesson, even one that finishes it, the lesson screen stays up and results are not shown |
| ModuleView.LessonLocked | dafoma_72/Views/LearningModuleView.swift:131 | lesson 0 is never locked, and lesson i > 0 is locked iff lesson i-1 is not completed |
| ModuleView.QuizLocked | dafoma_72/Views/LearningModuleView.swift:162 | quiz cards are locked exactly when a module is loaded and one of its lessons is not completed |
| ModuleView.QuizUnlockedWithoutLessons | dafoma_72/Views/LearningModuleView.swift:162 | a module without lessons, like no module at all, has its quizzes unlocked |
| ModuleView.TapLessonCard | dafoma_72/Views/LearningModuleView.swift:353 | tapping a locked lesson card does nothing, and an unlocked one does exactly what starting the lesson does |
| ModuleView.TapQuizCard | dafoma_72/Views/LearningModuleView.swift:410 | tapping a locked quiz card does nothing, and an unlocked one does exactly what starting the quiz does (question 0, one empty answer per question) |
| ModuleView.NextButtonLabel | dafoma_72/Views/LearningModuleView.swift:278 | the label reads "Finish" exactly on the last question of a loaded quiz |
| ModuleView.PressNextButton | dafoma_72/Views/LearningModuleView.swift:278-288 | while the current question is unanswered the button does nothing; once it is answered the button runs exactly the quiz's Next; the session invariant is kept |
| ModuleView.FinishButtonScores | dafoma_72/Views/LearningModuleView.swift:278-288 | pressing "Finish" with an answer scores the quiz in the catalog and shows results |
| ModuleView.Normalize | dafoma_72/Views/LearningModuleView.swift:564-565 | the normal form is the slice of the lower-cased answer left after removing white space at both ends only, so it has no upper-case letter and neither starts nor ends with white space |
| ModuleView.NormalizeIdempotent | dafoma_72/Views/LearningModuleView.swift:564-565 | normalising a normal form changes nothing |
| ModuleView.NormalizeIgnoresPadding | dafoma_72/Views/LearningModuleView.swift:564-565 | white space added on either side of an answer does not change its normal form |
| ModuleView.AnswerIgnoresCaseAndPadding | dafoma_72/Views/LearningModuleView.swift:563-567 | an answer matches iff its padded form matches, and its lower-cased form matches it |
| ModuleView.AnswerMatchingLaws | dafoma_72/Views/LearningModuleView.swift:563-567 | answer matching is reflexive, symmetric and transitive, and every answer matches its own normal form |
| ModuleView.Split | dafoma_72/Views/LearningModuleView.swift:596 | the options contain no separator, there is at least one, and joining them with `\|` gives back the content |
| ModuleView.SplitJoin | dafoma_72/Views/LearningModuleView.swift:596 | splitting a `\|`-joined list of separator-free options gives the list back |
| ModuleView.MultipleChoiceOptions | dafoma_72/Views/LearningModuleView.swift:596 | a multiple-choice exercise shows at least one option, and the options joined with `\|` give back the content |
| ModuleView.ReplaceBlanks | dafoma_72/Views/LearningModuleView.swift:576 | rendering blanks never shortens the text |
| ModuleView.ReplaceBlanksBlank | dafoma_72/Views/LearningModuleView.swift:576 | a `____` at the front becomes `_____` and the scan resumes right after it |
| ModuleView.ReplaceBlanksOther | dafoma_72/Views/LearningModuleView.swift:576 | any other first character is copied as it is and the scan moves on by one |
| ModuleView.ReplaceBlanksNoBlank | dafoma_72/Views/LearningModuleView.swift:576 | text without `____` is shown unchanged |
| ModuleView.ReplaceBlanksKeepsText | dafoma_72/Views/LearningModuleView.swift:576 | only underscores are added, and every other character is kept in order |
| TimeFormat.FormatTime | dafoma_72/Views/ProgressTrackerView.swift:328-340 | under an hour the label is the minutes followed by "m"; whole hours are the hour count (at least 1) followed by "h"; otherwise it is "<h>h <r>m" with h ≥ 1, r in 1..59 and 60·h + r equal to the input |
| TimeFormat.FormatTimeRoundTrip | dafoma_72/Views/ProgressTrackerView.swift:328-340 | every label reads back as the minutes it came from, so h·60 + r reconstructs the input |
| TimeFormat.FormatTimeInjective | dafoma_72/Views/ProgressTrackerView.swift:328-340 | two different durations never share a label |
| Onboarding.CanProceed | dafoma_72/Views/OnboardingView.swift:103-111 | pages 0 and 3 always allow proceeding, page 1 needs a language, page 2 needs a goal, and any other page blocks |
| Onboarding.Back | dafoma_72/Views/OnboardingView.swift:62-66 | Back steps back one page only past the first page, and changes nothing else |
| Onboarding.Swipe | dafoma_72/Views/OnboardingView.swift:41-57 | a swipe moves one page forward or back inside the four pages, ignoring the Next gates, and changes nothing else |
| Onboarding.CompleteOnboarding | dafoma_72/Views/OnboardingView.swift:113-126 | finishing stores exactly the chosen languages and goals, marks onboarding done, keeps the other preferences and sets only the weekly goal in the progress record |
| Onboarding.Next | dafoma_72/Views/OnboardingView.swift:79-86 | Next does nothing while the gate is shut; below the last page it only turns the page; on the last page ("Get Started") it marks the flow finished and runs `CompleteOnboarding`, and only there does the ledger change |
| Onboarding.RunStaysInRange | dafoma_72/Views/OnboardingView.swift:41-86 | after any sequence of presses or swipes the page is one of the four, and the ledger is untouched until onboarding finishes |
| Onboarding.SwipeSkipsGates | dafoma_72/Views/OnboardingView.swift:41-86 | swiping to the last page and pressing Get Started finishes onboarding with no language and no goal chosen |
| Onboarding.ScanHex | dafoma_72/Views/OnboardingView.swift:592 | the scanned value of an n-character string is below 16^n |
| Onboarding.DecodeHex | dafoma_72/Views/OnboardingView.swift:589-603 | every channel lies in [0, 255]; 3 or 6 digits give alpha 255; any other length but 8 gives (1, 1, 1, 0) |
| Onboarding.DecodeFormatColor | dafoma_72/Views/OnboardingView.swift:597-598 | a `#RRGGBB` colour decodes to alpha 255 and exactly its three bytes |
| Onboarding.FormatArgb | dafoma_72/Views/OnboardingView.swift:599-600 | an `#AARRGGBB` colour has nine characters, a hash, then eight hex digits |
| Onboarding.DecodeFormatArgb | dafoma_72/Views/OnboardingView.swift:599-600 | an `#AARRGGBB` colour decodes to exactly its four bytes, alpha first |
| Onboarding.DecodeEightDigits | dafoma_72/Views/OnboardingView.swift:592-600 | eight digits always scan to a value below 2^32, and the colour is read from that value as four bytes, alpha highest |
| Onboarding.Argb32Bytes | dafoma_72/Views/OnboardingView.swift:599-600 | the shifts and masks of the eight-digit case give back exactly the four bytes the value was built from |
| Onboarding.ShortFormDoubles | dafoma_72/Views/OnboardingView.swift:595-596 | three digits decode each nibble times 17 (so F is 255), the same as the six-digit form with every digit doubled |
| Onboarding.DifficultyColorsDecode | dafoma_72/Models/LanguageModel.swift:181-183 | the three difficulty colours decode to the channels their digits spell |
| Scenarios.ThreeOfFourScoresSeventyFive | dafoma_72/ViewModels/LearningModuleViewModel.swift:161-178 | four questions with three right answers score 75 |
| Scenarios.TwoLessonModuleScenario | dafoma_72/Services/DataService.swift:57-96 | in a two-lesson module, the first completion gives progress 0.5 and no badge, and the second gives 1.0, completion and the badge |
| Scenarios.LastLessonBadgeReachesLedger | dafoma_72/ViewModels/LearningModuleViewModel.swift:116-125 | finishing the last lesson records in the ledger the same badge the catalog minted |
| Scenarios.QuizPassedAtEighty | dafoma_72/ViewModels/LearningModuleViewModel.swift:132-158 | with pass mark 70, a score of 80 marks the quiz passed and adds "Quiz Master", described "Passed Basics with 80%" |
| Scenarios.LaterSampleLessonStalls | dafoma_72/ViewModels/LearningModuleViewModel.swift:37-69 | a sample lesson without exercises cannot be finished by pressing Next |

## Left out

- Persistence: saving to and loading from `UserDefaults` with JSON (ProgressService.swift:330-356) is not modelled. The ledger starts from whatever records are given.
- The network gate in `ContentView` is network I/O and is not modelled.
- `@Published` reactivity, SwiftUI layout, navigation and previews are presentation only. `SettingsView` only forwards toggles to `updatePreferences`, which is modelled.
- The asynchronous delays (`DispatchQueue.main.asyncAfter`) are scheduling, not logic.
- The random chart and weekly-dot data in `ProgressTrackerViewModel` are nondeterministic by design.
- Calendar arithmetic and time zones: the whole-day difference between two instants is the `days` parameter. `Date()` is the `now` parameter, and `oneWeekAgo` is passed in too.
- Session.QuizScore: the score is `floor(100·correct/questions)` on exact rationals. Swift's `Int(Double(correct)/Double(count) * 100)` can come out one lower for some ratios, because of binary floating point.
- Ledger.UpdateProgress: Swift's `Int` addition traps on overflow (ProgressService.swift:52, 60, 68, 84). Dafny's `int` is unbounded, so the model adds without that trap. The same holds for the streak increment in `Ledger.StreakStep` (ProgressService.swift:303) and the answer counter in `Session.CorrectCount` (LearningModuleViewModel.swift:172). None of these counters comes near the 64-bit limit in use.
- Session.QuizScore: `question.options[question.correctAnswer]` (LearningModuleViewModel.swift:169) traps when the correct-answer index lies outside the options. `OptionsValid`, part of `Scorable`, excludes such quizzes as a precondition instead of modelling the crash. `Session.FinishQuiz` and `Session.CalculateQuizScore` inherit this precondition.
- Session.QuizScore: an empty quiz traps in the app (`Int` of NaN). `Scorable` excludes it as a precondition instead of modelling the crash.
- Catalog.RatioReachesOne: progress is an exact rational. In `Double`, a completed fraction can in principle round differently, but for realistic lesson counts `n/n` is exactly 1.0.
- Onboarding.DecodeHex: the final `Double(x) / 255` conversion to colour components is floating point and is left out.
- Onboarding.ScanHex: `Scanner.scanHexInt64` overflow on more than 16 digits is not modelled. Only lengths 3, 6 and 8 use the value, and those cannot overflow.
- Onboarding.CompleteOnboarding: the order in which `Array(Set)` lists the chosen languages and goals is unspecified in Swift. It is a parameter constrained to list each element once.
- ModuleView.Normalize: lower-casing and white-space trimming are ASCII only (`A`–`Z`, and space, tab, newline, carriage return, vertical tab, form feed). Foundation's Unicode case mapping and its wider white-space set are not modelled.
- Onboarding.DecodeHex: `CharacterSet.alphanumerics` is approximated by ASCII letters and digits.
- ModuleView.LessonLocked: the view reads the locks from the module it was created with, which is a copy that may be older than the view model's refreshed module. The model takes the lesson list as a parameter.
- Tracker.SortNewestFirst: Swift's `sorted(by: >)` is not stable, so badges with equal dates may appear in another order. The model's insertion sort is one valid outcome, and its contract states only order and permutation.
- The "Check Answer" button's disabled state (LearningModuleView.swift:556-557) and the exercise and results screens' remaining layout are presentation only.
- `LessonType.iconName` and `ExerciseType.iconName` are display strings and are not modelled.
- The sample content's texts (DataService.swift:144-410) appear only as the concrete shape used in `Scenarios`.

## Findings

| source | as written | input that shows it | evidently intended | confidence | as-written member | corrected member |
|---|---|---|---|---|---|---|
| dafoma_72/Services/ProgressService.swift:43-95 | every supplied field of `updateProgress` sets `lastActivityDate` to now before `updateStreak` compares that date with now, so the day gap is always 0 | last activity yesterday with streak 1, then `updateProgress(lessonsCompleted: 1, timeSpent: 15)` today: the streak stays 1 | the gap is measured from the previous activity, so the next day extends the streak to 2 | not executed | Ledger.NextDayDoesNotExtend | Ledger.IntendedNextDayExtends |

The session engine uses the update as written (`Ledger.UpdateProgress`), because that is what the app runs. `Ledger.UpdateProgressIntended` judges the streak first and then applies the fields. It is proved separately to extend the streak on the next day and to keep it on the same day.
