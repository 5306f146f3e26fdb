/**
 The session engine (`LearningModuleViewModel`): one learner working
 through one lesson's exercises or one quiz's questions inside a module.

 The view model's published fields are a `Session` record. The two
 services it talks to are part of the `App` value, so that a transition
 returns the next app state together with the list of service calls it
 issued, in order.
 */
module Session {
  import opened Common
  import opened Models
  import opened Catalog
  import opened Ledger

  datatype Session = Session(
    currentModule: Option<LanguageModule>,
    currentLesson: Option<Lesson>,
    currentQuiz: Option<Quiz>,
    currentExercise: Option<Exercise>,
    questionIndex: nat,
    userAnswers: seq<string>,
    showResults: bool)

  /** The catalog, the learner's progress record and the view model. */
  datatype App = App(catalog: Catalog, progress: UserProgress, session: Session)

  /** What a transition needs from outside: the clock, the calendar and a
      fresh identity for a badge minted during the step. */
  datatype Env = Env(now: int, days: DayCounter, badgeId: nat)

  /** A call into one of the two services. */
  datatype Call =
    | CatalogCompleteLesson(lessonId: nat, moduleId: nat)
    | CatalogCompleteQuiz(quizId: nat, moduleId: nat, score: int)
    | LedgerUpdateProgress(update: ProgressUpdate)
    | LedgerAddBadge(badge: Badge)

  datatype Step = Step(app: App, calls: seq<Call>)

  /** The minutes credited per finished lesson and per finished quiz. */
  const LessonMinutes := 15
  const QuizMinutes := 10

  function LessonUpdate(): ProgressUpdate { ProgressUpdate(None, Some(1), None, Some(LessonMinutes)) }
  function QuizUpdate(): ProgressUpdate { ProgressUpdate(None, None, Some(1), Some(QuizMinutes)) }

  /** A fresh view model. */
  function InitialSession(): Session {
    Session(None, None, None, None, 0, [], false)
  }

  /** The structural facts every transition keeps: at most one of lesson and
      quiz, an exercise only inside a lesson and taken from it, one answer
      slot per question, and a question index inside the quiz. */
  predicate SessionInvariant(s: Session) {
    && !(s.currentLesson.Some? && s.currentQuiz.Some?)
    && (s.currentExercise.Some? ==>
          s.currentLesson.Some? && s.currentExercise.value in s.currentLesson.value.exercises)
    && (s.currentQuiz.None? ==> s.questionIndex == 0)
    && (s.currentQuiz.Some? ==>
          && |s.userAnswers| == |s.currentQuiz.value.questions|
          && (s.questionIndex == 0 || s.questionIndex < |s.currentQuiz.value.questions|))
  }

  // ---------------------------------------------------------------------
  // Transitions that touch only the view model.
  // ---------------------------------------------------------------------

  /** `loadModule(_:)` */
  function LoadModule(s: Session, m: LanguageModule): (r: Session)
    ensures r.currentModule == Some(m)
    ensures r.currentLesson.None? && r.currentQuiz.None? && r.currentExercise.None?
    ensures r.questionIndex == 0 && r.userAnswers == [] && !r.showResults
    ensures SessionInvariant(r)
  {
    Session(Some(m), None, None, None, 0, [], false)
  }

  /** `startLesson(_:)`: positioned on the first exercise, if there is one. */
  function StartLesson(s: Session, l: Lesson): (r: Session)
    ensures r.currentLesson == Some(l) && r.currentQuiz.None?
    ensures |l.exercises| > 0 ==> r.currentExercise == Some(l.exercises[0])
    ensures |l.exercises| == 0 ==> r.currentExercise.None?
    ensures r.questionIndex == 0 && r.userAnswers == [] && !r.showResults
    ensures r.currentModule == s.currentModule
    ensures SessionInvariant(r)
  {
    s.(currentLesson := Some(l), currentQuiz := None,
       currentExercise := if |l.exercises| > 0 then Some(l.exercises[0]) else None,
       questionIndex := 0, userAnswers := [], showResults := false)
  }

  /** `startQuiz(_:)`: one empty answer per question. */
  function StartQuiz(s: Session, q: Quiz): (r: Session)
    ensures r.currentQuiz == Some(q) && r.currentLesson.None? && r.currentExercise.None?
    ensures |r.userAnswers| == |q.questions|
    ensures forall i :: 0 <= i < |r.userAnswers| ==> r.userAnswers[i] == ""
    ensures r.questionIndex == 0 && !r.showResults
    ensures r.currentModule == s.currentModule
    ensures SessionInvariant(r)
  {
    s.(currentQuiz := Some(q), currentLesson := None, currentExercise := None,
       questionIndex := 0, userAnswers := seq(|q.questions|, _ => ""), showResults := false)
  }

  /** `previousExercise()`: one step back, never before the first. */
  function PreviousExercise(s: Session): (r: Session)
    requires SessionInvariant(s)
    ensures SessionInvariant(r)
    ensures r == s.(currentExercise := r.currentExercise)
    ensures s.currentLesson.Some? && s.currentExercise.Some? ==>
              var exs := s.currentLesson.value.exercises;
              var k := FirstIndex(exs, ExerciseId, s.currentExercise.value.id);
              && (k.Some? && k.value > 0 ==> r.currentExercise == Some(exs[k.value - 1]))
              && (k.None? || k.value == 0 ==> r == s)
    ensures s.currentLesson.None? || s.currentExercise.None? ==> r == s
  {
    if s.currentLesson.None? || s.currentExercise.None? then s
    else
      var exs := s.currentLesson.value.exercises;
      match FirstIndex(exs, ExerciseId, s.currentExercise.value.id)
      case None => s
      case Some(i) => if i > 0 then s.(currentExercise := Some(exs[i - 1])) else s
  }

  /** `previousQuestion()`: the index never drops below zero. */
  function PreviousQuestion(s: Session): (r: Session)
    ensures r.questionIndex == (if s.questionIndex > 0 then s.questionIndex - 1 else 0)
    ensures r == s.(questionIndex := r.questionIndex)
  {
    if s.questionIndex > 0 then s.(questionIndex := s.questionIndex - 1) else s
  }

  /** `selectAnswer(_:for:)`: writes one slot; an index past the end is
      ignored. */
  function SelectAnswer(s: Session, answer: string, index: nat): (r: Session)
    ensures |r.userAnswers| == |s.userAnswers|
    ensures index < |s.userAnswers| ==> r.userAnswers[index] == answer
    ensures forall k :: 0 <= k < |s.userAnswers| && k != index ==> r.userAnswers[k] == s.userAnswers[k]
    ensures index >= |s.userAnswers| ==> r == s
    ensures r == s.(userAnswers := r.userAnswers)
  {
    if index < |s.userAnswers| then s.(userAnswers := s.userAnswers[index := answer]) else s
  }

  /** `resetCurrentSession()`: back to the overview of the same module. */
  function ResetCurrentSession(s: Session): (r: Session)
    ensures r.currentModule == s.currentModule
    ensures s.currentModule.Some? ==> r == LoadModule(s, s.currentModule.value)
    ensures r.currentLesson.None? && r.currentQuiz.None? && r.currentExercise.None?
    ensures r.questionIndex == 0 && r.userAnswers == [] && !r.showResults
  {
    Session(s.currentModule, None, None, None, 0, [], false)
  }

  /** `isQuestionAnswered(_:)` */
  predicate IsQuestionAnswered(s: Session, index: nat) {
    index < |s.userAnswers| && s.userAnswers[index] != ""
  }

  /** `canProceedToNextQuestion()`: the current question has an answer. */
  function CanProceedToNextQuestion(s: Session): (b: bool)
    ensures b <==> s.questionIndex < |s.userAnswers| && |s.userAnswers[s.questionIndex]| > 0
  {
    IsQuestionAnswered(s, s.questionIndex)
  }

  // ---------------------------------------------------------------------
  // Scoring.
  // ---------------------------------------------------------------------

  /** Content assumption the scorer relies on: every question's correct
      index points at one of its options. */
  predicate OptionsValid(qs: seq<Question>) {
    forall i :: 0 <= i < |qs| ==> 0 <= qs[i].correctAnswer < |qs[i].options|
  }

  /** A quiz the scorer can score without trapping: at least one question
      (an empty quiz divides zero by zero) and valid correct indices. */
  predicate Scorable(q: Quiz) {
    |q.questions| > 0 && OptionsValid(q.questions)
  }

  function CorrectOption(q: Question): string
    requires 0 <= q.correctAnswer < |q.options|
  {
    q.options[q.correctAnswer]
  }

  /** Answer `i` is right when its text equals the correct option's text. */
  predicate AnsweredCorrectly(qs: seq<Question>, answers: seq<string>, i: nat)
    requires OptionsValid(qs) && i < |qs|
  {
    i < |answers| && answers[i] == CorrectOption(qs[i])
  }

  /** The number of right answers among the first `n` questions. */
  function CorrectCount(qs: seq<Question>, answers: seq<string>, n: nat): (c: nat)
    requires OptionsValid(qs) && n <= |qs|
    ensures c <= n
  {
    if n == 0 then 0
    else CorrectCount(qs, answers, n - 1) + (if AnsweredCorrectly(qs, answers, n - 1) then 1 else 0)
  }

  /** The score as a whole percentage, truncated: the largest integer not
      above `100 * correct / questions`. */
  function QuizScore(q: Quiz, answers: seq<string>): (score: int)
    requires Scorable(q)
    ensures 0 <= score <= 100
    ensures var c := CorrectCount(q.questions, answers, |q.questions|);
            score * |q.questions| <= 100 * c < (score + 1) * |q.questions|
  {
    var c := CorrectCount(q.questions, answers, |q.questions|);
    TruncatedPercent(c, |q.questions|);
    c * 100 / |q.questions|
  }

  /** Integer division by the question count truncates: the quotient is the
      largest whole percentage not above the exact one, and n of n is 100. */
  lemma TruncatedPercent(c: nat, n: nat)
    requires 0 < n && c <= n
    ensures 0 <= c * 100 / n <= 100
    ensures (c * 100 / n) * n <= 100 * c < (c * 100 / n + 1) * n
    ensures c == n ==> c * 100 / n == 100
  {
    var p := c * 100;
    var s := p / n;
    QuotientBounds(p, n);
    MulAtMost(c, n, 100);
    assert s <= 100 by {
      if s > 100 { MulAtMost(101, s, n); }
    }
    if c == n {
      assert s >= 100 by {
        if s < 100 { MulAtMost(s + 1, 100, n); }
      }
    }
  }

  /** Euclidean division by a positive divisor brackets the dividend. */
  lemma QuotientBounds(p: nat, n: nat)
    requires 0 < n
    ensures (p / n) * n <= p < (p / n + 1) * n
  {
    var s := p / n;
    assert p == s * n + p % n;
    assert (s + 1) * n == s * n + n;
  }

  lemma MulAtMost(a: int, b: int, n: nat)
    requires a <= b
    ensures a * n <= b * n
  {
    assert b * n - a * n == (b - a) * n;
  }

  lemma {:induction false} CorrectCountAll(qs: seq<Question>, answers: seq<string>, n: nat)
    requires OptionsValid(qs) && n <= |qs|
    requires forall i :: 0 <= i < n ==> AnsweredCorrectly(qs, answers, i)
    ensures CorrectCount(qs, answers, n) == n
  {
    if n > 0 {
      CorrectCountAll(qs, answers, n - 1);
    }
  }

  /** All answers right gives exactly 100. */
  lemma AllCorrectScoresHundred(q: Quiz, answers: seq<string>)
    requires Scorable(q)
    requires forall i :: 0 <= i < |q.questions| ==> AnsweredCorrectly(q.questions, answers, i)
    ensures QuizScore(q, answers) == 100
  {
    CorrectCountAll(q.questions, answers, |q.questions|);
    TruncatedPercent(|q.questions|, |q.questions|);
  }

  /** `calculateQuizScore()`, the loop over the questions as written; no quiz
      scores 0. */
  method CalculateQuizScore(s: Session) returns (score: int)
    requires s.currentQuiz.Some? ==> Scorable(s.currentQuiz.value)
    ensures s.currentQuiz.None? ==> score == 0
    ensures s.currentQuiz.Some? ==> score == QuizScore(s.currentQuiz.value, s.userAnswers)
  {
    if s.currentQuiz.None? {
      return 0;
    }
    var qs := s.currentQuiz.value.questions;
    var correct := 0;
    var i := 0;
    while i < |qs|
      invariant 0 <= i <= |qs|
      invariant correct == CorrectCount(qs, s.userAnswers, i)
    {
      if i < |s.userAnswers| {
        if s.userAnswers[i] == qs[i].options[qs[i].correctAnswer] {
          correct := correct + 1;
        }
      }
      i := i + 1;
    }
    score := correct * 100 / |qs|;
  }

  // ---------------------------------------------------------------------
  // Completion and the two transitions that reach it.
  // ---------------------------------------------------------------------

  /** The badge awarded for passing a quiz. */
  function QuizBadge(q: Quiz, score: int, badgeId: nat, now: int): (b: Badge)
    ensures b.name == "Quiz Master" && b.dateEarned == Some(now)
    ensures b.description == "Passed " + q.title + " with " + IntToString(score) + "%"
  {
    Badge(badgeId, "Quiz Master", "Passed " + q.title + " with " + IntToString(score) + "%",
          "checkmark.seal.fill", "#4CAF50", Some(now))
  }

  /** `completeLesson()` of the view model. */
  function FinishLesson(app: App, env: Env): (r: Step)
    ensures var s := app.session;
            s.currentModule.None? || s.currentLesson.None? ==> r == Step(app, [])
    ensures var s := app.session;
            s.currentModule.Some? && s.currentLesson.Some? ==>
              && r.app.catalog == CompleteLesson(app.catalog, s.currentLesson.value.id,
                                                 s.currentModule.value.id, env.badgeId, env.now)
              && r.app.progress.totalLessonsCompleted == app.progress.totalLessonsCompleted + 1
              && r.app.progress.totalTimeSpent == app.progress.totalTimeSpent + LessonMinutes
              && r.app.progress.lastActivityDate == Some(env.now)
              && r.app.session.showResults
              && r.app.session.currentLesson == s.currentLesson
              && r.app.session.currentExercise == s.currentExercise
              && r.app.session.currentModule.Some?
              && (GetModule(r.app.catalog, s.currentModule.value.id).Some? ==>
                    r.app.session.currentModule == GetModule(r.app.catalog, s.currentModule.value.id))
  {
    var s := app.session;
    if s.currentModule.None? || s.currentLesson.None? then Step(app, [])
    else
      var m := s.currentModule.value;
      var l := s.currentLesson.value;
      var catalog := CompleteLesson(app.catalog, l.id, m.id, env.badgeId, env.now);
      var progress := UpdateProgress(app.progress, LessonUpdate(), env.now, env.days);
      var calls := [CatalogCompleteLesson(l.id, m.id), LedgerUpdateProgress(LessonUpdate())];
      match GetModule(catalog, m.id)
      case None =>
        Step(App(catalog, progress, s.(showResults := true)), calls)
      case Some(updated) =>
        var s' := s.(currentModule := Some(updated), showResults := true);
        if updated.isCompleted && updated.badgeEarned.Some? then
          Step(App(catalog, AddBadge(progress, updated.badgeEarned.value), s'),
               calls + [LedgerAddBadge(updated.badgeEarned.value)])
        else
          Step(App(catalog, progress, s'), calls)
  }

  /** `completeQuiz()` of the view model. */
  function FinishQuiz(app: App, env: Env): (r: Step)
    requires app.session.currentQuiz.Some? ==> Scorable(app.session.currentQuiz.value)
    ensures var s := app.session;
            s.currentModule.None? || s.currentQuiz.None? ==> r == Step(app, [])
    ensures var s := app.session;
            s.currentModule.Some? && s.currentQuiz.Some? ==>
              var q := s.currentQuiz.value;
              var score := QuizScore(q, s.userAnswers);
              && r.app.catalog == CompleteQuiz(app.catalog, q.id, s.currentModule.value.id, score)
              && r.app.progress.totalQuizzesCompleted == app.progress.totalQuizzesCompleted + 1
              && r.app.progress.totalTimeSpent == app.progress.totalTimeSpent + QuizMinutes
              && (|r.app.progress.badgesEarned| == |app.progress.badgesEarned| + 1 <==> score >= q.passingScore)
              && (score < q.passingScore ==> r.app.progress.badgesEarned == app.progress.badgesEarned)
              && r.app.session == s.(showResults := true)
  {
    var s := app.session;
    if s.currentModule.None? || s.currentQuiz.None? then Step(app, [])
    else
      var m := s.currentModule.value;
      var q := s.currentQuiz.value;
      var score := QuizScore(q, s.userAnswers);
      var catalog := CompleteQuiz(app.catalog, q.id, m.id, score);
      var progress := UpdateProgress(app.progress, QuizUpdate(), env.now, env.days);
      var calls := [CatalogCompleteQuiz(q.id, m.id, score), LedgerUpdateProgress(QuizUpdate())];
      if score >= q.passingScore then
        var b := QuizBadge(q, score, env.badgeId, env.now);
        Step(App(catalog, AddBadge(progress, b), s.(showResults := true)), calls + [LedgerAddBadge(b)])
      else
        Step(App(catalog, progress, s.(showResults := true)), calls)
  }

  /** `nextExercise()`: moves to the following exercise, or finishes the
      lesson from the last one. Without a current exercise nothing happens,
      so a lesson with no exercises can never be finished. */
  function NextExercise(app: App, env: Env): (r: Step)
    requires SessionInvariant(app.session)
    ensures app.session.currentLesson.None? || app.session.currentExercise.None? ==> r == Step(app, [])
    ensures var s := app.session;
            s.currentLesson.Some? && s.currentExercise.Some? ==>
              var exs := s.currentLesson.value.exercises;
              var k := FirstIndex(exs, ExerciseId, s.currentExercise.value.id);
              && (k.Some? && k.value < |exs| - 1 ==>
                    r == Step(app.(session := s.(currentExercise := Some(exs[k.value + 1]))), []))
              && (k.Some? && k.value >= |exs| - 1 ==> r == FinishLesson(app, env))
    ensures r.app.session.currentLesson == app.session.currentLesson
    ensures r.app.session.currentQuiz == app.session.currentQuiz
    ensures SessionInvariant(r.app.session)
  {
    var s := app.session;
    if s.currentLesson.None? || s.currentExercise.None? then Step(app, [])
    else
      var exs := s.currentLesson.value.exercises;
      match FirstIndex(exs, ExerciseId, s.currentExercise.value.id)
      case None => Step(app, [])
      case Some(i) =>
        if i < |exs| - 1 then Step(app.(session := s.(currentExercise := Some(exs[i + 1]))), [])
        else FinishLesson(app, env)
  }

  /** When `nextQuestion()` reaches the scorer: on the last question (or an
      empty quiz) with a module and a quiz loaded. */
  predicate WillScore(s: Session) {
    s.currentModule.Some? && s.currentQuiz.Some? &&
    !(s.questionIndex < |s.currentQuiz.value.questions| - 1)
  }

  /** The caller must not let the scorer trap. */
  predicate NextQuestionSafe(s: Session) {
    WillScore(s) ==> Scorable(s.currentQuiz.value)
  }

  /** `nextQuestion()`: advances below the last question, otherwise scores
      and finishes the quiz. */
  function NextQuestion(app: App, env: Env): (r: Step)
    requires SessionInvariant(app.session) && NextQuestionSafe(app.session)
    ensures app.session.currentQuiz.None? ==> r == Step(app, [])
    ensures var s := app.session;
            s.currentQuiz.Some? && s.questionIndex < |s.currentQuiz.value.questions| - 1 ==>
              r == Step(app.(session := s.(questionIndex := s.questionIndex + 1)), [])
    ensures WillScore(app.session) ==> r == FinishQuiz(app, env)
    ensures var s := app.session;
            (s.currentQuiz.Some? && s.currentModule.None? &&
             s.questionIndex >= |s.currentQuiz.value.questions| - 1) ==> r == Step(app, [])
    ensures r.app.session.currentQuiz == app.session.currentQuiz
    ensures SessionInvariant(r.app.session)
  {
    var s := app.session;
    if s.currentQuiz.None? then Step(app, [])
    else if s.questionIndex < |s.currentQuiz.value.questions| - 1 then
      Step(app.(session := s.(questionIndex := s.questionIndex + 1)), [])
    else if s.currentModule.None? then Step(app, [])
    else FinishQuiz(app, env)
  }

  // ---------------------------------------------------------------------
  // The issued calls explain the state change.
  // ---------------------------------------------------------------------

  function ApplyCall(catalog: Catalog, progress: UserProgress, call: Call, env: Env): (Catalog, UserProgress) {
    match call
    case CatalogCompleteLesson(l, m) => (CompleteLesson(catalog, l, m, env.badgeId, env.now), progress)
    case CatalogCompleteQuiz(q, m, score) => (CompleteQuiz(catalog, q, m, score), progress)
    case LedgerUpdateProgress(u) => (catalog, UpdateProgress(progress, u, env.now, env.days))
    case LedgerAddBadge(b) => (catalog, AddBadge(progress, b))
  }

  /** Running the calls one after the other against the two services. */
  function Replay(catalog: Catalog, progress: UserProgress, calls: seq<Call>, env: Env): (Catalog, UserProgress)
    decreases |calls|
  {
    if |calls| == 0 then (catalog, progress)
    else
      var next := ApplyCall(catalog, progress, calls[0], env);
      Replay(next.0, next.1, calls[1..], env)
  }

  /** Finishing a lesson changes the catalog and the progress record by
      exactly the calls it reports: the catalog completion, the progress
      update (one lesson, fifteen minutes), and the module's badge when the
      refreshed module is complete. */
  lemma FinishLessonReplays(app: App, env: Env)
    ensures var r := FinishLesson(app, env);
            (r.app.catalog, r.app.progress) == Replay(app.catalog, app.progress, r.calls, env)
    ensures var r := FinishLesson(app, env);
            var s := app.session;
            s.currentModule.Some? && s.currentLesson.Some? ==>
              && |r.calls| >= 2
              && r.calls[0] == CatalogCompleteLesson(s.currentLesson.value.id, s.currentModule.value.id)
              && r.calls[1] == LedgerUpdateProgress(LessonUpdate())
              && r.app.session.showResults
              && (|r.calls| == 3 <==>
                    (var m := GetModule(r.app.catalog, s.currentModule.value.id);
                     m.Some? && m.value.isCompleted && m.value.badgeEarned.Some?))
              && (|r.calls| == 3 ==>
                    r.calls[2] == LedgerAddBadge(GetModule(r.app.catalog, s.currentModule.value.id).value.badgeEarned.value))
  {
    var r := FinishLesson(app, env);
    var s := app.session;
    if s.currentModule.Some? && s.currentLesson.Some? {
      var m := s.currentModule.value;
      var l := s.currentLesson.value;
      var catalog := CompleteLesson(app.catalog, l.id, m.id, env.badgeId, env.now);
      var progress := UpdateProgress(app.progress, LessonUpdate(), env.now, env.days);
      var first := CatalogCompleteLesson(l.id, m.id);
      var second := LedgerUpdateProgress(LessonUpdate());
      ReplayPair(app.catalog, app.progress, first, second, env);
      match GetModule(catalog, m.id)
      case None =>
      case Some(updated) =>
        if updated.isCompleted && updated.badgeEarned.Some? {
          ReplayTriple(app.catalog, app.progress, first, second,
                       LedgerAddBadge(updated.badgeEarned.value), env);
        }
    }
  }

  /** Finishing a quiz changes the catalog and the progress record by
      exactly the calls it reports: the catalog completion with the score,
      the progress update (one quiz, ten minutes), and a "Quiz Master" badge
      exactly when the score reaches the pass mark. */
  lemma FinishQuizReplays(app: App, env: Env)
    requires app.session.currentQuiz.Some? ==> Scorable(app.session.currentQuiz.value)
    ensures var r := FinishQuiz(app, env);
            (r.app.catalog, r.app.progress) == Replay(app.catalog, app.progress, r.calls, env)
    ensures var r := FinishQuiz(app, env);
            var s := app.session;
            s.currentModule.Some? && s.currentQuiz.Some? ==>
              var q := s.currentQuiz.value;
              var score := QuizScore(q, s.userAnswers);
              && |r.calls| >= 2
              && r.calls[0] == CatalogCompleteQuiz(q.id, s.currentModule.value.id, score)
              && r.calls[1] == LedgerUpdateProgress(QuizUpdate())
              && r.app.session.showResults
              && (|r.calls| == 3 <==> score >= q.passingScore)
              && (|r.calls| == 3 ==> r.calls[2] == LedgerAddBadge(QuizBadge(q, score, env.badgeId, env.now)))
  {
    var r := FinishQuiz(app, env);
    var s := app.session;
    if s.currentModule.Some? && s.currentQuiz.Some? {
      var m := s.currentModule.value;
      var q := s.currentQuiz.value;
      var score := QuizScore(q, s.userAnswers);
      var first := CatalogCompleteQuiz(q.id, m.id, score);
      var second := LedgerUpdateProgress(QuizUpdate());
      ReplayPair(app.catalog, app.progress, first, second, env);
      if score >= q.passingScore {
        ReplayTriple(app.catalog, app.progress, first, second,
                     LedgerAddBadge(QuizBadge(q, score, env.badgeId, env.now)), env);
      }
    }
  }

  lemma ReplayPair(catalog: Catalog, progress: UserProgress, x: Call, y: Call, env: Env)
    ensures var a := ApplyCall(catalog, progress, x, env);
            Replay(catalog, progress, [x, y], env) == ApplyCall(a.0, a.1, y, env)
  {
    var a := ApplyCall(catalog, progress, x, env);
    var b := ApplyCall(a.0, a.1, y, env);
    assert [x, y][1..] == [y];
    assert [y][1..] == [];
    assert Replay(a.0, a.1, [y], env) == Replay(b.0, b.1, [], env);
  }

  lemma ReplayTriple(catalog: Catalog, progress: UserProgress, x: Call, y: Call, z: Call, env: Env)
    ensures var a := ApplyCall(catalog, progress, x, env);
            var b := ApplyCall(a.0, a.1, y, env);
            Replay(catalog, progress, [x, y] + [z], env) == ApplyCall(b.0, b.1, z, env)
  {
    var a := ApplyCall(catalog, progress, x, env);
    var b := ApplyCall(a.0, a.1, y, env);
    var c := ApplyCall(b.0, b.1, z, env);
    assert ([x, y] + [z])[1..] == [y, z];
    assert [y, z][1..] == [z];
    assert [z][1..] == [];
    assert Replay(b.0, b.1, [z], env) == Replay(c.0, c.1, [], env);
    assert Replay(a.0, a.1, [y, z], env) == Replay(b.0, b.1, [z], env);
  }

  /** No two exercises of a lesson share an id. */
  predicate DistinctExerciseIds(exs: seq<Exercise>) {
    forall i, j :: 0 <= i < j < |exs| ==> exs[i].id != exs[j].id
  }

  lemma FirstIndexDistinct(exs: seq<Exercise>, k: nat)
    requires DistinctExerciseIds(exs) && k < |exs|
    ensures FirstIndex(exs, ExerciseId, exs[k].id) == Some(k)
  {
  }

  /** Below the last exercise, Next and then Previous come back to the
      exercise one started from, without calling any service. */
  lemma NextThenPreviousReturns(app: App, env: Env, k: nat)
    requires SessionInvariant(app.session) && app.session.currentLesson.Some?
    requires var exs := app.session.currentLesson.value.exercises;
             DistinctExerciseIds(exs) && k + 1 < |exs| && app.session.currentExercise == Some(exs[k])
    ensures var r := NextExercise(app, env);
            && r.calls == []
            && r.app.session.currentExercise == Some(app.session.currentLesson.value.exercises[k + 1])
            && PreviousExercise(r.app.session) == app.session
  {
    var exs := app.session.currentLesson.value.exercises;
    FirstIndexDistinct(exs, k);
    FirstIndexDistinct(exs, k + 1);
  }

  /** Above the first exercise, Previous and then Next come back too. */
  lemma PreviousThenNextReturns(app: App, env: Env, k: nat)
    requires SessionInvariant(app.session) && app.session.currentLesson.Some?
    requires var exs := app.session.currentLesson.value.exercises;
             DistinctExerciseIds(exs) && 0 < k < |exs| && app.session.currentExercise == Some(exs[k])
    ensures var back := app.(session := PreviousExercise(app.session));
            && back.session.currentExercise == Some(app.session.currentLesson.value.exercises[k - 1])
            && NextExercise(back, env) == Step(app, [])
  {
    var exs := app.session.currentLesson.value.exercises;
    FirstIndexDistinct(exs, k);
    FirstIndexDistinct(exs, k - 1);
  }

  /** Finishing does not clear the lesson or the exercise, so a second
      `nextExercise()` on the last exercise finishes the lesson again and
      credits another lesson to the ledger. */
  lemma LessonFinishRepeats(app: App, env: Env, env2: Env)
    requires SessionInvariant(app.session)
    requires |NextExercise(app, env).calls| > 0
    ensures var first := NextExercise(app, env);
            var second := NextExercise(first.app, env2);
            && |second.calls| > 0
            && second.app.progress.totalLessonsCompleted == first.app.progress.totalLessonsCompleted + 1
  {
    NextExerciseAtLast(app, env);
    FinishLessonEffects(app, env);
    var first := NextExercise(app, env);
    LastExerciseFinishes(first.app, env2);
    FinishLessonEffects(first.app, env2);
  }

  /** The lesson is on its last exercise, where Next finishes it. */
  predicate AtLastExercise(s: Session) {
    && s.currentLesson.Some? && s.currentExercise.Some?
    && |s.currentLesson.value.exercises| > 0
    && FirstIndex(s.currentLesson.value.exercises, ExerciseId, s.currentExercise.value.id)
       == Some(|s.currentLesson.value.exercises| - 1)
  }

  lemma LastExerciseFinishes(app: App, env: Env)
    requires SessionInvariant(app.session) && AtLastExercise(app.session)
    ensures NextExercise(app, env) == FinishLesson(app, env)
  {
  }

  lemma NextExerciseAtLast(app: App, env: Env)
    requires SessionInvariant(app.session)
    requires |NextExercise(app, env).calls| > 0
    ensures AtLastExercise(app.session) && NextExercise(app, env) == FinishLesson(app, env)
  {
  }

  /** Finishing a lesson with a module loaded credits one lesson and keeps
      the lesson, its exercise and the module's identity in the session. */
  lemma FinishLessonEffects(app: App, env: Env)
    requires app.session.currentModule.Some? && app.session.currentLesson.Some?
    ensures var r := FinishLesson(app, env);
            && |r.calls| >= 2
            && r.app.progress.totalLessonsCompleted == app.progress.totalLessonsCompleted + 1
            && r.app.session.currentLesson == app.session.currentLesson
            && r.app.session.currentExercise == app.session.currentExercise
            && r.app.session.currentModule.Some?
  {
  }

  // ---------------------------------------------------------------------
  // The state machine as a whole.
  // ---------------------------------------------------------------------

  datatype Action =
    | Load(target: LanguageModule)
    | BeginLesson(lesson: Lesson)
    | BeginQuiz(quiz: Quiz)
    | Next
    | Previous
    | NextQ
    | PreviousQ
    | Select(answer: string, index: nat)
    | Reset

  predicate ActionSafe(s: Session, a: Action) {
    a.NextQ? ==> NextQuestionSafe(s)
  }

  function Perform(app: App, a: Action, env: Env): (r: Step)
    requires SessionInvariant(app.session) && ActionSafe(app.session, a)
    ensures SessionInvariant(r.app.session)
  {
    var s := app.session;
    match a
    case Load(m) => Step(app.(session := LoadModule(s, m)), [])
    case BeginLesson(l) => Step(app.(session := StartLesson(s, l)), [])
    case BeginQuiz(q) => Step(app.(session := StartQuiz(s, q)), [])
    case Next => NextExercise(app, env)
    case Previous => Step(app.(session := PreviousExercise(s)), [])
    case NextQ => NextQuestion(app, env)
    case PreviousQ => Step(app.(session := PreviousQuestion(s)), [])
    case Select(answer, i) => Step(app.(session := SelectAnswer(s, answer, i)), [])
    case Reset => Step(app.(session := ResetCurrentSession(s)), [])
  }

  /** Only the two finishing transitions call the services, and whatever
      they call leaves the ledger's streak invariant in place. */
  lemma PerformKeepsLedgerInvariant(app: App, a: Action, env: Env)
    requires SessionInvariant(app.session) && ActionSafe(app.session, a)
    requires StreakInvariant(app.progress)
    ensures StreakInvariant(Perform(app, a, env).app.progress)
    ensures !(a.Next? || a.NextQ?) ==> Perform(app, a, env).calls == []
  {
  }

  // ---------------------------------------------------------------------
  // Counters the overview shows.
  // ---------------------------------------------------------------------

  /** `getCompletedLessonsCount()` */
  function CompletedLessonsCount(s: Session): (n: nat)
    ensures s.currentModule.None? ==> n == 0
    ensures s.currentModule.Some? ==> n == CompletedLessons(s.currentModule.value.lessons)
  {
    if s.currentModule.None? then 0 else CompletedLessons(s.currentModule.value.lessons)
  }

  /** `getTotalLessonsCount()` */
  function TotalLessonsCount(s: Session): (n: nat)
    ensures s.currentModule.None? ==> n == 0
    ensures s.currentModule.Some? ==> n == |s.currentModule.value.lessons|
    ensures CompletedLessonsCount(s) <= n
  {
    if s.currentModule.None? then 0 else |s.currentModule.value.lessons|
  }

  /** `getCompletedQuizzesCount()` */
  function CompletedQuizzesCount(s: Session): (n: nat)
    ensures s.currentModule.None? ==> n == 0
    ensures s.currentModule.Some? ==> n == CompletedQuizzes(s.currentModule.value.quizzes)
  {
    if s.currentModule.None? then 0 else CompletedQuizzes(s.currentModule.value.quizzes)
  }

  /** `getTotalQuizzesCount()` */
  function TotalQuizzesCount(s: Session): (n: nat)
    ensures s.currentModule.None? ==> n == 0
    ensures s.currentModule.Some? ==> n == |s.currentModule.value.quizzes|
    ensures CompletedQuizzesCount(s) <= n
  {
    if s.currentModule.None? then 0 else |s.currentModule.value.quizzes|
  }

  /** `getProgressPercentage()`: the module's stored progress, read as is. */
  function ProgressPercentage(s: Session): (r: real)
    ensures s.currentModule.None? ==> r == 0.0
    ensures s.currentModule.Some? ==> r == s.currentModule.value.progress
  {
    if s.currentModule.None? then 0.0 else s.currentModule.value.progress
  }

  /** For a consistent module the overview's three numbers agree: the
      percentage is the completed share of the lessons, lies in [0, 1], and
      reaches 1 exactly when every lesson is counted as completed. */
  lemma OverviewCountsAgree(s: Session)
    requires s.currentModule.Some? && ProgressConsistent(s.currentModule.value)
    requires TotalLessonsCount(s) > 0
    ensures ProgressPercentage(s) == Ratio(CompletedLessonsCount(s), TotalLessonsCount(s))
    ensures 0.0 <= ProgressPercentage(s) <= 1.0
    ensures ProgressPercentage(s) >= 1.0 <==> CompletedLessonsCount(s) == TotalLessonsCount(s)
  {
    RatioReachesOne(CompletedLessonsCount(s), TotalLessonsCount(s));
  }
}
