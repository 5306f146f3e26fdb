/**
 Worked examples proved about the model: a quiz scored at 75, a two-lesson
 module completed lesson by lesson, a quiz passed at 80, and the sample
 content's exercise slicing.
 */
module Scenarios {
  import opened Common
  import opened Models
  import opened Catalog
  import opened Ledger
  import opened Session

  function TwoOptionQuestion(id: nat): Question {
    Question(id, "Pick the greeting", ["Hola", "Adiós"], 0, "")
  }

  function Questions(n: nat): (qs: seq<Question>)
    ensures |qs| == n && OptionsValid(qs)
    ensures forall i :: 0 <= i < n ==> qs[i] == TwoOptionQuestion(i)
  {
    if n == 0 then [] else Questions(n - 1) + [TwoOptionQuestion(n - 1)]
  }

  function GreetingQuiz(id: nat, count: nat, passingScore: int): (q: Quiz)
    requires count > 0
    ensures |q.questions| == count && Scorable(q)
  {
    NewQuiz(id, "Basics", Questions(count), passingScore)
  }

  /** Four questions, three answered right: 75. */
  lemma ThreeOfFourScoresSeventyFive()
    ensures QuizScore(GreetingQuiz(1, 4, 70), ["Hola", "Hola", "Adiós", "Hola"]) == 75
  {
    var q := GreetingQuiz(1, 4, 70);
    var answers := ["Hola", "Hola", "Adiós", "Hola"];
    assert AnsweredCorrectly(q.questions, answers, 0);
    assert AnsweredCorrectly(q.questions, answers, 1);
    assert !AnsweredCorrectly(q.questions, answers, 2);
    assert AnsweredCorrectly(q.questions, answers, 3);
    assert CorrectCount(q.questions, answers, 4) == 3;
  }

  function TwoLessonModule(): LanguageModule {
    NewModule(7, "Greetings", "Say hello", "Spanish", Beginner, 30,
              [NewLesson(1, "Hello", "", Vocabulary, [], []), NewLesson(2, "Goodbye", "", Vocabulary, [], [])],
              [GreetingQuiz(3, 5, 70)])
  }

  /** Completing lesson 1 of 2 gives half progress and no badge; completing
      lesson 2 too gives full progress, completion and the module's badge. */
  lemma TwoLessonModuleScenario(now: int)
    ensures var c1 := CompleteLesson([TwoLessonModule()], 1, 7, 100, now);
            c1[0].progress == 0.5 && !c1[0].isCompleted && c1[0].badgeEarned.None?
    ensures var c2 := CompleteLesson(CompleteLesson([TwoLessonModule()], 1, 7, 100, now), 2, 7, 101, now);
            c2[0].progress == 1.0 && c2[0].isCompleted
            && c2[0].badgeEarned == Some(CompletionBadge(TwoLessonModule(), 101, now))
  {
    var m := TwoLessonModule();
    assert FirstIndex([m], ModuleId, 7) == Some(0);
    assert FirstIndex(m.lessons, LessonId, 1) == Some(0);
    var c1 := CompleteLesson([m], 1, 7, 100, now);
    var ls := c1[0].lessons;
    assert ls[1..][1..] == [];
    assert CompletedLessons(ls) == 1 + CountWhere(ls[1..], LessonDone);
    assert FirstIndex(c1, ModuleId, 7) == Some(0);
    assert FirstIndex(c1[0].lessons, LessonId, 2) == Some(1);
    var c2 := CompleteLesson(c1, 2, 7, 101, now);
    assert CompletedLessons(c2[0].lessons) == 2;
  }

  /** The view model finishing the last lesson records the very badge the
      catalog minted in the ledger. */
  lemma LastLessonBadgeReachesLedger(now: int, days: DayCounter)
    ensures var c1 := CompleteLesson([TwoLessonModule()], 1, 7, 100, now);
            var s := Session(Some(c1[0]), Some(c1[0].lessons[1]), None, None, 0, [], false);
            var r := FinishLesson(App(c1, DefaultProgress(), s), Env(now, days, 101));
            && r.app.catalog[0].badgeEarned == Some(CompletionBadge(TwoLessonModule(), 101, now))
            && r.app.progress.badgesEarned == [CompletionBadge(TwoLessonModule(), 101, now)]
            && r.app.progress.totalLessonsCompleted == 1
  {
    TwoLessonModuleScenario(now);
    var c1 := CompleteLesson([TwoLessonModule()], 1, 7, 100, now);
    assert FirstIndex(c1, ModuleId, 7) == Some(0);
    assert FirstIndex(c1[0].lessons, LessonId, 2) == Some(1);
  }

  /** A quiz with pass mark 70 answered four out of five right: the catalog
      marks it passed with 80, and the ledger gets a "Quiz Master" badge whose
      description carries the score. */
  lemma QuizPassedAtEighty(now: int, days: DayCounter)
    ensures var q := GreetingQuiz(3, 5, 70);
            var m := TwoLessonModule();
            var answers := ["Hola", "Hola", "Hola", "Adiós", "Hola"];
            var s := Session(Some(m), None, Some(q), None, 4, answers, false);
            var r := FinishQuiz(App([m], DefaultProgress(), s), Env(now, days, 9));
            && r.app.catalog[0].quizzes[0].isCompleted
            && r.app.catalog[0].quizzes[0].userScore == Some(80)
            && |r.app.progress.badgesEarned| == 1
            && r.app.progress.badgesEarned[0].name == "Quiz Master"
            && r.app.progress.badgesEarned[0].description == "Passed Basics with 80%"
  {
    FourOfFiveScoresEighty();
    assert IntToString(80) == "80";
    var m := TwoLessonModule();
    assert FirstIndex([m], ModuleId, 7) == Some(0);
    assert FirstIndex(m.quizzes, QuizId, 3) == Some(0);
  }

  /** Five questions, four answered right: 80. */
  lemma FourOfFiveScoresEighty()
    ensures QuizScore(GreetingQuiz(3, 5, 70), ["Hola", "Hola", "Hola", "Adiós", "Hola"]) == 80
  {
    var q := GreetingQuiz(3, 5, 70);
    var answers := ["Hola", "Hola", "Hola", "Adiós", "Hola"];
    assert !AnsweredCorrectly(q.questions, answers, 3);
    assert CorrectCount(q.questions, answers, 5) == 4;
  }

  /** The second and third sample lessons have no exercises, so once
      started, pressing Next does nothing and they can never be finished. */
  lemma LaterSampleLessonStalls(app: App, env: Env, exercises: seq<Exercise>, k: nat, l: Lesson)
    requires |exercises| <= 3 && k >= 1
    requires l.exercises == SampleLessonExercises(exercises, k)
    ensures var started := app.(session := StartLesson(app.session, l));
            NextExercise(started, env) == Step(started, [])
  {
    SampleLaterLessonsEmpty(exercises, k);
  }
}
