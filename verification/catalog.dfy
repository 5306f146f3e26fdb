/**
 The content catalog (`DataService`): the list of language modules and the
 two completion events that rebuild one module inside it. A missing module,
 lesson or quiz is never an error; the event is simply dropped.
 */
module Catalog {
  import opened Common
  import opened Models

  type Catalog = seq<LanguageModule>

  /** `Double(completed) / Double(total)` */
  function Ratio(completed: nat, total: nat): real
    requires total > 0
  {
    completed as real / total as real
  }

  lemma RatioReachesOne(completed: nat, total: nat)
    requires 0 < total && completed <= total
    ensures Ratio(completed, total) >= 1.0 <==> completed == total
    ensures 0.0 <= Ratio(completed, total) <= 1.0
  {
    var q := Ratio(completed, total);
    var t := total as real;
    var c := completed as real;
    assert q * t == c;
    if q > 1.0 {
      PositiveProduct(q - 1.0, t);
    }
    if q < 1.0 {
      assert (1.0 - q) * t == t - q * t;
      PositiveProduct(1.0 - q, t);
    }
    if q < 0.0 {
      PositiveProduct(-q, t);
    }
  }

  lemma PositiveProduct(a: real, b: real)
    requires a > 0.0 && b > 0.0
    ensures a * b > 0.0
  {
  }

  /** A module whose stored progress and completion flag agree with its
      lessons: progress is the completed fraction and the module is complete
      exactly when every lesson is. */
  predicate ProgressConsistent(m: LanguageModule) {
    |m.lessons| > 0 ==>
      && m.progress == Ratio(CompletedLessons(m.lessons), |m.lessons|)
      && (m.isCompleted <==> AllLessonsCompleted(m.lessons))
  }

  predicate CatalogConsistent(c: Catalog) {
    forall i :: 0 <= i < |c| ==> ProgressConsistent(c[i])
  }

  /** `getModule(by:)`: the first module with this identity, if any. */
  function GetModule(c: Catalog, id: nat): (r: Option<LanguageModule>)
    ensures r.Some? <==> exists i :: 0 <= i < |c| && c[i].id == id
    ensures r.Some? ==> exists i :: 0 <= i < |c| && c[i] == r.value && r.value.id == id
                                  && forall j :: 0 <= j < i ==> c[j].id != id
  {
    match FirstIndex(c, ModuleId, id)
    case None => None
    case Some(i) => Some(c[i])
  }

  /** `createCompletionBadge(for:)`: named after the module's language and
      difficulty, dated now. */
  function CompletionBadge(m: LanguageModule, badgeId: nat, now: int): (b: Badge)
    ensures b.name == m.language + " " + DifficultyName(m.difficulty)
    ensures b.description == "Completed " + m.title
    ensures b.iconName == "star.fill" && b.color == "#FFD700"
    ensures b.dateEarned == Some(now) && b.id == badgeId
  {
    Badge(badgeId, m.language + " " + DifficultyName(m.difficulty),
          "Completed " + m.title, "star.fill", "#FFD700", Some(now))
  }

  /** The module after its lesson at `li` is marked done: progress is
      recomputed from the lessons, and a fresh completion badge is minted
      whenever the result is complete (also when it already was). */
  function MarkLesson(m: LanguageModule, li: nat, badgeId: nat, now: int): (r: LanguageModule)
    requires li < |m.lessons|
    ensures |r.lessons| == |m.lessons|
    ensures r.lessons[li] == m.lessons[li].(isCompleted := true)
    ensures forall k :: 0 <= k < |m.lessons| && k != li ==> r.lessons[k] == m.lessons[k]
    ensures r == m.(lessons := r.lessons, isCompleted := r.isCompleted,
                    progress := r.progress, badgeEarned := r.badgeEarned)
    ensures ProgressConsistent(r)
    ensures r.isCompleted <==> AllLessonsCompleted(r.lessons)
    ensures r.isCompleted ==> r.badgeEarned == Some(CompletionBadge(m, badgeId, now))
    ensures !r.isCompleted ==> r.badgeEarned == m.badgeEarned
  {
    var lessons := m.lessons[li := m.lessons[li].(isCompleted := true)];
    var progress := Ratio(CompletedLessons(lessons), |lessons|);
    RatioReachesOne(CompletedLessons(lessons), |lessons|);
    CompletedLessonsFull(lessons);
    m.(lessons := lessons,
       isCompleted := progress >= 1.0,
       progress := progress,
       badgeEarned := if progress >= 1.0 then Some(CompletionBadge(m, badgeId, now)) else m.badgeEarned)
  }

  /** `completeLesson(_:in:)` */
  function CompleteLesson(c: Catalog, lessonId: nat, moduleId: nat, badgeId: nat, now: int): (r: Catalog)
    ensures |r| == |c|
    ensures FirstIndex(c, ModuleId, moduleId).None? ==> r == c
    ensures FirstIndex(c, ModuleId, moduleId).Some? &&
            FirstIndex(c[FirstIndex(c, ModuleId, moduleId).value].lessons, LessonId, lessonId).None?
            ==> r == c
    ensures forall i :: 0 <= i < |c| && c[i].id != moduleId ==> r[i] == c[i]
  {
    match FirstIndex(c, ModuleId, moduleId)
    case None => c
    case Some(mi) =>
      match FirstIndex(c[mi].lessons, LessonId, lessonId)
      case None => c
      case Some(li) => c[mi := MarkLesson(c[mi], li, badgeId, now)]
  }

  /** `completeQuiz(_:in:score:)`: records the score and sets the flag to
      whether it meets the quiz's own pass mark; nothing about the module's
      lessons, progress, completion or badge changes. */
  function CompleteQuiz(c: Catalog, quizId: nat, moduleId: nat, score: int): (r: Catalog)
    ensures |r| == |c|
    ensures forall i :: 0 <= i < |c| && c[i].id != moduleId ==> r[i] == c[i]
    ensures forall i :: 0 <= i < |c| ==>
              r[i] == c[i].(quizzes := r[i].quizzes) && |r[i].quizzes| == |c[i].quizzes|
    ensures FirstIndex(c, ModuleId, moduleId).None? ==> r == c
  {
    match FirstIndex(c, ModuleId, moduleId)
    case None => c
    case Some(mi) =>
      var m := c[mi];
      match FirstIndex(m.quizzes, QuizId, quizId)
      case None => c
      case Some(qi) =>
        var q := m.quizzes[qi];
        var q' := q.(isCompleted := score >= q.passingScore, userScore := Some(score));
        c[mi := m.(quizzes := m.quizzes[qi := q'])]
  }

  /** `updateModuleProgress(_:progress:)`: overwrites the progress with the
      given value, without looking at the lessons. */
  function UpdateModuleProgress(c: Catalog, moduleId: nat, progress: real, badgeId: nat, now: int): (r: Catalog)
    ensures |r| == |c|
    ensures FirstIndex(c, ModuleId, moduleId).None? ==> r == c
    ensures FirstIndex(c, ModuleId, moduleId).Some? ==>
              var mi := FirstIndex(c, ModuleId, moduleId).value;
              && r[mi].progress == progress
              && (r[mi].isCompleted <==> progress >= 1.0)
              && (progress >= 1.0 ==> r[mi].badgeEarned == Some(CompletionBadge(c[mi], badgeId, now)))
              && (progress < 1.0 ==> r[mi].badgeEarned == c[mi].badgeEarned)
              && r[mi] == c[mi].(isCompleted := r[mi].isCompleted, progress := progress,
                                 badgeEarned := r[mi].badgeEarned)
              && (forall j :: 0 <= j < |c| && j != mi ==> r[j] == c[j])
  {
    match FirstIndex(c, ModuleId, moduleId)
    case None => c
    case Some(mi) =>
      var m := c[mi];
      c[mi := m.(isCompleted := progress >= 1.0, progress := progress,
                 badgeEarned := if progress >= 1.0 then Some(CompletionBadge(m, badgeId, now)) else m.badgeEarned)]
  }

  /** Writing back the module's own lesson ratio is what completing a
      lesson does to progress, so it keeps the catalog consistent. */
  lemma UpdateModuleProgressWithRatio(c: Catalog, moduleId: nat, badgeId: nat, now: int, mi: nat)
    requires CatalogConsistent(c)
    requires FirstIndex(c, ModuleId, moduleId) == Some(mi) && |c[mi].lessons| > 0
    ensures var ratio := Ratio(CompletedLessons(c[mi].lessons), |c[mi].lessons|);
            && CatalogConsistent(UpdateModuleProgress(c, moduleId, ratio, badgeId, now))
            && UpdateModuleProgress(c, moduleId, ratio, badgeId, now)[mi].progress == c[mi].progress
  {
    var n := |c[mi].lessons|;
    RatioReachesOne(CompletedLessons(c[mi].lessons), n);
    CompletedLessonsFull(c[mi].lessons);
  }

  // ---------------------------------------------------------------------
  // Properties of the completion events.
  // ---------------------------------------------------------------------

  /** The first module with the id has its lesson marked and its progress
      recomputed; everything else in the catalog is untouched. */
  lemma CompleteLessonFound(c: Catalog, lessonId: nat, moduleId: nat, badgeId: nat, now: int,
                            mi: nat, li: nat)
    requires FirstIndex(c, ModuleId, moduleId) == Some(mi)
    requires FirstIndex(c[mi].lessons, LessonId, lessonId) == Some(li)
    ensures var r := CompleteLesson(c, lessonId, moduleId, badgeId, now);
            && r[mi] == MarkLesson(c[mi], li, badgeId, now)
            && (forall j :: 0 <= j < |c| && j != mi ==> r[j] == c[j])
            && r[mi].progress == Ratio(CompletedLessons(r[mi].lessons), |r[mi].lessons|)
            && (r[mi].isCompleted <==> AllLessonsCompleted(r[mi].lessons))
  {
  }

  /** Completing a lesson keeps every module of the catalog consistent. */
  lemma CompleteLessonKeepsConsistent(c: Catalog, lessonId: nat, moduleId: nat, badgeId: nat, now: int)
    requires CatalogConsistent(c)
    ensures CatalogConsistent(CompleteLesson(c, lessonId, moduleId, badgeId, now))
  {
  }

  /** So does completing a quiz: quizzes do not take part in a module's
      progress or completion. */
  lemma CompleteQuizKeepsConsistent(c: Catalog, quizId: nat, moduleId: nat, score: int)
    requires CatalogConsistent(c)
    ensures CatalogConsistent(CompleteQuiz(c, quizId, moduleId, score))
  {
    var r := CompleteQuiz(c, quizId, moduleId, score);
    forall i | 0 <= i < |c| ensures ProgressConsistent(r[i]) {
      assert r[i].lessons == c[i].lessons;
    }
  }

  /** The found quiz carries the score and is marked done exactly when the
      score meets its pass mark; the other quizzes are untouched. */
  lemma CompleteQuizFound(c: Catalog, quizId: nat, moduleId: nat, score: int, mi: nat, qi: nat)
    requires FirstIndex(c, ModuleId, moduleId) == Some(mi)
    requires FirstIndex(c[mi].quizzes, QuizId, quizId) == Some(qi)
    ensures var r := CompleteQuiz(c, quizId, moduleId, score);
            && r[mi].quizzes[qi].userScore == Some(score)
            && (r[mi].quizzes[qi].isCompleted <==> score >= c[mi].quizzes[qi].passingScore)
            && r[mi].quizzes[qi] == c[mi].quizzes[qi].(isCompleted := r[mi].quizzes[qi].isCompleted,
                                                         userScore := Some(score))
            && (forall k :: 0 <= k < |c[mi].quizzes| && k != qi ==> r[mi].quizzes[k] == c[mi].quizzes[k])
            && r[mi].lessons == c[mi].lessons && r[mi].isCompleted == c[mi].isCompleted
            && r[mi].progress == c[mi].progress && r[mi].badgeEarned == c[mi].badgeEarned
  {
  }

  /** A quiz that is not in the module leaves the catalog as it was. */
  lemma CompleteQuizMissing(c: Catalog, quizId: nat, moduleId: nat, score: int, mi: nat)
    requires FirstIndex(c, ModuleId, moduleId) == Some(mi)
    requires FirstIndex(c[mi].quizzes, QuizId, quizId).None?
    ensures CompleteQuiz(c, quizId, moduleId, score) == c
  {
  }

  /** Completing the same lesson again changes no lesson flag, no progress
      and no completion flag; only a complete module's badge is re-minted. */
  lemma CompleteLessonTwice(c: Catalog, lessonId: nat, moduleId: nat,
                            id1: nat, now1: int, id2: nat, now2: int)
    ensures var once := CompleteLesson(c, lessonId, moduleId, id1, now1);
            var twice := CompleteLesson(once, lessonId, moduleId, id2, now2);
            && |twice| == |once|
            && forall i :: 0 <= i < |once| ==>
                 && twice[i].lessons == once[i].lessons
                 && twice[i].progress == once[i].progress
                 && twice[i].isCompleted == once[i].isCompleted
                 && twice[i].quizzes == once[i].quizzes
  {
    var once := CompleteLesson(c, lessonId, moduleId, id1, now1);
    match FirstIndex(c, ModuleId, moduleId)
    case None =>
    case Some(mi) =>
      match FirstIndex(c[mi].lessons, LessonId, lessonId)
      case None =>
      case Some(li) =>
        CompleteLessonKeepsPositions(c, lessonId, moduleId, id1, now1, mi, li);
        assert once[mi].lessons[li := once[mi].lessons[li].(isCompleted := true)] == once[mi].lessons;
  }

  /** After a lesson is completed, the module and the lesson keep their
      identities, so a second search finds them at the same positions. */
  lemma CompleteLessonKeepsPositions(c: Catalog, lessonId: nat, moduleId: nat, badgeId: nat, now: int,
                                     mi: nat, li: nat)
    requires FirstIndex(c, ModuleId, moduleId) == Some(mi)
    requires FirstIndex(c[mi].lessons, LessonId, lessonId) == Some(li)
    ensures var once := CompleteLesson(c, lessonId, moduleId, badgeId, now);
            && FirstIndex(once, ModuleId, moduleId) == Some(mi)
            && FirstIndex(once[mi].lessons, LessonId, lessonId) == Some(li)
            && once[mi].lessons[li].isCompleted
  {
    var once := CompleteLesson(c, lessonId, moduleId, badgeId, now);
    assert forall j :: 0 <= j < |c| ==> once[j].id == c[j].id;
    FirstIndexSameKeys(c, once, ModuleId, moduleId);
    assert forall j :: 0 <= j < |c[mi].lessons| ==> once[mi].lessons[j].id == c[mi].lessons[j].id;
    FirstIndexSameKeys(c[mi].lessons, once[mi].lessons, LessonId, lessonId);
  }

  /** The first-index search only looks at the keys. */
  lemma {:induction false} FirstIndexSameKeys<T>(a: seq<T>, b: seq<T>, key: T -> nat, id: nat)
    requires |a| == |b|
    requires forall j :: 0 <= j < |a| ==> key(a[j]) == key(b[j])
    ensures FirstIndex(a, key, id) == FirstIndex(b, key, id)
  {
    if |a| > 0 {
      FirstIndexSameKeys(a[1..], b[1..], key, id);
    }
  }

  /** A module that was already complete gets a brand-new completion badge
      when one of its lessons is completed again. */
  lemma RecompletionMintsBadge(c: Catalog, lessonId: nat, moduleId: nat, badgeId: nat, now: int,
                               mi: nat, li: nat)
    requires FirstIndex(c, ModuleId, moduleId) == Some(mi)
    requires FirstIndex(c[mi].lessons, LessonId, lessonId) == Some(li)
    requires AllLessonsCompleted(c[mi].lessons)
    ensures var r := CompleteLesson(c, lessonId, moduleId, badgeId, now);
            r[mi].isCompleted && r[mi].badgeEarned == Some(CompletionBadge(c[mi], badgeId, now))
  {
    var lessons := c[mi].lessons;
    assert lessons[li := lessons[li].(isCompleted := true)] == lessons;
  }

  /** A fresh module from untouched lessons is consistent. */
  lemma FreshModuleConsistent(id: nat, title: string, description: string, language: string,
                              difficulty: Difficulty, estimatedTime: int,
                              lessons: seq<Lesson>, quizzes: seq<Quiz>)
    requires forall i :: 0 <= i < |lessons| ==> !lessons[i].isCompleted
    ensures ProgressConsistent(NewModule(id, title, description, language, difficulty,
                                         estimatedTime, lessons, quizzes))
  {
    FreshLessonsNoneCompleted(lessons);
    if |lessons| > 0 {
      assert !lessons[0].isCompleted;
    }
  }

  /** The sample content slices one exercise list into lessons of three:
      `Array(exercises.dropFirst(3 * k).prefix(3))`. */
  function SampleLessonExercises(exercises: seq<Exercise>, k: nat): (r: seq<Exercise>)
    ensures |r| == Min(3, Max(0, |exercises| - 3 * k))
    ensures forall i :: 0 <= i < |r| ==> r[i] == exercises[3 * k + i]
  {
    Prefix(DropFirst(exercises, 3 * k), 3)
  }

  /** With the three sample exercises of a language, the second and third
      lessons get none. */
  lemma SampleLaterLessonsEmpty(exercises: seq<Exercise>, k: nat)
    requires |exercises| <= 3 && k >= 1
    ensures SampleLessonExercises(exercises, k) == []
  {
  }
}
