/**
 The record types of the learning app. Every Swift field is a `let`, so a
 change is always a rebuilt value; Dafny's datatype update `r.(f := v)`
 is exactly that rebuild, copying every field that is not named.

 Identities (`UUID`) are natural numbers chosen by the caller, dates are
 integer instants, and `Double` progress is a `real`.
 */
module Models {
  import opened Common

  datatype Difficulty = Beginner | Intermediate | Advanced

  datatype LessonType = Vocabulary | Grammar | Conversation | Listening | Reading | Writing

  datatype ExerciseType = FillInTheBlank | MultipleChoice | Translation | Matching | Speaking | ListeningExercise

  datatype LearningGoal = Travel | Business | Academic | PersonalInterest | CareerDevelopment

  /** The enum's raw value, which is also what `Codable` stores. */
  function DifficultyName(d: Difficulty): string {
    match d
    case Beginner => "Beginner"
    case Intermediate => "Intermediate"
    case Advanced => "Advanced"
  }

  /** Decoding a stored raw value back into the enum. */
  function DifficultyFromName(s: string): (r: Option<Difficulty>)
    ensures r.Some? ==> DifficultyName(r.value) == s
    ensures forall d :: s == DifficultyName(d) ==> r == Some(d)
  {
    if s == "Beginner" then Some(Beginner)
    else if s == "Intermediate" then Some(Intermediate)
    else if s == "Advanced" then Some(Advanced)
    else None
  }

  /** Every difficulty survives storing and loading, and no two
      difficulties share a raw value. */
  lemma DifficultyNameRoundTrip(d: Difficulty, e: Difficulty)
    ensures DifficultyFromName(DifficultyName(d)) == Some(d)
    ensures DifficultyName(d) == DifficultyName(e) ==> d == e
  {
  }

  /** The badge colour shown for each difficulty. */
  function DifficultyColor(d: Difficulty): (hex: string)
    ensures |hex| == 7 && hex[0] == '#'
  {
    match d
    case Beginner => "#4CAF50"
    case Intermediate => "#FF9800"
    case Advanced => "#F44336"
  }

  datatype VocabularyItem = VocabularyItem(
    id: nat, word: string, translation: string, pronunciation: string,
    example: string, isLearned: bool)

  datatype Exercise = Exercise(
    id: nat, instruction: string, exerciseType: ExerciseType, content: string,
    correctAnswer: string, isCompleted: bool)

  datatype Question = Question(
    id: nat, text: string, options: seq<string>, correctAnswer: int, explanation: string)

  datatype Badge = Badge(
    id: nat, name: string, description: string, iconName: string, color: string,
    dateEarned: Option<int>)

  datatype Lesson = Lesson(
    id: nat, title: string, content: string, lessonType: LessonType,
    vocabulary: seq<VocabularyItem>, exercises: seq<Exercise>, isCompleted: bool)

  datatype Quiz = Quiz(
    id: nat, title: string, questions: seq<Question>, passingScore: int,
    isCompleted: bool, userScore: Option<int>)

  datatype LanguageModule = LanguageModule(
    id: nat, title: string, description: string, language: string,
    difficulty: Difficulty, estimatedTime: int, lessons: seq<Lesson>,
    quizzes: seq<Quiz>, isCompleted: bool, progress: real, badgeEarned: Option<Badge>)

  datatype UserProgress = UserProgress(
    totalModulesCompleted: int, totalLessonsCompleted: int, totalQuizzesCompleted: int,
    totalTimeSpent: int, currentStreak: int, longestStreak: int, badgesEarned: seq<Badge>,
    lastActivityDate: Option<int>, weeklyGoal: int, weeklyProgress: int)

  datatype UserPreferences = UserPreferences(
    selectedLanguages: seq<string>, learningGoals: seq<LearningGoal>,
    dailyReminderTime: Option<int>, soundEnabled: bool, hapticFeedbackEnabled: bool,
    darkModeEnabled: bool, onboardingCompleted: bool)

  function ModuleId(m: LanguageModule): nat { m.id }
  function LessonId(l: Lesson): nat { l.id }
  function QuizId(q: Quiz): nat { q.id }
  function ExerciseId(e: Exercise): nat { e.id }

  // ---------------------------------------------------------------------
  // Initialisers with their default arguments.
  // ---------------------------------------------------------------------

  /** `LanguageModule(...)` with the defaulted completion fields left out. */
  function NewModule(id: nat, title: string, description: string, language: string,
                     difficulty: Difficulty, estimatedTime: int,
                     lessons: seq<Lesson>, quizzes: seq<Quiz>): (m: LanguageModule)
    ensures !m.isCompleted && m.progress == 0.0 && m.badgeEarned.None?
    ensures m.lessons == lessons && m.quizzes == quizzes && m.id == id
  {
    LanguageModule(id, title, description, language, difficulty, estimatedTime,
                   lessons, quizzes, false, 0.0, None)
  }

  function NewLesson(id: nat, title: string, content: string, lessonType: LessonType,
                     vocabulary: seq<VocabularyItem>, exercises: seq<Exercise>): (l: Lesson)
    ensures !l.isCompleted && l.exercises == exercises
  {
    Lesson(id, title, content, lessonType, vocabulary, exercises, false)
  }

  function NewQuiz(id: nat, title: string, questions: seq<Question>, passingScore: int): (q: Quiz)
    ensures !q.isCompleted && q.userScore.None?
    ensures q.questions == questions && q.passingScore == passingScore
  {
    Quiz(id, title, questions, passingScore, false, None)
  }

  function NewBadge(id: nat, name: string, description: string, iconName: string,
                    color: string): (b: Badge)
    ensures b.dateEarned.None?
  {
    Badge(id, name, description, iconName, color, None)
  }

  /** The ledger's one invariant: the record streak is never below the
      current streak. */
  predicate StreakInvariant(p: UserProgress) {
    p.longestStreak >= p.currentStreak
  }

  /** `UserProgress()`: a learner who has done nothing yet. */
  function DefaultProgress(): (p: UserProgress)
    ensures p.totalModulesCompleted == 0 && p.totalLessonsCompleted == 0
    ensures p.totalQuizzesCompleted == 0 && p.totalTimeSpent == 0
    ensures p.currentStreak == 0 && p.longestStreak == 0
    ensures p.badgesEarned == [] && p.lastActivityDate.None?
    ensures p.weeklyGoal == 5 && p.weeklyProgress == 0
    ensures StreakInvariant(p)
  {
    UserProgress(0, 0, 0, 0, 0, 0, [], None, 5, 0)
  }

  /** `UserPreferences()`: nothing chosen, sound and haptics on. */
  function DefaultPreferences(): (p: UserPreferences)
    ensures p.selectedLanguages == [] && p.learningGoals == []
    ensures p.dailyReminderTime.None?
    ensures p.soundEnabled && p.hapticFeedbackEnabled
    ensures !p.darkModeEnabled && !p.onboardingCompleted
  {
    UserPreferences([], [], None, true, true, false, false)
  }

  // ---------------------------------------------------------------------
  // Derived counts used by the catalog and the views.
  // ---------------------------------------------------------------------

  /** `xs.filter(p).count` */
  function CountWhere<T>(xs: seq<T>, p: T -> bool): (n: nat)
    ensures n <= |xs|
  {
    if |xs| == 0 then 0
    else (if p(xs[0]) then 1 else 0) + CountWhere(xs[1..], p)
  }

  predicate LessonDone(l: Lesson) { l.isCompleted }
  predicate QuizDone(q: Quiz) { q.isCompleted }

  /** `lessons.filter { $0.isCompleted }.count` */
  function CompletedLessons(ls: seq<Lesson>): nat {
    CountWhere(ls, LessonDone)
  }

  /** `quizzes.filter { $0.isCompleted }.count` */
  function CompletedQuizzes(qs: seq<Quiz>): nat {
    CountWhere(qs, QuizDone)
  }

  predicate AllLessonsCompleted(ls: seq<Lesson>) {
    forall i :: 0 <= i < |ls| ==> ls[i].isCompleted
  }

  /** The filter count reaches the total exactly when every lesson is done. */
  lemma {:induction false} CompletedLessonsFull(ls: seq<Lesson>)
    ensures CompletedLessons(ls) == |ls| <==> AllLessonsCompleted(ls)
  {
    if |ls| > 0 {
      CompletedLessonsFull(ls[1..]);
      if AllLessonsCompleted(ls) {
        assert AllLessonsCompleted(ls[1..]) by {
          forall i | 0 <= i < |ls| - 1 ensures ls[1..][i].isCompleted {
            assert ls[1..][i] == ls[i + 1];
          }
        }
      }
      if CompletedLessons(ls) == |ls| {
        assert ls[0].isCompleted;
        assert AllLessonsCompleted(ls[1..]);
        forall i | 0 <= i < |ls| ensures ls[i].isCompleted {
          if i > 0 { assert ls[i] == ls[1..][i - 1]; }
        }
      }
    }
  }

  /** Marking one lesson done adds one to the count when it was not done
      before and nothing when it was. */
  lemma {:induction false} CompletedLessonsMark(ls: seq<Lesson>, i: nat)
    requires i < |ls|
    ensures CompletedLessons(ls[i := ls[i].(isCompleted := true)])
            == CompletedLessons(ls) + (if ls[i].isCompleted then 0 else 1)
  {
    var ls' := ls[i := ls[i].(isCompleted := true)];
    if i == 0 {
      assert ls'[1..] == ls[1..];
    } else {
      assert ls'[1..] == ls[1..][i - 1 := ls[i].(isCompleted := true)];
      CompletedLessonsMark(ls[1..], i - 1);
    }
  }

  /** A module built by the initialiser from lessons nobody has done is
      consistent: zero progress, not complete, no badge. */
  lemma {:induction false} FreshLessonsNoneCompleted(ls: seq<Lesson>)
    requires forall i :: 0 <= i < |ls| ==> !ls[i].isCompleted
    ensures CompletedLessons(ls) == 0
  {
    if |ls| > 0 {
      assert forall i :: 0 <= i < |ls| - 1 ==> ls[1..][i] == ls[i + 1];
      FreshLessonsNoneCompleted(ls[1..]);
    }
  }
}
