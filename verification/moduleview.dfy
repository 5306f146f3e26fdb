/**
 The decisions the module screen (`LearningModuleView`) makes on top of the
 session engine: which screen shows, which cards are locked, how the quiz
 navigation button behaves, and the small text functions of the exercise
 views (answer checking, option splitting, blank rendering).

 Text is treated as ASCII: lower-casing maps `A`..`Z` only, and white space
 is the six ASCII white-space characters.
 */
module ModuleView {
  import opened Common
  import opened Models
  import opened Catalog
  import opened Session

  // ---------------------------------------------------------------------
  // Screen selection and locks.
  // ---------------------------------------------------------------------

  datatype Screen = LessonScreen | QuizScreen | ResultsScreen | OverviewScreen

  /** The `body`'s if-chain: a lesson wins over a quiz, and results show only
      when neither is set. */
  function ScreenFor(s: Session): (v: Screen)
    ensures v == LessonScreen <==> s.currentLesson.Some?
    ensures v == QuizScreen <==> s.currentLesson.None? && s.currentQuiz.Some?
    ensures v == ResultsScreen <==> s.currentLesson.None? && s.currentQuiz.None? && s.showResults
    ensures v == OverviewScreen <==> s.currentLesson.None? && s.currentQuiz.None? && !s.showResults
  {
    if s.currentLesson.Some? then LessonScreen
    else if s.currentQuiz.Some? then QuizScreen
    else if s.showResults then ResultsScreen
    else OverviewScreen
  }

  /** Finishing a lesson sets the results flag but keeps the lesson, so the
      lesson screen stays up and the results screen is not reached. */
  lemma FinishedLessonStaysOnLesson(app: App, env: Env)
    requires SessionInvariant(app.session) && app.session.currentLesson.Some?
    ensures ScreenFor(NextExercise(app, env).app.session) == LessonScreen
  {
  }

  /** A lesson card is locked when the lesson before it is not done. */
  function LessonLocked(lessons: seq<Lesson>, i: nat): (locked: bool)
    requires i < |lessons|
    ensures i == 0 ==> !locked
    ensures i > 0 ==> (locked <==> !lessons[i - 1].isCompleted)
  {
    i > 0 && !lessons[i - 1].isCompleted
  }

  /** Quiz cards are locked while the loaded module has lessons left to do. */
  function QuizLocked(s: Session): (locked: bool)
    ensures locked <==> s.currentModule.Some? && !AllLessonsCompleted(s.currentModule.value.lessons)
  {
    if s.currentModule.Some? then
      CompletedLessonsFull(s.currentModule.value.lessons);
      CompletedLessonsCount(s) < TotalLessonsCount(s)
    else
      CompletedLessonsCount(s) < TotalLessonsCount(s)
  }

  /** A module with no lessons, like no module at all, has its quizzes
      unlocked. */
  lemma QuizUnlockedWithoutLessons(s: Session)
    ensures s.currentModule.Some? && |s.currentModule.value.lessons| == 0 ==> !QuizLocked(s)
    ensures s.currentModule.None? ==> !QuizLocked(s)
  {
  }

  /** Tapping a lesson card: nothing when locked, otherwise start it. */
  function TapLessonCard(s: Session, lessons: seq<Lesson>, i: nat): (r: Session)
    requires i < |lessons|
    ensures LessonLocked(lessons, i) ==> r == s
    ensures !LessonLocked(lessons, i) ==> r.currentLesson == Some(lessons[i]) && r == StartLesson(s, lessons[i])
  {
    if LessonLocked(lessons, i) then s else StartLesson(s, lessons[i])
  }

  /** Tapping a quiz card: nothing when locked, otherwise start it. */
  function TapQuizCard(s: Session, q: Quiz): (r: Session)
    ensures QuizLocked(s) ==> r == s
    ensures !QuizLocked(s) ==> r.currentQuiz == Some(q) && |r.userAnswers| == |q.questions| && r == StartQuiz(s, q)
  {
    if QuizLocked(s) then s else StartQuiz(s, q)
  }

  // ---------------------------------------------------------------------
  // Quiz navigation bar.
  // ---------------------------------------------------------------------

  datatype NavLabel = Finish | NextLabel

  function QuestionCount(s: Session): int {
    if s.currentQuiz.Some? then |s.currentQuiz.value.questions| else 0
  }

  /** The label reads "Finish" exactly on the last question. */
  function NextButtonLabel(s: Session): (l: NavLabel)
    ensures l == Finish <==> s.currentQuiz.Some? && s.questionIndex + 1 == |s.currentQuiz.value.questions|
  {
    if s.questionIndex == QuestionCount(s) - 1 then Finish else NextLabel
  }

  /** "Previous" is shown only past the first question. */
  predicate ShowsPreviousButton(s: Session) {
    s.questionIndex > 0
  }

  /** Pressing the Next/Finish button: disabled (nothing happens) until the
      current question has an answer. */
  function PressNextButton(app: App, env: Env): (r: Step)
    requires SessionInvariant(app.session) && NextQuestionSafe(app.session)
    ensures !CanProceedToNextQuestion(app.session) ==> r == Step(app, [])
    ensures CanProceedToNextQuestion(app.session) ==> r == NextQuestion(app, env)
    ensures SessionInvariant(r.app.session)
  {
    if CanProceedToNextQuestion(app.session) then NextQuestion(app, env) else Step(app, [])
  }

  /** On "Finish" with an answer given, the button scores the quiz. */
  lemma FinishButtonScores(app: App, env: Env)
    requires SessionInvariant(app.session) && NextQuestionSafe(app.session)
    requires app.session.currentModule.Some?
    requires NextButtonLabel(app.session) == Finish && CanProceedToNextQuestion(app.session)
    ensures var r := PressNextButton(app, env);
            |r.calls| >= 2 && r.calls[0].CatalogCompleteQuiz? && r.app.session.showResults
  {
    FinishQuizReplays(app, env);
  }

  // ---------------------------------------------------------------------
  // Answer checking: lower-cased, white space trimmed at both ends.
  // ---------------------------------------------------------------------

  predicate IsSpace(c: char) {
    c == ' ' || c == '\t' || c == '\n' || c == '\r' || c == '\U{000B}' || c == '\U{000C}'
  }

  predicate AllSpace(s: string) { AllAre(s, IsSpace) }

  function LowerChar(c: char): (d: char)
    ensures IsSpace(c) <==> IsSpace(d)
    ensures !('A' <= d <= 'Z')
  {
    if 'A' <= c <= 'Z' then (c as int + 32) as char else c
  }

  function Lowercase(s: string): (r: string)
    ensures |r| == |s|
    ensures forall i :: 0 <= i < |s| ==> r[i] == LowerChar(s[i])
  {
    if |s| == 0 then "" else [LowerChar(s[0])] + Lowercase(s[1..])
  }

  /** `trimmingCharacters(in: .whitespacesAndNewlines)`. */
  function Trim(s: string): (r: string)
    ensures exists i, j :: 0 <= i <= j <= |s| && r == s[i..j] && AllSpace(s[..i]) && AllSpace(s[j..])
    ensures |r| > 0 ==> !IsSpace(r[0]) && !IsSpace(r[|r| - 1])
  {
    TrimBy(s, IsSpace)
  }

  /** The normal form an answer is compared in. */
  function Normalize(s: string): (r: string)
    ensures exists i, j :: 0 <= i <= j <= |s| && r == Lowercase(s)[i..j]
              && AllSpace(Lowercase(s)[..i]) && AllSpace(Lowercase(s)[j..])
    ensures |r| > 0 ==> !IsSpace(r[0]) && !IsSpace(r[|r| - 1])
    ensures forall i :: 0 <= i < |r| ==> !('A' <= r[i] <= 'Z')
  {
    var low := Lowercase(s);
    var r := Trim(low);
    LowerSlice(low, r);
    r
  }

  lemma LowerSlice(low: string, r: string)
    requires forall i :: 0 <= i < |low| ==> !('A' <= low[i] <= 'Z')
    requires exists i, j :: 0 <= i <= j <= |low| && r == low[i..j]
    ensures forall i :: 0 <= i < |r| ==> !('A' <= r[i] <= 'Z')
  {
    var i, j :| 0 <= i <= j <= |low| && r == low[i..j];
    assert forall k :: 0 <= k < |r| ==> r[k] == low[i + k];
  }

  /** `checkAnswer()`: the typed answer matches when both normal forms are
      equal. */
  predicate AnswerMatches(typed: string, expected: string) {
    Normalize(typed) == Normalize(expected)
  }

  lemma {:induction false} LowercaseFixed(s: string)
    requires forall i :: 0 <= i < |s| ==> !('A' <= s[i] <= 'Z')
    ensures Lowercase(s) == s
  {
  }

  /** Normalising twice is normalising once, so a normal form matches only
      itself. */
  lemma NormalizeIdempotent(s: string)
    ensures Normalize(Normalize(s)) == Normalize(s)
  {
    var n := Normalize(s);
    LowercaseFixed(n);
    TrimByFixed(n, IsSpace);
  }

  lemma LowercaseConcat(a: string, b: string)
    ensures Lowercase(a + b) == Lowercase(a) + Lowercase(b)
  {
  }

  /** White space typed around an answer never changes its normal form. */
  lemma NormalizeIgnoresPadding(a: string, s: string, b: string)
    requires AllSpace(a) && AllSpace(b)
    ensures Normalize(a + s + b) == Normalize(s)
  {
    LowercaseConcat(a + s, b);
    LowercaseConcat(a, s);
    LowerSpaces(a);
    LowerSpaces(b);
    PaddedTrim(Lowercase(a), Lowercase(s), Lowercase(b), IsSpace);
  }

  lemma LowerSpaces(a: string)
    requires AllSpace(a)
    ensures AllSpace(Lowercase(a))
  {
    assert forall k :: 0 <= k < |a| ==> IsSpace(a[k]);
  }

  /** A typed answer matches the expected one whatever its capitals and
      surrounding white space: the lowercase answer padded with spaces
      still matches. */
  lemma AnswerIgnoresCaseAndPadding(a: string, s: string, b: string, expected: string)
    requires AllSpace(a) && AllSpace(b)
    ensures AnswerMatches(a + s + b, expected) <==> AnswerMatches(s, expected)
    ensures AnswerMatches(Lowercase(s), s)
  {
    NormalizeIgnoresPadding(a, s, b);
    LowercaseFixed(Lowercase(s));
  }

  /** Matching is an equivalence, and a typed answer always matches its own
      normal form: case and surrounding white space never make a right
      answer wrong. */
  lemma AnswerMatchingLaws(a: string, b: string, c: string)
    ensures AnswerMatches(a, a)
    ensures AnswerMatches(a, b) <==> AnswerMatches(b, a)
    ensures AnswerMatches(a, b) && AnswerMatches(b, c) ==> AnswerMatches(a, c)
    ensures AnswerMatches(a, Normalize(a)) && AnswerMatches(Normalize(a), a)
  {
    NormalizeIdempotent(a);
  }

  // ---------------------------------------------------------------------
  // Multiple-choice options: `content.components(separatedBy: "|")`.
  // ---------------------------------------------------------------------

  const OptionSeparator: char := '|'

  function Join(parts: seq<string>, sep: char): string
    requires |parts| >= 1
  {
    if |parts| == 1 then parts[0] else parts[0] + [sep] + Join(parts[1..], sep)
  }

  /** The pieces between separators; an empty content gives one empty
      option, and joining the pieces back gives the content. */
  function Split(s: string, sep: char): (parts: seq<string>)
    ensures |parts| >= 1
    ensures forall i :: 0 <= i < |parts| ==> sep !in parts[i]
    ensures Join(parts, sep) == s
  {
    if |s| == 0 then [""]
    else if s[0] == sep then
      var rest := Split(s[1..], sep);
      assert s == [sep] + s[1..];
      [""] + rest
    else
      var rest := Split(s[1..], sep);
      var parts := [[s[0]] + rest[0]] + rest[1..];
      assert parts[1..] == rest[1..];
      assert s == [s[0]] + s[1..];
      parts
  }

  function MultipleChoiceOptions(content: string): (options: seq<string>)
    ensures |options| >= 1 && Join(options, OptionSeparator) == content
  {
    Split(content, OptionSeparator)
  }

  /** Splitting a joined list of separator-free options gives the list back. */
  lemma {:induction false} SplitJoin(parts: seq<string>, sep: char)
    requires |parts| >= 1
    requires forall i :: 0 <= i < |parts| ==> sep !in parts[i]
    ensures Split(Join(parts, sep), sep) == parts
  {
    if |parts| == 1 {
      SplitNoSep(parts[0], sep);
    } else {
      SplitJoin(parts[1..], sep);
      SplitPrefix(parts[0], Join(parts[1..], sep), sep);
      assert parts == [parts[0]] + parts[1..];
    }
  }

  lemma {:induction false} SplitNoSep(s: string, sep: char)
    requires sep !in s
    ensures Split(s, sep) == [s]
  {
    if |s| > 0 {
      SplitNoSep(s[1..], sep);
    }
  }

  /** A separator-free piece in front of a separator becomes the first
      option. */
  lemma {:induction false} SplitPrefix(a: string, rest: string, sep: char)
    requires sep !in a
    ensures Split(a + [sep] + rest, sep) == [a] + Split(rest, sep)
  {
    var s := a + [sep] + rest;
    if |a| == 0 {
      assert s[1..] == rest;
    } else {
      assert s[1..] == a[1..] + [sep] + rest;
      SplitPrefix(a[1..], rest, sep);
      assert [a[0]] + a[1..] == a;
    }
  }

  // ---------------------------------------------------------------------
  // Fill-in-the-blank: every `____` (left to right, not overlapping) is
  // shown as `_____`.
  // ---------------------------------------------------------------------

  const Blank: string := "____"
  const WideBlank: string := "_____"

  predicate BlankAt(s: string, i: nat) {
    i + 4 <= |s| && s[i..i + 4] == Blank
  }

  function ReplaceBlanks(s: string): (r: string)
    ensures |r| >= |s|
  {
    if BlankAt(s, 0) then WideBlank + ReplaceBlanks(s[4..])
    else if |s| == 0 then ""
    else [s[0]] + ReplaceBlanks(s[1..])
  }

  /** A blank at the front becomes the wide blank, and the scan resumes
      right after it. */
  lemma ReplaceBlanksBlank(t: string)
    ensures ReplaceBlanks(Blank + t) == WideBlank + ReplaceBlanks(t)
  {
    assert (Blank + t)[..4] == Blank;
    assert (Blank + t)[4..] == t;
  }

  /** Any other first character is copied and the scan moves one step. */
  lemma ReplaceBlanksOther(s: string)
    requires |s| > 0 && !BlankAt(s, 0)
    ensures ReplaceBlanks(s) == [s[0]] + ReplaceBlanks(s[1..])
  {
  }

  /** Text without a blank is shown unchanged. */
  lemma {:induction false} ReplaceBlanksNoBlank(s: string)
    requires forall i :: 0 <= i < |s| ==> !BlankAt(s, i)
    ensures ReplaceBlanks(s) == s
  {
    if |s| > 0 {
      forall i: nat | i < |s| - 1 && BlankAt(s[1..], i) ensures BlankAt(s, i + 1) {
        assert s[1..][i..i + 4] == s[i + 1..i + 5];
      }
      ReplaceBlanksNoBlank(s[1..]);
    }
  }

  function Ununderscored(s: string): (r: string)
  {
    if |s| == 0 then "" else (if s[0] == '_' then "" else [s[0]]) + Ununderscored(s[1..])
  }

  lemma {:induction false} UnunderscoredAppend(a: string, b: string)
    ensures Ununderscored(a + b) == Ununderscored(a) + Ununderscored(b)
  {
    if |a| > 0 {
      assert (a + b)[1..] == a[1..] + b;
      UnunderscoredAppend(a[1..], b);
    } else {
      assert a + b == b;
    }
  }

  /** Only underscores are added: the rest of the text is kept in order. */
  lemma {:induction false} ReplaceBlanksKeepsText(s: string)
    ensures Ununderscored(ReplaceBlanks(s)) == Ununderscored(s)
  {
    if BlankAt(s, 0) {
      ReplaceBlanksKeepsText(s[4..]);
      UnunderscoredAppend(WideBlank, ReplaceBlanks(s[4..]));
      assert s == Blank + s[4..];
      UnunderscoredAppend(Blank, s[4..]);
      assert Ununderscored(WideBlank) == "";
      assert Ununderscored(Blank) == "";
    } else if |s| > 0 {
      ReplaceBlanksKeepsText(s[1..]);
      UnunderscoredAppend([s[0]], ReplaceBlanks(s[1..]));
      assert s == [s[0]] + s[1..];
      UnunderscoredAppend([s[0]], s[1..]);
    }
  }
}
