/**
 The progress ledger (`ProgressService`): the learner's counters, streak,
 weekly goal, badges and preferences, each update a rebuilt record.

 The clock is the instant `now`; the calendar's whole-day difference
 between two instants is the function `days`, supplied by the caller.
 Saving to and loading from `UserDefaults` is not modelled.
 */
module Ledger {
  import opened Common
  import opened Models

  /** The service's two published records. */
  datatype Ledger = Ledger(progress: UserProgress, preferences: UserPreferences)

  /** `Calendar.dateComponents([.day], from:to:).day`, taken as given. */
  type DayCounter = (int, int) -> int

  /** A calendar that counts zero days from an instant to itself. */
  ghost predicate SameInstantIsDayZero(days: DayCounter) {
    forall t :: days(t, t) == 0
  }

  /** The optional arguments of `updateProgress`. */
  datatype ProgressUpdate = ProgressUpdate(
    modulesCompleted: Option<int>, lessonsCompleted: Option<int>,
    quizzesCompleted: Option<int>, timeSpent: Option<int>)

  predicate SuppliesAField(u: ProgressUpdate) {
    u.modulesCompleted.Some? || u.lessonsCompleted.Some? ||
    u.quizzesCompleted.Some? || u.timeSpent.Some?
  }

  /** The streak rule: no previous activity starts at 1, the same day keeps
      the streak (at least 1), the next day extends it, any other gap
      (including a negative one) restarts at 1. */
  function StreakStep(streak: int, daysSince: Option<int>): (r: int)
    ensures streak >= 0 ==> r >= 1
    ensures daysSince.None? ==> r == 1
    ensures daysSince == Some(0) ==> r == Max(1, streak)
    ensures daysSince == Some(1) ==> r == streak + 1
    ensures daysSince.Some? && daysSince.value != 0 && daysSince.value != 1 ==> r == 1
  {
    match daysSince
    case None => 1
    case Some(d) =>
      if d == 0 then Max(1, streak)
      else if d == 1 then streak + 1
      else 1
  }

  /** `updateStreak(progress:)`: recomputes the streak from the recorded last
      activity and raises the record streak to match. */
  function UpdateStreak(p: UserProgress, today: int, days: DayCounter): (r: UserProgress)
    ensures r.currentStreak == StreakStep(p.currentStreak,
              if p.lastActivityDate.Some? then Some(days(p.lastActivityDate.value, today)) else None)
    ensures r.longestStreak == Max(p.longestStreak, r.currentStreak)
    ensures StreakInvariant(r) && r.longestStreak >= p.longestStreak
    ensures r == p.(currentStreak := r.currentStreak, longestStreak := r.longestStreak)
  {
    var daysSince := match p.lastActivityDate
      case None => None
      case Some(last) => Some(days(last, today));
    var streak := StreakStep(p.currentStreak, daysSince);
    p.(currentStreak := streak, longestStreak := Max(p.longestStreak, streak))
  }

  /** The field rebuilds of `updateProgress`, before the streak: modules
      replace, lessons, quizzes and time add, lessons also add to the weekly
      progress, and every supplied field stamps the activity date. */
  function ApplyFields(p: UserProgress, u: ProgressUpdate, now: int): UserProgress {
    var p1 := match u.modulesCompleted
      case None => p
      case Some(n) => p.(totalModulesCompleted := n, lastActivityDate := Some(now));
    var p2 := match u.lessonsCompleted
      case None => p1
      case Some(n) => p1.(totalLessonsCompleted := p1.totalLessonsCompleted + n,
                          weeklyProgress := p1.weeklyProgress + n, lastActivityDate := Some(now));
    var p3 := match u.quizzesCompleted
      case None => p2
      case Some(n) => p2.(totalQuizzesCompleted := p2.totalQuizzesCompleted + n,
                          lastActivityDate := Some(now));
    match u.timeSpent
    case None => p3
    case Some(n) => p3.(totalTimeSpent := p3.totalTimeSpent + n, lastActivityDate := Some(now))
  }

  function OrZero(o: Option<int>): int { if o.Some? then o.value else 0 }

  /** `updateProgress(...)` as written: the fields are applied (stamping the
      activity date with `now`) and only then is the streak recomputed, from
      the date just stamped. */
  function UpdateProgress(p: UserProgress, u: ProgressUpdate, now: int, days: DayCounter): (r: UserProgress)
    ensures r.totalModulesCompleted ==
              (if u.modulesCompleted.Some? then u.modulesCompleted.value else p.totalModulesCompleted)
    ensures r.totalLessonsCompleted == p.totalLessonsCompleted + OrZero(u.lessonsCompleted)
    ensures r.weeklyProgress == p.weeklyProgress + OrZero(u.lessonsCompleted)
    ensures r.totalQuizzesCompleted == p.totalQuizzesCompleted + OrZero(u.quizzesCompleted)
    ensures r.totalTimeSpent == p.totalTimeSpent + OrZero(u.timeSpent)
    ensures r.lastActivityDate == (if SuppliesAField(u) then Some(now) else p.lastActivityDate)
    ensures r.badgesEarned == p.badgesEarned && r.weeklyGoal == p.weeklyGoal
    ensures r.longestStreak == Max(p.longestStreak, r.currentStreak)
    ensures StreakInvariant(r)
  {
    UpdateStreak(ApplyFields(p, u, now), now, days)
  }

  /** The quirk: with any field supplied, the streak is judged against the
      date stamped a moment earlier, so it is always the same-day case. */
  lemma UpdateProgressSameDay(p: UserProgress, u: ProgressUpdate, now: int, days: DayCounter)
    requires SameInstantIsDayZero(days)
    requires SuppliesAField(u)
    ensures UpdateProgress(p, u, now, days).currentStreak == Max(1, p.currentStreak)
  {
    var applied := ApplyFields(p, u, now);
    assert applied.lastActivityDate == Some(now);
    assert applied.currentStreak == p.currentStreak;
    assert days(now, now) == 0;
  }

  /** Without any field the date is not re-stamped and the streak follows
      the calendar gap since the recorded activity. */
  lemma UpdateProgressNoFields(p: UserProgress, now: int, days: DayCounter)
    ensures var r := UpdateProgress(p, ProgressUpdate(None, None, None, None), now, days);
            && r.lastActivityDate == p.lastActivityDate
            && r.currentStreak == StreakStep(p.currentStreak,
                 if p.lastActivityDate.Some? then Some(days(p.lastActivityDate.value, now)) else None)
  {
  }

  /** Consequence of the quirk: a learner whose streak is at most 1 never
      gets beyond 1 through calls that supply a field, however many
      consecutive days they study. */
  lemma StreakStuckAtOne(p: UserProgress, u: ProgressUpdate, now: int, days: DayCounter)
    requires SameInstantIsDayZero(days)
    requires SuppliesAField(u) && p.currentStreak <= 1
    ensures UpdateProgress(p, u, now, days).currentStreak == 1
  {
    UpdateProgressSameDay(p, u, now, days);
  }

  /** Concrete case: activity yesterday, activity today, streak stays 1. */
  lemma NextDayDoesNotExtend()
    ensures var days: DayCounter := (a, b) => (b - a) / 86400;
            var yesterday := UserProgress(0, 1, 0, 15, 1, 1, [], Some(0), 5, 1);
            var today := UpdateProgress(yesterday, ProgressUpdate(None, Some(1), None, Some(15)), 86400, days);
            days(0, 86400) == 1 && today.currentStreak == 1
  {
    var days: DayCounter := (a, b) => (b - a) / 86400;
    var yesterday := UserProgress(0, 1, 0, 15, 1, 1, [], Some(0), 5, 1);
    UpdateProgressSameDay(yesterday, ProgressUpdate(None, Some(1), None, Some(15)), 86400, days);
  }

  /** The evidently intended update: the streak is judged against the
      activity date recorded before this call, then the fields are applied. */
  function UpdateProgressIntended(p: UserProgress, u: ProgressUpdate, now: int, days: DayCounter): (r: UserProgress)
    ensures r.totalLessonsCompleted == p.totalLessonsCompleted + OrZero(u.lessonsCompleted)
    ensures r.lastActivityDate == (if SuppliesAField(u) then Some(now) else p.lastActivityDate)
    ensures StreakInvariant(r)
  {
    var streaked := UpdateStreak(p, now, days);
    ApplyFields(streaked, u, now)
  }

  /** With the intended order, activity on the next calendar day extends
      the streak, and the same day keeps it. */
  lemma IntendedNextDayExtends(p: UserProgress, u: ProgressUpdate, now: int, days: DayCounter)
    requires p.lastActivityDate.Some?
    ensures days(p.lastActivityDate.value, now) == 1 ==>
              UpdateProgressIntended(p, u, now, days).currentStreak == p.currentStreak + 1
    ensures days(p.lastActivityDate.value, now) == 0 ==>
              UpdateProgressIntended(p, u, now, days).currentStreak == Max(1, p.currentStreak)
  {
    var s := UpdateStreak(p, now, days);
    assert ApplyFields(s, u, now).currentStreak == s.currentStreak;
  }

  /** `addBadge(_:)`: appended at the end, no deduplication, nothing else
      changes (not even the activity date). */
  function AddBadge(p: UserProgress, b: Badge): (r: UserProgress)
    ensures |r.badgesEarned| == |p.badgesEarned| + 1
    ensures r.badgesEarned[..|p.badgesEarned|] == p.badgesEarned
    ensures r.badgesEarned[|p.badgesEarned|] == b
    ensures r == p.(badgesEarned := r.badgesEarned)
  {
    p.(badgesEarned := p.badgesEarned + [b])
  }

  /** `setWeeklyGoal(_:)`: any value is accepted. */
  function SetWeeklyGoal(p: UserProgress, goal: int): (r: UserProgress)
    ensures r.weeklyGoal == goal
    ensures r == p.(weeklyGoal := goal)
  {
    p.(weeklyGoal := goal)
  }

  /** `resetWeeklyProgress()` */
  function ResetWeeklyProgress(p: UserProgress): (r: UserProgress)
    ensures r.weeklyProgress == 0
    ensures r == p.(weeklyProgress := 0)
  {
    p.(weeklyProgress := 0)
  }

  /** The optional arguments of `updatePreferences`. Swift's `nil` means
      "leave as is", so there is no way to ask for a cleared reminder. */
  datatype PreferencesPatch = PreferencesPatch(
    selectedLanguages: Option<seq<string>>, learningGoals: Option<seq<LearningGoal>>,
    dailyReminderTime: Option<int>, soundEnabled: Option<bool>,
    hapticFeedbackEnabled: Option<bool>, darkModeEnabled: Option<bool>,
    onboardingCompleted: Option<bool>)

  function Patched<T>(current: T, patch: Option<T>): (r: T)
    ensures patch.Some? ==> r == patch.value
    ensures patch.None? ==> r == current
  {
    if patch.Some? then patch.value else current
  }

  /** `updatePreferences(...)`: a merge-patch over the seven fields. */
  function UpdatePreferences(p: UserPreferences, patch: PreferencesPatch): (r: UserPreferences)
    ensures r.selectedLanguages == Patched(p.selectedLanguages, patch.selectedLanguages)
    ensures r.learningGoals == Patched(p.learningGoals, patch.learningGoals)
    ensures patch.dailyReminderTime.Some? ==> r.dailyReminderTime == patch.dailyReminderTime
    ensures patch.dailyReminderTime.None? ==> r.dailyReminderTime == p.dailyReminderTime
    ensures r.soundEnabled == Patched(p.soundEnabled, patch.soundEnabled)
    ensures r.hapticFeedbackEnabled == Patched(p.hapticFeedbackEnabled, patch.hapticFeedbackEnabled)
    ensures r.darkModeEnabled == Patched(p.darkModeEnabled, patch.darkModeEnabled)
    ensures r.onboardingCompleted == Patched(p.onboardingCompleted, patch.onboardingCompleted)
  {
    UserPreferences(
      Patched(p.selectedLanguages, patch.selectedLanguages),
      Patched(p.learningGoals, patch.learningGoals),
      if patch.dailyReminderTime.Some? then patch.dailyReminderTime else p.dailyReminderTime,
      Patched(p.soundEnabled, patch.soundEnabled),
      Patched(p.hapticFeedbackEnabled, patch.hapticFeedbackEnabled),
      Patched(p.darkModeEnabled, patch.darkModeEnabled),
      Patched(p.onboardingCompleted, patch.onboardingCompleted))
  }

  /** The empty patch changes nothing, applying a patch twice is applying it
      once, and a reminder once set can never be cleared by a patch. */
  lemma UpdatePreferencesLaws(p: UserPreferences, patch: PreferencesPatch)
    ensures UpdatePreferences(p, PreferencesPatch(None, None, None, None, None, None, None)) == p
    ensures UpdatePreferences(UpdatePreferences(p, patch), patch) == UpdatePreferences(p, patch)
    ensures p.dailyReminderTime.Some? ==> UpdatePreferences(p, patch).dailyReminderTime.Some?
  {
  }

  /** `resetAllData()`: both records back to their defaults. */
  function ResetAllData(l: Ledger): (r: Ledger)
    ensures r.progress.totalModulesCompleted == 0 && r.progress.totalLessonsCompleted == 0
    ensures r.progress.totalQuizzesCompleted == 0 && r.progress.totalTimeSpent == 0
    ensures r.progress.currentStreak == 0 && r.progress.longestStreak == 0
    ensures r.progress.badgesEarned == [] && r.progress.lastActivityDate.None?
    ensures r.progress.weeklyGoal == 5 && r.progress.weeklyProgress == 0
    ensures r.preferences.selectedLanguages == [] && r.preferences.learningGoals == []
    ensures r.preferences.dailyReminderTime.None?
    ensures r.preferences.soundEnabled && r.preferences.hapticFeedbackEnabled
    ensures !r.preferences.darkModeEnabled && !r.preferences.onboardingCompleted
    ensures StreakInvariant(r.progress)
  {
    Ledger(DefaultProgress(), DefaultPreferences())
  }

  /** After a reset nothing of the old ledger can be told apart: any two
      ledgers reset to the same one, and so does a reset ledger again. */
  lemma ResetAllDataForgets(a: Ledger, b: Ledger)
    ensures ResetAllData(a) == ResetAllData(b)
    ensures ResetAllData(ResetAllData(a)) == ResetAllData(a)
    ensures ResetAllData(a).progress == DefaultProgress()
    ensures ResetAllData(a).preferences == DefaultPreferences()
  {
  }

  // ---------------------------------------------------------------------
  // Analytics.
  // ---------------------------------------------------------------------

  /** `getWeeklyProgressPercentage()`: 0 without a positive goal, otherwise
      the completed fraction capped at 1. */
  function WeeklyPercentage(p: UserProgress): (r: real)
    ensures r <= 1.0
    ensures p.weeklyGoal <= 0 ==> r == 0.0
    ensures p.weeklyGoal > 0 ==> (r == 1.0 <==> p.weeklyProgress >= p.weeklyGoal)
    ensures p.weeklyGoal > 0 && p.weeklyProgress >= 0 ==> r >= 0.0
    ensures p.weeklyGoal > 0 && p.weeklyProgress < p.weeklyGoal ==>
              r * p.weeklyGoal as real == p.weeklyProgress as real
  {
    if p.weeklyGoal <= 0 then 0.0
    else
      var ratio := p.weeklyProgress as real / p.weeklyGoal as real;
      WeeklyRatioFacts(p.weeklyProgress, p.weeklyGoal);
      MinReal(ratio, 1.0)
  }

  function MinReal(a: real, b: real): real { if a <= b then a else b }

  lemma WeeklyRatioFacts(progress: int, goal: int)
    requires goal > 0
    ensures progress as real / goal as real >= 1.0 <==> progress >= goal
    ensures progress >= 0 ==> progress as real / goal as real >= 0.0
  {
    var r := progress as real / goal as real;
    var g := goal as real;
    assert r * g == progress as real;
  }

  /** More lessons this week never lower the weekly percentage. */
  lemma WeeklyPercentageMonotone(p: UserProgress, extra: nat)
    ensures WeeklyPercentage(p) <= WeeklyPercentage(p.(weeklyProgress := p.weeklyProgress + extra))
  {
    if p.weeklyGoal > 0 {
      DivideMonotone(p.weeklyProgress as real, (p.weeklyProgress + extra) as real, p.weeklyGoal as real);
    }
  }

  lemma DivideMonotone(x: real, y: real, g: real)
    requires g > 0.0 && x <= y
    ensures x / g <= y / g
  {
    assert y / g - x / g == (y - x) / g;
  }

  /** `getDaysUntilWeeklyGoal()`: lessons still missing, never negative. */
  function LessonsUntilWeeklyGoal(p: UserProgress): (r: int)
    ensures r >= 0
    ensures r == 0 <==> p.weeklyProgress >= p.weeklyGoal
    ensures r > 0 ==> p.weeklyProgress + r == p.weeklyGoal
  {
    Max(0, p.weeklyGoal - p.weeklyProgress)
  }

  /** A new week starts from nothing: the goal is kept, the whole of it is
      outstanding again and the percentage drops to 0. */
  lemma ResetWeeklyRestartsGoal(p: UserProgress)
    requires p.weeklyGoal > 0
    ensures ResetWeeklyProgress(p).weeklyGoal == p.weeklyGoal
    ensures WeeklyPercentage(ResetWeeklyProgress(p)) == 0.0
    ensures LessonsUntilWeeklyGoal(ResetWeeklyProgress(p)) == p.weeklyGoal
  {
  }

  /** A goal of 0 or less switches the percentage off, a goal already
      reached this week reads as met, and a larger goal leaves exactly the
      difference outstanding. */
  lemma SetWeeklyGoalAgainstProgress(p: UserProgress, goal: int)
    ensures goal <= 0 ==> WeeklyPercentage(SetWeeklyGoal(p, goal)) == 0.0
    ensures 0 < goal <= p.weeklyProgress ==>
              WeeklyPercentage(SetWeeklyGoal(p, goal)) == 1.0
              && LessonsUntilWeeklyGoal(SetWeeklyGoal(p, goal)) == 0
    ensures goal > p.weeklyProgress ==>
              LessonsUntilWeeklyGoal(SetWeeklyGoal(p, goal)) == goal - p.weeklyProgress
  {
  }

  /** `getAverageTimePerLesson()`: 0 before the first lesson. */
  function AverageTimePerLesson(p: UserProgress): (r: real)
    ensures p.totalLessonsCompleted <= 0 ==> r == 0.0
    ensures p.totalLessonsCompleted > 0 ==>
              r * p.totalLessonsCompleted as real == p.totalTimeSpent as real
  {
    if p.totalLessonsCompleted <= 0 then 0.0
    else p.totalTimeSpent as real / p.totalLessonsCompleted as real
  }
}
