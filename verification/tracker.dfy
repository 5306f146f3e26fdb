/**
 The progress tracker's derived read-outs (`ProgressTrackerViewModel`):
 recent achievements, the badge total, the motivational message and the
 colour of the weekly-goal ring. Chart and weekly-dot data are random in
 the app and are not modelled.
 */
module Tracker {
  import opened Common
  import opened Models
  import opened Ledger

  /** `Date.distantPast` in seconds since 1970, the sort key of an undated
      badge. */
  const DistantPast: int := -62135769600

  function EarnedAt(b: Badge): int {
    if b.dateEarned.Some? then b.dateEarned.value else DistantPast
  }

  /** A badge counts as recent when it has a date no earlier than the
      cut-off one week before now. */
  predicate IsRecent(b: Badge, oneWeekAgo: int) {
    b.dateEarned.Some? && b.dateEarned.value >= oneWeekAgo
  }

  predicate NewestFirst(bs: seq<Badge>) {
    forall i, j :: 0 <= i < j < |bs| ==> EarnedAt(bs[i]) >= EarnedAt(bs[j])
  }

  /** The `filter` step, in the original order. */
  function KeepRecent(bs: seq<Badge>, oneWeekAgo: int): (r: seq<Badge>)
    ensures forall i :: 0 <= i < |r| ==> IsRecent(r[i], oneWeekAgo)
    ensures multiset(r) <= multiset(bs)
    ensures forall b :: IsRecent(b, oneWeekAgo) ==> multiset(r)[b] == multiset(bs)[b]
  {
    if |bs| == 0 then []
    else
      var rest := KeepRecent(bs[1..], oneWeekAgo);
      assert bs == [bs[0]] + bs[1..];
      KeepStep(bs[0], rest, bs[1..], oneWeekAgo);
      if IsRecent(bs[0], oneWeekAgo) then [bs[0]] + rest else rest
  }

  /** One filter step keeps both properties of the filtered tail. */
  lemma KeepStep(x: Badge, rest: seq<Badge>, tail: seq<Badge>, oneWeekAgo: int)
    requires forall i :: 0 <= i < |rest| ==> IsRecent(rest[i], oneWeekAgo)
    requires multiset(rest) <= multiset(tail)
    requires forall b :: IsRecent(b, oneWeekAgo) ==> multiset(rest)[b] == multiset(tail)[b]
    ensures var r := if IsRecent(x, oneWeekAgo) then [x] + rest else rest;
            && (forall i :: 0 <= i < |r| ==> IsRecent(r[i], oneWeekAgo))
            && multiset(r) <= multiset([x] + tail)
            && (forall b :: IsRecent(b, oneWeekAgo) ==> multiset(r)[b] == multiset([x] + tail)[b])
  {
    assert multiset([x] + tail) == multiset{x} + multiset(tail);
    if IsRecent(x, oneWeekAgo) {
      assert multiset([x] + rest) == multiset{x} + multiset(rest);
      forall i | 0 <= i < |[x] + rest|
        ensures IsRecent(([x] + rest)[i], oneWeekAgo)
      {
        if i > 0 { assert ([x] + rest)[i] == rest[i - 1]; }
      }
    }
  }

  /** The filter drops no recent badge. */
  lemma {:induction false} KeepRecentKeepsAll(bs: seq<Badge>, oneWeekAgo: int)
    ensures forall b :: b in bs && IsRecent(b, oneWeekAgo) ==> b in KeepRecent(bs, oneWeekAgo)
  {
    if |bs| > 0 {
      KeepRecentKeepsAll(bs[1..], oneWeekAgo);
      assert forall b :: b in bs ==> b == bs[0] || b in bs[1..];
    }
  }

  /** Places one badge into a newest-first list. */
  function InsertByDate(b: Badge, bs: seq<Badge>): (r: seq<Badge>)
    requires NewestFirst(bs)
    ensures NewestFirst(r)
    ensures multiset(r) == multiset(bs) + multiset{b}
    ensures |r| == |bs| + 1 && (r[0] == b || (|bs| > 0 && r[0] == bs[0]))
  {
    if |bs| == 0 then [b]
    else if EarnedAt(b) >= EarnedAt(bs[0]) then [b] + bs
    else
      var rest := InsertByDate(b, bs[1..]);
      assert bs == [bs[0]] + bs[1..];
      assert EarnedAt(bs[0]) >= EarnedAt(rest[0]) by {
        if rest[0] != b { assert rest[0] == bs[1]; }
      }
      ConsNewestFirst(bs[0], rest);
      [bs[0]] + rest
  }

  /** A badge no older than the head of a newest-first list can go in front. */
  lemma ConsNewestFirst(x: Badge, rest: seq<Badge>)
    requires NewestFirst(rest)
    requires |rest| > 0 ==> EarnedAt(x) >= EarnedAt(rest[0])
    ensures NewestFirst([x] + rest)
  {
    var r := [x] + rest;
    forall i, j | 0 <= i < j < |r|
      ensures EarnedAt(r[i]) >= EarnedAt(r[j])
    {
      if i == 0 {
        assert EarnedAt(rest[0]) >= EarnedAt(rest[j - 1]);
      } else {
        assert r[i] == rest[i - 1] && r[j] == rest[j - 1];
      }
    }
  }

  /** The `sorted(by: >)` step. */
  function SortNewestFirst(bs: seq<Badge>): (r: seq<Badge>)
    ensures NewestFirst(r)
    ensures multiset(r) == multiset(bs)
  {
    if |bs| == 0 then []
    else
      assert bs == [bs[0]] + bs[1..];
      InsertByDate(bs[0], SortNewestFirst(bs[1..]))
  }

  /** `getRecentAchievements()`: the dated badges from the last week,
      newest first. Swift's sort is not stable, so badges earned at the same
      instant may come out in another order in the app. */
  function RecentAchievements(p: UserProgress, oneWeekAgo: int): (r: seq<Badge>)
    ensures NewestFirst(r)
    ensures forall i :: 0 <= i < |r| ==> IsRecent(r[i], oneWeekAgo)
    ensures multiset(r) <= multiset(p.badgesEarned)
    ensures forall b :: IsRecent(b, oneWeekAgo) ==> multiset(r)[b] == multiset(p.badgesEarned)[b]
    ensures forall b :: b in p.badgesEarned && IsRecent(b, oneWeekAgo) ==> b in r
  {
    var kept := KeepRecent(p.badgesEarned, oneWeekAgo);
    var sorted := SortNewestFirst(kept);
    KeepRecentKeepsAll(p.badgesEarned, oneWeekAgo);
    SameElements(kept, sorted);
    sorted
  }

  /** Two sequences that are permutations of each other hold the same badges. */
  lemma SameElements(a: seq<Badge>, b: seq<Badge>)
    requires multiset(a) == multiset(b)
    ensures forall x :: x in a <==> x in b
    ensures forall i :: 0 <= i < |b| ==> b[i] in a
  {
    assert forall x :: x in a <==> x in multiset(a);
    assert forall x :: x in b <==> x in multiset(b);
  }

  /** `getTotalBadgesCount()`: every earned badge counts, duplicates too. */
  function TotalBadgesCount(p: UserProgress): (n: nat)
    ensures n == |p.badgesEarned|
  {
    |p.badgesEarned|
  }

  /** Awarding a badge always raises the total by one. */
  lemma AddBadgeCounts(p: UserProgress, b: Badge)
    ensures TotalBadgesCount(AddBadge(p, b)) == TotalBadgesCount(p) + 1
  {
  }

  /** A freshly awarded badge, dated now, is among the recent ones. */
  lemma NewBadgeIsRecent(p: UserProgress, b: Badge, now: int, oneWeekAgo: int)
    requires b.dateEarned == Some(now) && oneWeekAgo <= now
    ensures b in RecentAchievements(AddBadge(p, b), oneWeekAgo)
  {
    assert AddBadge(p, b).badgesEarned[|p.badgesEarned|] == b;
  }

  datatype Motivation =
    | OnAStreak(days: int)
    | WeeklyGoalReached
    | CloseToGoal
    | GreatProgress
    | BuildingHabit
    | ReadyToStart

  /** `getMotivationalMessage()`: the first matching rule wins; a week-long
      streak beats everything. */
  function MotivationalMessage(p: UserProgress): (m: Motivation)
    ensures var pct := WeeklyPercentage(p);
            && (m.OnAStreak? <==> p.currentStreak >= 7)
            && (m.OnAStreak? ==> m.days == p.currentStreak)
            && (m == WeeklyGoalReached <==> p.currentStreak < 7 && pct >= 1.0)
            && (m == CloseToGoal <==> p.currentStreak < 7 && 0.8 <= pct < 1.0)
            && (m == GreatProgress <==> p.currentStreak < 7 && 0.5 <= pct < 0.8)
            && (m == BuildingHabit <==> 0 < p.currentStreak < 7 && pct < 0.5)
            && (m == ReadyToStart <==> p.currentStreak <= 0 && pct < 0.5)
  {
    var streak := p.currentStreak;
    var pct := WeeklyPercentage(p);
    if streak >= 7 then OnAStreak(streak)
    else if pct >= 1.0 then WeeklyGoalReached
    else if pct >= 0.8 then CloseToGoal
    else if pct >= 0.5 then GreatProgress
    else if streak > 0 then BuildingHabit
    else ReadyToStart
  }

  function MessageText(m: Motivation): string {
    match m
    case OnAStreak(n) => "\U{1F525} Amazing! You're on a " + IntToString(n) + "-day streak!"
    case WeeklyGoalReached => "\U{1F389} Congratulations! " + "You've reached your weekly goal!"
    case CloseToGoal => "\U{1F4AA} You're so close to your weekly goal!"
    case GreatProgress => "\U{1F4DA} Great progress! Keep it up!"
    case BuildingHabit => "\U{2B50} Nice work! You're building a great habit!"
    case ReadyToStart => "\U{1F31F} Ready to start your learning journey?"
  }

  /** Each motivation has its own text: the six messages open with
      different symbols, and streak messages differ in the day count. */
  lemma MessageTextInjective(a: Motivation, b: Motivation)
    requires MessageText(a) == MessageText(b)
    ensures a == b
  {
    var s := MessageText(a);
    if a.OnAStreak? && b.OnAStreak? {
      var pre := "\U{1F525} Amazing! You're on a ";
      var post := "-day streak!";
      assert s[|pre|..|s| - |post|] == IntToString(a.days);
      assert s[|pre|..|s| - |post|] == IntToString(b.days);
      IntToStringInjective(a.days, b.days);
    } else {
      assert Symbol(a) == s[0] == Symbol(b);
    }
  }

  /** The symbol a message opens with. */
  function Symbol(m: Motivation): (c: char)
    ensures MessageText(m)[0] == c
  {
    match m
    case OnAStreak(_) => '\U{1F525}'
    case WeeklyGoalReached => '\U{1F389}'
    case CloseToGoal => '\U{1F4AA}'
    case GreatProgress => '\U{1F4DA}'
    case BuildingHabit => '\U{2B50}'
    case ReadyToStart => '\U{1F31F}'
  }

  /** Meeting the weekly goal without a week-long streak congratulates. */
  lemma GoalMetCongratulates(p: UserProgress)
    requires p.currentStreak < 7 && p.weeklyGoal > 0 && p.weeklyProgress >= p.weeklyGoal
    ensures MotivationalMessage(p) == WeeklyGoalReached
  {
  }

  datatype Tint = Red | Orange | Blue | Green

  function TintRank(t: Tint): nat {
    match t
    case Red => 0
    case Orange => 1
    case Blue => 2
    case Green => 3
  }

  /** `getProgressColor()` over a weekly fraction. */
  function ProgressColor(pct: real): (t: Tint)
    ensures t == Green <==> pct >= 1.0
    ensures t == Blue <==> 0.7 <= pct < 1.0
    ensures t == Orange <==> 0.4 <= pct < 0.7
    ensures t == Red <==> pct < 0.4
  {
    if pct >= 1.0 then Green
    else if pct >= 0.7 then Blue
    else if pct >= 0.4 then Orange
    else Red
  }

  /** More progress never shows a worse colour. */
  lemma ProgressColorMonotone(a: real, b: real)
    requires a <= b
    ensures TintRank(ProgressColor(a)) <= TintRank(ProgressColor(b))
  {
  }
}
