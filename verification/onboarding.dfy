/**
 The first-run flow (`OnboardingView`): four pages stepped by Back and Next,
 a gate on each page, and the hand-off to the progress ledger on the last
 page. Also the integer part of `Color(hex:)`, which turns a colour string
 into alpha, red, green and blue channels.
 */
module Onboarding {
  import opened Common
  import opened Models
  import opened Ledger

  // ---------------------------------------------------------------------
  // Pages.
  // ---------------------------------------------------------------------

  const TotalPages: int := 4

  datatype Flow = Flow(
    page: int,
    languages: set<string>,
    goals: set<LearningGoal>,
    weeklyGoal: int,
    finished: bool)

  function InitialFlow(): (f: Flow)
    ensures f.page == 0 && f.languages == {} && f.goals == {} && f.weeklyGoal == 5 && !f.finished
  {
    Flow(0, {}, {}, 5, false)
  }

  predicate PageInRange(f: Flow) {
    0 <= f.page < TotalPages
  }

  /** `canProceed()`: the welcome and demo pages always let the user on; the
      language and goal pages need a choice; no other page does. */
  function CanProceed(f: Flow): (ok: bool)
    ensures f.page == 0 || f.page == 3 ==> ok
    ensures f.page == 1 ==> (ok <==> f.languages != {})
    ensures f.page == 2 ==> (ok <==> f.goals != {})
    ensures !(0 <= f.page <= 3) ==> !ok
  {
    match f.page
    case 0 => true
    case 1 => f.languages != {}
    case 2 => f.goals != {}
    case 3 => true
    case _ => false
  }

  /** The Back button exists only past the first page. */
  function Back(f: Flow): (r: Flow)
    ensures PageInRange(f) ==> PageInRange(r)
    ensures f.page > 0 ==> r.page == f.page - 1
    ensures r == f.(page := r.page)
  {
    if f.page > 0 then f.(page := f.page - 1) else f
  }

  /** Array(set) lists every element of the set once, in an order Swift
      leaves unspecified. */
  predicate Lists<T>(order: seq<T>, s: set<T>) {
    (forall x | x in order :: x in s) && (forall x | x in s :: x in order) && |order| == |s|
  }

  /** `completeOnboarding()`: store the chosen languages and goals, mark
      onboarding done, then set the weekly goal. */
  function CompleteOnboarding(f: Flow, l: Ledger, languageOrder: seq<string>, goalOrder: seq<LearningGoal>): (r: Ledger)
    requires Lists(languageOrder, f.languages) && Lists(goalOrder, f.goals)
    ensures r.preferences.onboardingCompleted
    ensures (set x | x in r.preferences.selectedLanguages) == f.languages
    ensures (set g | g in r.preferences.learningGoals) == f.goals
    ensures r.preferences.dailyReminderTime == l.preferences.dailyReminderTime
    ensures r.preferences.soundEnabled == l.preferences.soundEnabled
    ensures r.preferences.hapticFeedbackEnabled == l.preferences.hapticFeedbackEnabled
    ensures r.preferences.darkModeEnabled == l.preferences.darkModeEnabled
    ensures r.progress == l.progress.(weeklyGoal := f.weeklyGoal)
  {
    var patch := PreferencesPatch(Some(languageOrder), Some(goalOrder), None, None, None, None, Some(true));
    Ledger(SetWeeklyGoal(l.progress, f.weeklyGoal), UpdatePreferences(l.preferences, patch))
  }

  /** The Next / "Get Started" button: disabled while the gate is shut, on
      the last page it finishes onboarding, elsewhere it turns the page. */
  function Next(f: Flow, l: Ledger, languageOrder: seq<string>, goalOrder: seq<LearningGoal>): (r: (Flow, Ledger))
    requires Lists(languageOrder, f.languages) && Lists(goalOrder, f.goals)
    ensures PageInRange(f) ==> PageInRange(r.0)
    ensures !CanProceed(f) ==> r == (f, l)
    ensures r.1 != l ==> f.page == TotalPages - 1 && r.0.finished
    ensures f.finished ==> r.0.finished
    ensures CanProceed(f) && f.page < TotalPages - 1 ==> r == (f.(page := f.page + 1), l)
    ensures CanProceed(f) && f.page == TotalPages - 1 ==>
              r == (f.(finished := true), CompleteOnboarding(f, l, languageOrder, goalOrder))
  {
    if !CanProceed(f) then (f, l)
    else if f.page == TotalPages - 1 then
      (f.(finished := true), CompleteOnboarding(f, l, languageOrder, goalOrder))
    else (f.(page := f.page + 1), l)
  }

  /** A swipe on the paged `TabView`, which is bound to the same page
      number: it moves one page either way and asks no gate. */
  function Swipe(f: Flow, forward: bool): (r: Flow)
    ensures PageInRange(f) ==> PageInRange(r)
    ensures forward && 0 <= f.page < TotalPages - 1 ==> r.page == f.page + 1
    ensures !forward && f.page > 0 ==> r.page == f.page - 1
    ensures r == f.(page := r.page)
  {
    if forward && 0 <= f.page < TotalPages - 1 then f.(page := f.page + 1)
    else if !forward && f.page > 0 then f.(page := f.page - 1)
    else f
  }

  /** The user's actions on the flow. */
  datatype Press =
    | PressBack
    | PressNext(languageOrder: seq<string>, goalOrder: seq<LearningGoal>)
    | PressSwipe(forward: bool)

  predicate PressValid(f: Flow, p: Press) {
    p.PressNext? ==> Lists(p.languageOrder, f.languages) && Lists(p.goalOrder, f.goals)
  }

  function Apply(f: Flow, l: Ledger, p: Press): (r: (Flow, Ledger))
    requires PressValid(f, p)
  {
    match p
    case PressBack => (Back(f), l)
    case PressNext(lo, go) => Next(f, l, lo, go)
    case PressSwipe(forward) => (Swipe(f, forward), l)
  }

  predicate AllValid(f: Flow, l: Ledger, ps: seq<Press>)
    decreases |ps|
  {
    |ps| == 0 || (PressValid(f, ps[0]) && var n := Apply(f, l, ps[0]); AllValid(n.0, n.1, ps[1..]))
  }

  function Run(f: Flow, l: Ledger, ps: seq<Press>): (r: (Flow, Ledger))
    requires AllValid(f, l, ps)
    decreases |ps|
  {
    if |ps| == 0 then (f, l)
    else
      var n := Apply(f, l, ps[0]);
      Run(n.0, n.1, ps[1..])
  }

  /** Whatever the user presses or swipes, the page stays one of the four, and the
      ledger is written only by finishing onboarding. */
  lemma {:induction false} RunStaysInRange(f: Flow, l: Ledger, ps: seq<Press>)
    requires PageInRange(f) && AllValid(f, l, ps)
    ensures PageInRange(Run(f, l, ps).0)
    ensures !Run(f, l, ps).0.finished ==> Run(f, l, ps).1 == l
    ensures f.finished ==> Run(f, l, ps).0.finished
    decreases |ps|
  {
    if |ps| > 0 {
      var n := Apply(f, l, ps[0]);
      RunStaysInRange(n.0, n.1, ps[1..]);
    }
  }

  /** Swiping passes the language and goal pages without their gates, so
      onboarding can finish with no language and no goal chosen. */
  lemma SwipeSkipsGates(l: Ledger)
    ensures var ps := [PressSwipe(true), PressSwipe(true), PressSwipe(true), PressNext([], [])];
            && AllValid(InitialFlow(), l, ps)
            && Run(InitialFlow(), l, ps).0.finished
            && Run(InitialFlow(), l, ps).1.preferences.onboardingCompleted
            && Run(InitialFlow(), l, ps).1.preferences.selectedLanguages == []
            && Run(InitialFlow(), l, ps).1.preferences.learningGoals == []
  {
    var ps := [PressSwipe(true), PressSwipe(true), PressSwipe(true), PressNext([], [])];
    var f3 := InitialFlow().(page := 3);
    assert ps[1..][1..][1..] == [PressNext([], [])];
    assert Run(f3, l, [PressNext([], [])]) == Next(f3, l, [], []);
    assert AllValid(f3, l, [PressNext([], [])]);
  }

  // ---------------------------------------------------------------------
  // `Color(hex:)`: channel arithmetic.
  // ---------------------------------------------------------------------

  predicate IsAlphanumeric(c: char) {
    '0' <= c <= '9' || 'a' <= c <= 'z' || 'A' <= c <= 'Z'
  }

  predicate NotAlphanumeric(c: char) { !IsAlphanumeric(c) }

  predicate IsHexDigit(c: char) {
    '0' <= c <= '9' || 'a' <= c <= 'f' || 'A' <= c <= 'F'
  }

  predicate AllHex(s: string) { forall i :: 0 <= i < |s| ==> IsHexDigit(s[i]) }

  function HexDigitValue(c: char): (v: nat)
    requires IsHexDigit(c)
    ensures v < 16
  {
    if '0' <= c <= '9' then c as int - '0' as int
    else if 'a' <= c <= 'f' then c as int - 'a' as int + 10
    else c as int - 'A' as int + 10
  }

  function Pow16(n: nat): (p: nat)
    ensures p >= 1
  {
    if n == 0 then 1 else 16 * Pow16(n - 1)
  }

  /** The value of a string of hex digits, most significant first. */
  function HexValue(s: string): (v: nat)
    requires AllHex(s)
    ensures v < Pow16(|s|)
  {
    if |s| == 0 then 0
    else 16 * HexValue(s[..|s| - 1]) + HexDigitValue(s[|s| - 1])
  }

  /** `Scanner.scanHexInt64`: an optional `0x`/`0X`, then as many hex digits
      as there are; the value stays 0 when there is none. */
  function ScanHex(s: string): (v: nat)
    ensures v < Pow16(|s|)
  {
    var digits := if |s| >= 3 && s[0] == '0' && (s[1] == 'x' || s[1] == 'X') && IsHexDigit(s[2]) then s[2..] else s;
    var n := LeadingCount(digits, IsHexDigit);
    PowMono(n, |s|);
    HexValue(digits[..n])
  }

  lemma {:induction false} PowMono(a: nat, b: nat)
    requires a <= b
    ensures Pow16(a) <= Pow16(b)
  {
    if a < b {
      PowMono(a, b - 1);
    }
  }

  datatype Argb = Argb(a: int, r: int, g: int, b: int)

  predicate ChannelsInRange(c: Argb) {
    0 <= c.a <= 255 && 0 <= c.r <= 255 && 0 <= c.g <= 255 && 0 <= c.b <= 255
  }

  /** The channels `Color(hex:)` computes before dividing by 255. Shifts and
      masks are written as divisions and remainders by powers of two. */
  function DecodeHex(text: string): (c: Argb)
    ensures ChannelsInRange(c)
    ensures var hex := TrimBy(text, NotAlphanumeric);
            (|hex| == 3 || |hex| == 6) ==> c.a == 255
    ensures var hex := TrimBy(text, NotAlphanumeric);
            !(|hex| == 3 || |hex| == 6 || |hex| == 8) ==> c == Argb(1, 1, 1, 0)
  {
    var hex := TrimBy(text, NotAlphanumeric);
    var n := ScanHex(hex);
    if |hex| == 3 then
      assert Pow16(3) == 4096;
      Rgb12(n)
    else if |hex| == 6 then
      assert Pow16(6) == 16777216;
      Rgb24(n)
    else if |hex| == 8 then
      assert Pow16(8) == 4294967296;
      Argb32(n)
    else Argb(1, 1, 1, 0)
  }

  /** `#RGB`: each 4-bit nibble scaled by 17. */
  function Rgb12(n: nat): (c: Argb)
    requires n < 4096
    ensures ChannelsInRange(c) && c.a == 255
  {
    ShortChannels(n);
    Argb(255, (n / 256) * 17, (n / 16 % 16) * 17, (n % 16) * 17)
  }

  /** `#RRGGBB`: three bytes, fully opaque. */
  function Rgb24(n: nat): (c: Argb)
    requires n < 16777216
    ensures ChannelsInRange(c) && c.a == 255
  {
    Argb(255, n / 65536, n / 256 % 256, n % 256)
  }

  /** `#AARRGGBB`: four bytes, alpha first. */
  function Argb32(n: nat): (c: Argb)
    requires n < 4294967296
    ensures ChannelsInRange(c)
  {
    Argb(n / 16777216, n / 65536 % 256, n / 256 % 256, n % 256)
  }

  lemma ShortChannels(n: nat)
    requires n < 4096
    ensures (n / 256) * 17 <= 255 && (n / 16 % 16) * 17 <= 255 && (n % 16) * 17 <= 255
  {
    assert n / 256 < 16;
  }

  // ---------------------------------------------------------------------
  // A formatter for "#RRGGBB", the partner of the decoder.
  // ---------------------------------------------------------------------

  function HexDigitChar(v: nat): (c: char)
    requires v < 16
    ensures IsHexDigit(c) && IsAlphanumeric(c) && HexDigitValue(c) == v
  {
    "0123456789ABCDEF"[v]
  }

  function HexByte(v: nat): (s: string)
    requires v < 256
    ensures |s| == 2 && AllHex(s)
  {
    [HexDigitChar(v / 16), HexDigitChar(v % 16)]
  }

  function FormatColor(r: nat, g: nat, b: nat): (s: string)
    requires r < 256 && g < 256 && b < 256
    ensures |s| == 7 && s[0] == '#'
  {
    "#" + HexByte(r) + HexByte(g) + HexByte(b)
  }

  lemma HexValueOfDigits(s: string)
    requires |s| == 6 && AllHex(s)
    ensures HexValue(s) == (((((HexDigitValue(s[0]) * 16 + HexDigitValue(s[1])) * 16 + HexDigitValue(s[2])) * 16
      + HexDigitValue(s[3])) * 16 + HexDigitValue(s[4])) * 16 + HexDigitValue(s[5]))
  {
    assert s[..0] == [];
    HexValuePrefix(s, 1);
    HexValuePrefix(s, 2);
    HexValuePrefix(s, 3);
    HexValuePrefix(s, 4);
    HexValuePrefix(s, 5);
    HexValuePrefix(s, 6);
    assert s[..6] == s;
  }

  /** One more digit at the end: the value so far times 16, plus the digit. */
  lemma HexValuePrefix(s: string, k: nat)
    requires AllHex(s) && 0 < k <= |s|
    ensures HexValue(s[..k]) == 16 * HexValue(s[..k - 1]) + HexDigitValue(s[k - 1])
  {
    assert s[..k][..k - 1] == s[..k - 1];
  }

  lemma {:induction false} TrimFormatted(s: string)
    requires |s| > 1 && s[0] == '#' && forall i :: 1 <= i < |s| ==> IsAlphanumeric(s[i])
    ensures TrimBy(s, NotAlphanumeric) == s[1..]
  {
    var hex := s[1..];
    assert LeadingCount(hex, NotAlphanumeric) == 0;
    assert LeadingCount(s, NotAlphanumeric) == 1;
    assert KeptLength(hex, NotAlphanumeric) == |hex|;
    var b := TrimBounds(s, NotAlphanumeric);
    assert b == (1, |s|);
  }

  /** Without a `0x` prefix every digit is scanned. */
  lemma ScanAllHex(hex: string)
    requires AllHex(hex)
    ensures ScanHex(hex) == HexValue(hex)
  {
    LeadingAllHex(hex);
    assert hex[..|hex|] == hex;
  }

  lemma HexBytesValue(r: nat, g: nat, b: nat)
    requires r < 256 && g < 256 && b < 256
    ensures HexValue(HexByte(r) + HexByte(g) + HexByte(b)) == r * 65536 + g * 256 + b
  {
    var hex := HexByte(r) + HexByte(g) + HexByte(b);
    HexValueOfDigits(hex);
    assert HexDigitValue(hex[0]) == r / 16 && HexDigitValue(hex[1]) == r % 16;
    assert HexDigitValue(hex[2]) == g / 16 && HexDigitValue(hex[3]) == g % 16;
    assert HexDigitValue(hex[4]) == b / 16 && HexDigitValue(hex[5]) == b % 16;
  }

  lemma SplitChannels(r: nat, g: nat, b: nat)
    requires r < 256 && g < 256 && b < 256
    ensures var n := r * 65536 + g * 256 + b;
            n / 65536 == r && n / 256 % 256 == g && n % 256 == b
  {
    var n := r * 65536 + g * 256 + b;
    assert n == (r * 256 + g) * 256 + b;
    assert n / 256 == r * 256 + g;
    assert n % 256 == b;
    assert (r * 256 + g) % 256 == g;
    assert n / 65536 == (n / 256) / 256;
  }

  /** Any colour the formatter writes decodes to the same channels, fully
      opaque. */
  lemma {:induction false} DecodeFormatColor(r: nat, g: nat, b: nat)
    requires r < 256 && g < 256 && b < 256
    ensures DecodeHex(FormatColor(r, g, b)) == Argb(255, r, g, b)
  {
    FormattedTrim(r, g, b);
    FormattedValue(r, g, b);
    DecodeBytes(FormatColor(r, g, b), r, g, b);
  }

  /** Any text whose trimmed digits are six and scan as three bytes decodes
      to those bytes, fully opaque. */
  lemma DecodeBytes(text: string, r: nat, g: nat, b: nat)
    requires r < 256 && g < 256 && b < 256
    requires |TrimBy(text, NotAlphanumeric)| == 6
    requires ScanHex(TrimBy(text, NotAlphanumeric)) == r * 65536 + g * 256 + b
    ensures DecodeHex(text) == Argb(255, r, g, b)
  {
    DecodeSixDigits(text);
    Rgb24Bytes(ScanHex(TrimBy(text, NotAlphanumeric)), r, g, b);
  }

  lemma Rgb24Bytes(n: nat, r: nat, g: nat, b: nat)
    requires r < 256 && g < 256 && b < 256 && n == r * 65536 + g * 256 + b
    ensures n < 16777216
    ensures Rgb24(n) == Argb(255, r, g, b)
  {
    SplitChannels(r, g, b);
  }

  lemma FormattedTrim(r: nat, g: nat, b: nat)
    requires r < 256 && g < 256 && b < 256
    ensures TrimBy(FormatColor(r, g, b), NotAlphanumeric) == HexByte(r) + HexByte(g) + HexByte(b)
  {
    var s := FormatColor(r, g, b);
    var hex := HexByte(r) + HexByte(g) + HexByte(b);
    assert s[1..] == hex;
    assert AllHex(hex);
    TrimFormatted(s);
  }

  lemma FormattedValue(r: nat, g: nat, b: nat)
    requires r < 256 && g < 256 && b < 256
    ensures ScanHex(HexByte(r) + HexByte(g) + HexByte(b)) == r * 65536 + g * 256 + b
  {
    ScanAllHex(HexByte(r) + HexByte(g) + HexByte(b));
    HexBytesValue(r, g, b);
  }

  /** Six digits after trimming select the opaque 24-bit branch. */
  lemma DecodeSixDigits(text: string)
    requires |TrimBy(text, NotAlphanumeric)| == 6
    ensures ScanHex(TrimBy(text, NotAlphanumeric)) < 16777216
    ensures DecodeHex(text) == Rgb24(ScanHex(TrimBy(text, NotAlphanumeric)))
  {
    assert Pow16(6) == 16777216;
  }

  lemma {:induction false} LeadingAllHex(s: string)
    requires AllHex(s)
    ensures LeadingCount(s, IsHexDigit) == |s|
  {
    if |s| > 0 {
      LeadingAllHex(s[1..]);
    }
  }

  /** The three difficulty colours decode to the channels their digits
      spell. */
  lemma DifficultyColorsDecode()
    ensures DecodeHex(DifficultyColor(Beginner)) == Argb(255, 0x4C, 0xAF, 0x50)
    ensures DecodeHex(DifficultyColor(Intermediate)) == Argb(255, 0xFF, 0x98, 0x00)
    ensures DecodeHex(DifficultyColor(Advanced)) == Argb(255, 0xF4, 0x43, 0x36)
  {
    HashSixColor('4', 'C', 'A', 'F', '5', '0', 0x4C, 0xAF, 0x50);
    HashSixColor('F', 'F', '9', '8', '0', '0', 0xFF, 0x98, 0x00);
    HashSixColor('F', '4', '4', '3', '3', '6', 0xF4, 0x43, 0x36);
  }

  /** "#" and six hex digits decode to the three bytes the digits spell. */
  lemma HashSixColor(c1: char, c2: char, c3: char, c4: char, c5: char, c6: char,
                     r: nat, g: nat, b: nat)
    requires IsHexDigit(c1) && IsHexDigit(c2) && IsHexDigit(c3)
    requires IsHexDigit(c4) && IsHexDigit(c5) && IsHexDigit(c6)
    requires r == HexDigitValue(c1) * 16 + HexDigitValue(c2)
    requires g == HexDigitValue(c3) * 16 + HexDigitValue(c4)
    requires b == HexDigitValue(c5) * 16 + HexDigitValue(c6)
    ensures DecodeHex(['#', c1, c2, c3, c4, c5, c6]) == Argb(255, r, g, b)
  {
    var text := ['#', c1, c2, c3, c4, c5, c6];
    var hex := [c1, c2, c3, c4, c5, c6];
    HashSixTrim(c1, c2, c3, c4, c5, c6);
    HexValueOfDigits(hex);
    DecodeBytes(text, r, g, b);
  }

  lemma HashSixTrim(c1: char, c2: char, c3: char, c4: char, c5: char, c6: char)
    requires IsHexDigit(c1) && IsHexDigit(c2) && IsHexDigit(c3)
    requires IsHexDigit(c4) && IsHexDigit(c5) && IsHexDigit(c6)
    ensures TrimBy(['#', c1, c2, c3, c4, c5, c6], NotAlphanumeric) == [c1, c2, c3, c4, c5, c6]
    ensures ScanHex([c1, c2, c3, c4, c5, c6]) == HexValue([c1, c2, c3, c4, c5, c6])
  {
    var text := ['#', c1, c2, c3, c4, c5, c6];
    assert text[1..] == [c1, c2, c3, c4, c5, c6];
    TrimFormatted(text);
    ScanAllHex([c1, c2, c3, c4, c5, c6]);
  }

  // ---------------------------------------------------------------------
  // The 12-bit short form.
  // ---------------------------------------------------------------------

  lemma {:induction false} AllHexAlphanumeric(s: string)
    requires AllHex(s)
    ensures TrimBy(s, NotAlphanumeric) == s
  {
    TrimByFixed(s, NotAlphanumeric);
  }

  lemma ScanShort(s: string)
    requires |s| == 3 && AllHex(s)
    ensures ScanHex(s) == (HexDigitValue(s[0]) * 16 + HexDigitValue(s[1])) * 16 + HexDigitValue(s[2])
  {
    LeadingAllHex(s);
    assert s[..3] == s;
    assert HexValue(s[..1]) == HexDigitValue(s[0]) by {
      assert s[..1][..0] == [];
    }
    assert HexValue(s[..2]) == HexDigitValue(s[0]) * 16 + HexDigitValue(s[1]) by {
      assert s[..2][..1] == s[..1];
    }
    assert s[..2] == s[..|s| - 1];
  }

  lemma ShortForm(x: char, y: char, z: char)
    requires IsHexDigit(x) && IsHexDigit(y) && IsHexDigit(z)
    ensures DecodeHex([x, y, z]) == Argb(255, HexDigitValue(x) * 17, HexDigitValue(y) * 17, HexDigitValue(z) * 17)
  {
    var short := [x, y, z];
    AllHexAlphanumeric(short);
    ScanShort(short);
    DecodeThreeDigits(short);
    Nibbles(HexDigitValue(x), HexDigitValue(y), HexDigitValue(z));
  }

  /** Three digits after trimming select the 12-bit branch. */
  lemma DecodeThreeDigits(text: string)
    requires |TrimBy(text, NotAlphanumeric)| == 3
    ensures ScanHex(TrimBy(text, NotAlphanumeric)) < 4096
    ensures DecodeHex(text) == Rgb12(ScanHex(TrimBy(text, NotAlphanumeric)))
  {
    assert Pow16(3) == 4096;
  }

  lemma Nibbles(vx: nat, vy: nat, vz: nat)
    requires vx < 16 && vy < 16 && vz < 16
    ensures (vx * 16 + vy) * 16 + vz < 4096
    ensures Rgb12((vx * 16 + vy) * 16 + vz) == Argb(255, vx * 17, vy * 17, vz * 17)
  {
    var n := (vx * 16 + vy) * 16 + vz;
    assert n / 16 == vx * 16 + vy;
    assert n / 256 == (n / 16) / 16;
  }

  lemma LongForm(x: char, y: char, z: char)
    requires IsHexDigit(x) && IsHexDigit(y) && IsHexDigit(z)
    ensures DecodeHex([x, x, y, y, z, z]) == Argb(255, HexDigitValue(x) * 17, HexDigitValue(y) * 17, HexDigitValue(z) * 17)
  {
    var vx, vy, vz := HexDigitValue(x), HexDigitValue(y), HexDigitValue(z);
    var long := [x, x, y, y, z, z];
    AllHexAlphanumeric(long);
    ScanAllHex(long);
    DoubledValue(x, y, z);
    DecodeSixDigits(long);
    Rgb24Bytes(HexValue(long), vx * 17, vy * 17, vz * 17);
  }

  /** Doubling every digit multiplies each nibble by 17 = 0x11. */
  lemma DoubledValue(x: char, y: char, z: char)
    requires IsHexDigit(x) && IsHexDigit(y) && IsHexDigit(z)
    ensures HexValue([x, x, y, y, z, z])
            == (HexDigitValue(x) * 17) * 65536 + (HexDigitValue(y) * 17) * 256 + HexDigitValue(z) * 17
  {
    var long := [x, x, y, y, z, z];
    HexValueOfDigits(long);
    assert long[0] == x && long[1] == x && long[2] == y && long[3] == y && long[4] == z && long[5] == z;
  }

  // ---------------------------------------------------------------------
  // The 32-bit form: alpha is the top byte.
  // ---------------------------------------------------------------------

  /** "#AARRGGBB", the partner of the 32-bit branch. */
  function FormatArgb(a: nat, r: nat, g: nat, b: nat): (s: string)
    requires a < 256 && r < 256 && g < 256 && b < 256
    ensures |s| == 9 && s[0] == '#' && AllHex(s[1..])
  {
    var hex := HexByte(a) + HexByte(r) + HexByte(g) + HexByte(b);
    assert AllHex(hex);
    "#" + hex
  }

  /** Any colour written with its alpha first decodes to the same four
      channels: the top byte is the alpha, then red, green and blue. */
  lemma {:induction false} DecodeFormatArgb(a: nat, r: nat, g: nat, b: nat)
    requires a < 256 && r < 256 && g < 256 && b < 256
    ensures DecodeHex(FormatArgb(a, r, g, b)) == Argb(a, r, g, b)
  {
    var s := FormatArgb(a, r, g, b);
    var hex := HexByte(a) + HexByte(r) + HexByte(g) + HexByte(b);
    assert s[1..] == hex;
    TrimFormatted(s);
    ScanAllHex(hex);
    ArgbHexValue(a, r, g, b);
    DecodeEightDigits(s);
    Argb32Bytes(HexValue(hex), a, r, g, b);
  }

  /** Eight digits after trimming select the 32-bit branch. */
  lemma DecodeEightDigits(text: string)
    requires |TrimBy(text, NotAlphanumeric)| == 8
    ensures ScanHex(TrimBy(text, NotAlphanumeric)) < 4294967296
    ensures DecodeHex(text) == Argb32(ScanHex(TrimBy(text, NotAlphanumeric)))
  {
    assert Pow16(8) == 4294967296;
  }

  lemma Argb32Bytes(n: nat, a: nat, r: nat, g: nat, b: nat)
    requires a < 256 && r < 256 && g < 256 && b < 256
    requires n == ((a * 256 + r) * 256 + g) * 256 + b
    ensures n < 4294967296
    ensures Argb32(n) == Argb(a, r, g, b)
  {
    var high := (a * 256 + r) * 256 + g;
    ByteSplit(high, b);
    ByteSplit(a * 256 + r, g);
    ByteSplit(a, r);
    assert n / 65536 == (n / 256) / 256;
    assert n / 16777216 == (n / 65536) / 256;
  }

  lemma ByteSplit(q: nat, d: nat)
    requires d < 256
    ensures (q * 256 + d) / 256 == q && (q * 256 + d) % 256 == d
  {
  }

  lemma ArgbHexValue(a: nat, r: nat, g: nat, b: nat)
    requires a < 256 && r < 256 && g < 256 && b < 256
    ensures AllHex(HexByte(a) + HexByte(r) + HexByte(g) + HexByte(b))
    ensures HexValue(HexByte(a) + HexByte(r) + HexByte(g) + HexByte(b)) == ((a * 256 + r) * 256 + g) * 256 + b
  {
    var ha, hr, hg, hb := HexByte(a), HexByte(r), HexByte(g), HexByte(b);
    HexByteValue(a);
    HexByteValue(r);
    HexByteValue(g);
    HexByteValue(b);
    HexValueAppendByte(ha, hr);
    HexValueAppendByte(ha + hr, hg);
    HexValueAppendByte(ha + hr + hg, hb);
  }

  /** Two more digits at the end: the value so far times 256, plus theirs. */
  lemma HexValueAppendByte(s: string, t: string)
    requires AllHex(s) && AllHex(t) && |t| == 2
    ensures AllHex(s + t)
    ensures HexValue(s + t) == HexValue(s) * 256 + HexValue(t)
  {
    var u := s + t;
    assert AllHex(u) by {
      forall i | 0 <= i < |u| ensures IsHexDigit(u[i]) {
        if i >= |s| { assert u[i] == t[i - |s|]; }
      }
    }
    HexValuePrefix(u, |u|);
    HexValuePrefix(u, |u| - 1);
    HexValuePrefix(t, 2);
    HexValuePrefix(t, 1);
    assert u[..|u|] == u && t[..2] == t && t[..0] == [];
    assert u[..|u| - 2] == s;
    assert u[|u| - 1] == t[1] && u[|u| - 2] == t[0];
    assert u[..|u| - 1][..|u| - 2] == s;
  }

  lemma HexByteValue(v: nat)
    requires v < 256
    ensures HexValue(HexByte(v)) == v
  {
    var h := HexByte(v);
    HexValuePrefix(h, 2);
    HexValuePrefix(h, 1);
    assert h[..2] == h && h[..0] == [];
  }

  /** Three hex digits stand for six: each nibble is doubled, so `F` gives
      255, and "#RGB" decodes like "#RRGGBB". */
  lemma ShortFormDoubles(x: char, y: char, z: char)
    requires IsHexDigit(x) && IsHexDigit(y) && IsHexDigit(z)
    ensures DecodeHex([x, y, z]) == Argb(255, HexDigitValue(x) * 17, HexDigitValue(y) * 17, HexDigitValue(z) * 17)
    ensures DecodeHex([x, x, y, y, z, z]) == DecodeHex([x, y, z])
  {
    ShortForm(x, y, z);
    LongForm(x, y, z);
  }
}
