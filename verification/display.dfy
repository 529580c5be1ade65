/** The browser's display rules: the 12-hour clock, the expiry mark of a
    medication, the status badge of a goal with its deadline text, and the
    completion toggle of a stored goal. Day counts and the current time
    come in as arguments. */
module Display {
  import opened Wrappers
  import opened Text

  // ------------------------------------------------------ 12-hour clock

  /** JavaScript's integer quotient: `Math.trunc(a / n)`. */
  function JsQuot(a: int, n: int): int
    requires n > 0
  {
    if a >= 0 then a / n else -((-a) / n)
  }

  /** JavaScript's `%`: the remainder of the quotient truncated toward
      zero, so it keeps the sign of the dividend. */
  function JsRem(a: int, n: int): (r: int)
    requires n > 0
    ensures a == n * JsQuot(a, n) + r
    ensures -n < r < n
    ensures a >= 0 ==> r >= 0
    ensures a <= 0 ==> r <= 0
  {
    if a >= 0 then a % n
    else
      var q := (-a) / n;
      assert -a == n * q + (-a) % n;
      assert n * -q == -(n * q);
      -((-a) % n)
  }

  /** The hour shown on a 12-hour clock: `h % 12`, with 0 shown as 12. */
  function Hour12(h: int): (r: int)
    ensures h >= 0 ==> 1 <= r <= 12 && r % 12 == h % 12
  {
    var x := JsRem(h, 12);
    if x == 0 then 12 else x
  }

  /** `formatTimeToAMPM`: an absent or empty time shows as `-`. Otherwise
      the hour before the first colon is read with `parseInt` and shown on
      a 12-hour clock. The minute text after it is copied unchanged, and
      `AM` or `PM` follows. A missing minute prints `undefined` and an
      unreadable hour prints `NaN`, as JavaScript's template strings do. */
  function FormatTimeToAMPM(time: Option<string>): (r: string)
    ensures time.None? || time == Some([]) ==> r == "-"
    ensures time.Some? && time.value != [] ==> |r| >= 5
  {
    if time.None? || time.value == [] then "-"
    else
      var parts := Split(time.value, ':');
      var minute := if |parts| >= 2 then parts[1] else "undefined";
      match ParseInt(parts[0])
      case None => "NaN:" + minute + " AM"
      case Some(h) => IntToString(Hour12(h)) + ":" + minute + (if h >= 12 then " PM" else " AM")
  }

  /** The suffix of a 24-hour clock hour. */
  function Half(h: int): string {
    if h >= 12 then " PM" else " AM"
  }

  /** The 12-hour text of hour `h` and minute `m`. */
  function ClockText(h: nat, m: nat): string
    requires h < 24 && m < 60
  {
    NatToString(Hour12(h)) + ":" + TwoDigits(m) + Half(h)
  }

  /** A time whose hour part reads as `h` shows as the 12-hour text of
      `h`, followed by its minute part unchanged. */
  lemma FormatOfParts(t: string, hh: string, mm: string, h: nat)
    requires t != [] && Split(t, ':') == [hh, mm] && ParseInt(hh) == Some(h)
    ensures FormatTimeToAMPM(Some(t)) == NatToString(Hour12(h)) + ":" + mm + Half(h)
  {
    IntToStringOfNat(Hour12(h));
  }

  /** How an `HH:MM` time from a time input is shown. */
  lemma FormatClock(h: nat, m: nat)
    requires h < 24 && m < 60
    ensures FormatTimeToAMPM(Some(TwoDigits(h) + ":" + TwoDigits(m))) == ClockText(h, m)
  {
    var hh, mm := TwoDigits(h), TwoDigits(m);
    assert Split(hh + ":" + mm, ':') == [hh, mm] by {
      DigitsLack(hh, ':');
      DigitsLack(mm, ':');
      SplitPair(hh, mm, ':');
    }
    assert ParseInt(hh) == Some(h) by {
      ParseIntOfDigits(hh, []);
      assert hh + [] == hh;
    }
    FormatOfParts(hh + ":" + mm, hh, mm, h);
  }

  /** Midnight is 12 AM, noon is 12 PM, one o'clock in the afternoon is
      1 PM. */
  lemma FormatClockLandmarks(m: nat)
    requires m < 60
    ensures FormatTimeToAMPM(Some(TwoDigits(0) + ":" + TwoDigits(m))) == "12:" + TwoDigits(m) + " AM"
    ensures FormatTimeToAMPM(Some(TwoDigits(12) + ":" + TwoDigits(m))) == "12:" + TwoDigits(m) + " PM"
    ensures FormatTimeToAMPM(Some(TwoDigits(13) + ":" + TwoDigits(m))) == "1:" + TwoDigits(m) + " PM"
  {
    FormatClock(0, m);
    FormatClock(12, m);
    FormatClock(13, m);
    ClockLandmarks(m);
  }

  lemma ClockLandmarks(m: nat)
    requires m < 60
    ensures ClockText(0, m) == "12:" + TwoDigits(m) + " AM"
    ensures ClockText(12, m) == "12:" + TwoDigits(m) + " PM"
    ensures ClockText(13, m) == "1:" + TwoDigits(m) + " PM"
  {
    assert NatToString(12) == "12" && NatToString(1) == "1";
    assert Hour12(0) == 12 && Hour12(12) == 12 && Hour12(13) == 1;
  }

  /** The 12-hour text of a time of day names it uniquely: different times
      show differently. */
  lemma FormatClockInjective(h1: nat, m1: nat, h2: nat, m2: nat)
    requires h1 < 24 && m1 < 60 && h2 < 24 && m2 < 60
    requires FormatTimeToAMPM(Some(TwoDigits(h1) + ":" + TwoDigits(m1)))
          == FormatTimeToAMPM(Some(TwoDigits(h2) + ":" + TwoDigits(m2)))
    ensures h1 == h2 && m1 == m2
  {
    FormatClock(h1, m1);
    FormatClock(h2, m2);
    ClockTextInjective(h1, m1, h2, m2);
  }

  lemma ClockTextInjective(h1: nat, m1: nat, h2: nat, m2: nat)
    requires h1 < 24 && m1 < 60 && h2 < 24 && m2 < 60
    requires ClockText(h1, m1) == ClockText(h2, m2)
    ensures h1 == h2 && m1 == m2
  {
    ClockTextShape(h1, m1);
    ClockTextShape(h2, m2);
    PrefixBeforeColon(NatToString(Hour12(h1)), ":" + (TwoDigits(m1) + Half(h1)),
                      NatToString(Hour12(h2)), ":" + (TwoDigits(m2) + Half(h2)));
    NatToStringInjective(Hour12(h1), Hour12(h2));
    MinuteAndHalf(h1, m1, h2, m2);
    HourFromFace(h1, h2);
  }

  /** The clock text is a colon-free hour, then a colon and the rest. */
  lemma ClockTextShape(h: nat, m: nat)
    requires h < 24 && m < 60
    ensures ClockText(h, m) == NatToString(Hour12(h)) + (":" + (TwoDigits(m) + Half(h)))
    ensures ':' !in NatToString(Hour12(h))
  {
    DigitsLack(NatToString(Hour12(h)), ':');
  }

  /** What follows the colon gives back the minute and the half of the
      day. */
  lemma MinuteAndHalf(h1: nat, m1: nat, h2: nat, m2: nat)
    requires h1 < 24 && m1 < 60 && h2 < 24 && m2 < 60
    requires ":" + (TwoDigits(m1) + Half(h1)) == ":" + (TwoDigits(m2) + Half(h2))
    ensures m1 == m2 && Half(h1) == Half(h2)
  {
    var t1, t2 := ":" + (TwoDigits(m1) + Half(h1)), ":" + (TwoDigits(m2) + Half(h2));
    assert TwoDigits(m1) == t1[1..3] == t2[1..3] == TwoDigits(m2);
    assert Half(h1) == t1[3..] == t2[3..] == Half(h2);
  }

  /** Two texts that agree and each put a colon right after a colon-free
      prefix agree on the prefix. */
  lemma PrefixBeforeColon(x1: string, t1: string, x2: string, t2: string)
    requires ':' !in x1 && ':' !in x2
    requires t1 != [] && t1[0] == ':' && t2 != [] && t2[0] == ':'
    requires x1 + t1 == x2 + t2
    ensures x1 == x2 && t1 == t2
  {
    SplitFirst(x1, t1, ':');
    SplitFirst(x2, t2, ':');
    assert t1 == (x1 + t1)[|x1|..];
    assert t2 == (x2 + t2)[|x2|..];
  }

  /** The clock-face hour and the half of the day give back the hour. */
  lemma HourFromFace(h1: nat, h2: nat)
    requires h1 < 24 && h2 < 24
    requires Hour12(h1) == Hour12(h2) && Half(h1) == Half(h2)
    ensures h1 == h2
  {
  }

  // ------------------------------------------------------------ expiry

  /** The mark on a medication in the list. */
  datatype ExpiryMark = Unmarked | Warning | Expired

  /** The list's class for `daysToExpiry`: expired in the past, a warning
      within a week, nothing otherwise. `None` is a missing or unreadable
      date (`null` or `NaN`), which is never marked. */
  function ExpiryClass(days: Option<int>): (r: ExpiryMark)
    ensures r == Expired <==> days.Some? && days.value < 0
    ensures r == Warning <==> days.Some? && 0 <= days.value <= 7
  {
    match days
    case None => Unmarked
    case Some(d) => if d < 0 then Expired else if d <= 7 then Warning else Unmarked
  }

  function Severity(m: ExpiryMark): nat {
    match m
    case Unmarked => 0
    case Warning => 1
    case Expired => 2
  }

  /** The closer the expiry date, the stronger the mark. */
  lemma ExpiryMonotone(d1: int, d2: int)
    requires d1 <= d2
    ensures Severity(ExpiryClass(Some(d1))) >= Severity(ExpiryClass(Some(d2)))
  {
  }

  // ------------------------------------------------------------- goals

  /** The four strings `getGoalStatus` returns. */
  datatype GoalBadge = GoalBadge(cssClass: string, status: string, text: string, deadlineClass: string)

  const CompletedBadge := GoalBadge("completed", "completed", "Completada", "")
  const PendingBadge := GoalBadge("", "pending", "Pendiente", "")
  const OverdueBadge := GoalBadge("overdue", "overdue", "Vencida", "overdue")
  const UrgentBadge := GoalBadge("urgent", "pending", "Urgente", "urgent")

  /** `getGoalStatus`, given the day count `getDaysUntilDeadline` computed
      for the deadline; `None` is the `NaN` of an unreadable date. A
      completed goal is completed whatever its deadline; a missing deadline
      or count leaves it pending; otherwise it is overdue in the past,
      urgent within three days and pending after. */
  function GoalStatus(completed: bool, deadline: Option<string>, days: Option<int>): (r: GoalBadge)
    ensures r in {CompletedBadge, PendingBadge, OverdueBadge, UrgentBadge}
    ensures r == CompletedBadge <==> completed
    ensures r == OverdueBadge <==> !completed && deadline.Some? && deadline.value != [] && days.Some? && days.value < 0
    ensures r == UrgentBadge <==>
      !completed && deadline.Some? && deadline.value != [] && days.Some? && 0 <= days.value <= 3
  {
    if completed then CompletedBadge
    else if deadline.None? || deadline.value == [] then PendingBadge
    else
      match days
      case None => PendingBadge
      case Some(d) => if d < 0 then OverdueBadge else if d <= 3 then UrgentBadge else PendingBadge
  }

  /** `formatDaysUntilDeadline` */
  function FormatDaysUntilDeadline(days: int): (r: string)
    ensures r != []
  {
    if days < 0 then NatToString(-days) + " días vencida"
    else if days == 0 then "Vence hoy"
    else if days == 1 then "Vence mañana"
    else NatToString(days) + " días restantes"
  }

  /** The deadline text names the day count uniquely. */
  lemma {:induction false} FormatDaysInjective(d1: int, d2: int)
    requires FormatDaysUntilDeadline(d1) == FormatDaysUntilDeadline(d2)
    ensures d1 == d2
  {
    var r := FormatDaysUntilDeadline(d1);
    if d1 < 0 || d1 >= 2 {
      var n1: nat := if d1 < 0 then -d1 else d1;
      assert IsDigit(r[0]);
      assert r[|r| - 1] == (if d1 < 0 then 'a' else 's');
      assert d2 < 0 || d2 >= 2;
      var n2: nat := if d2 < 0 then -d2 else d2;
      assert (d1 < 0) == (d2 < 0);
      var tail := if d1 < 0 then " días vencida" else " días restantes";
      assert NatToString(n1) + tail == NatToString(n2) + tail;
      assert NatToString(n1) == r[..|r| - |tail|] == NatToString(n2);
      NatToStringInjective(n1, n2);
    } else {
      assert !IsDigit(r[0]);
    }
  }

  /** An open goal with a deadline is overdue exactly when its deadline
      text says how many days it is past due, and urgent when the text says
      it is due today or tomorrow. */
  lemma BadgeMatchesDeadlineText(deadline: string, d: int)
    requires deadline != []
    ensures GoalStatus(false, Some(deadline), Some(d)) == OverdueBadge <==>
      FormatDaysUntilDeadline(d) == NatToString(if d < 0 then -d else 0) + " días vencida"
    ensures FormatDaysUntilDeadline(d) in {"Vence hoy", "Vence mañana"} ==>
      GoalStatus(false, Some(deadline), Some(d)) == UrgentBadge
  {
    if d >= 0 {
      var r := FormatDaysUntilDeadline(d);
      if d >= 2 {
        assert r[|r| - 1] == 's';
      } else {
        assert !IsDigit(r[0]);
      }
      assert r != NatToString(0) + " días vencida";
    }
  }

  /** A goal in the browser store. */
  datatype Goal = Goal(
    id: string, title: string, description: string, deadline: Option<string>,
    completed: bool, completedAt: Option<string>, createdAt: string)

  /** The goal has a completion time exactly when it is completed. */
  predicate Consistent(g: Goal) {
    g.completed <==> g.completedAt.Some?
  }

  /** `goals.findIndex(g => g.id === id)`, with `|goals|` for -1. */
  function FindGoal(goals: seq<Goal>, id: string): (k: nat)
    ensures k <= |goals|
    ensures k < |goals| ==> goals[k].id == id
    ensures forall j :: 0 <= j < k ==> goals[j].id != id
  {
    if goals == [] then 0
    else if goals[0].id == id then 0
    else 1 + FindGoal(goals[1..], id)
  }

  /** `toggleGoalCompletion`: `None` when no goal has the id (nothing is
      saved). Otherwise the first goal with the id flips its `completed`
      flag, gains the time `nowIso` when it becomes completed and loses its
      completion time when it does not; every other goal, and every other
      field, stays as it was. */
  function ToggleGoalCompletion(goals: seq<Goal>, id: string, nowIso: string): (r: Option<seq<Goal>>)
    ensures r.None? <==> forall j :: 0 <= j < |goals| ==> goals[j].id != id
    ensures r.Some? ==>
      var k := FindGoal(goals, id);
      k < |goals| && |r.value| == |goals|
      && (forall j :: 0 <= j < |goals| && j != k ==> r.value[j] == goals[j])
      && r.value[k].completed == !goals[k].completed
      && Consistent(r.value[k])
      && (r.value[k].completed ==> r.value[k].completedAt == Some(nowIso))
      && r.value[k].(completed := goals[k].completed, completedAt := goals[k].completedAt) == goals[k]
  {
    var k := FindGoal(goals, id);
    if k == |goals| then None
    else
      var g := goals[k];
      var flipped := !g.completed;
      Some(goals[k := g.(completed := flipped, completedAt := if flipped then Some(nowIso) else None)])
  }

  /** Toggling keeps every goal's completion time in step with its flag. */
  lemma ToggleKeepsConsistent(goals: seq<Goal>, id: string, nowIso: string)
    requires forall j :: 0 <= j < |goals| ==> Consistent(goals[j])
    ensures var r := ToggleGoalCompletion(goals, id, nowIso);
      r.Some? ==> forall j :: 0 <= j < |r.value| ==> Consistent(r.value[j])
  {
  }

  /** Toggling a pending goal twice gives back the list as it was. */
  lemma ToggleTwice(goals: seq<Goal>, id: string, t1: string, t2: string)
    requires ToggleGoalCompletion(goals, id, t1).Some?
    requires !goals[FindGoal(goals, id)].completed && Consistent(goals[FindGoal(goals, id)])
    ensures var once := ToggleGoalCompletion(goals, id, t1).value;
      ToggleGoalCompletion(once, id, t2) == Some(goals)
  {
    var k := FindGoal(goals, id);
    var once := ToggleGoalCompletion(goals, id, t1).value;
    assert forall j :: 0 <= j <= k ==> once[j].id == goals[j].id;
    FindGoalAt(once, id, k);
    var twice := ToggleGoalCompletion(once, id, t2).value;
    assert twice[k] == goals[k];
    assert twice == goals;
  }

  /** `findIndex` answers `k` when the goal at `k` is the first with the
      id. */
  lemma {:induction false} FindGoalAt(goals: seq<Goal>, id: string, k: nat)
    requires k < |goals| && goals[k].id == id
    requires forall j :: 0 <= j < k ==> goals[j].id != id
    ensures FindGoal(goals, id) == k
  {
    if k > 0 {
      FindGoalAt(goals[1..], id, k - 1);
    }
  }
}
