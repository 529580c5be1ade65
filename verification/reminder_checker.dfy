/** The browser's reminder checker. Once a minute every stored reminder
    that is active, scheduled for today and names a known medication is
    classified by the minutes elapsed since its time of day. A notice is
    then shown unless its reminder key was notified less than five minutes
    earlier. The module also covers the day's statistics and the checks of
    the reminder form. The clock is passed in: the weekday, the minute of
    the day, the time in milliseconds and the start of today. */
module ReminderChecker {
  import opened Wrappers
  import opened Text

  /** The fields of a stored medication that the checker reads. */
  datatype Med = Med(id: string, name: string, dose: string)

  /** A stored reminder. `days` holds the weekday numbers the form parsed,
      with 0 for Sunday; `None` stands for a `NaN` from `parseInt`.
      `lastTaken` is the instant, in milliseconds, at which the dose was
      last marked taken. */
  datatype Reminder = Reminder(
    id: string, medId: string, time: string, days: seq<Option<int>>,
    active: bool, lastTaken: Option<int>)

  // ------------------------------------------------------------ lookup

  /** `meds.find(m => m.id === id)` */
  function FindMed(meds: seq<Med>, id: string): (r: Option<Med>)
    ensures r.Some? ==> r.value in meds && r.value.id == id
    ensures r.None? <==> forall i :: 0 <= i < |meds| ==> meds[i].id != id
  {
    if meds == [] then None
    else if meds[0].id == id then Some(meds[0])
    else FindMed(meds[1..], id)
  }

  /** `find` gives the first medication with the id. */
  lemma {:induction false} FindMedFirst(meds: seq<Med>, id: string, i: nat)
    requires i < |meds| && meds[i].id == id
    requires forall j :: 0 <= j < i ==> meds[j].id != id
    ensures FindMed(meds, id) == Some(meds[i])
  {
    if i > 0 {
      FindMedFirst(meds[1..], id, i - 1);
    }
  }

  // ----------------------------------------------------- time of day

  /** `time.split(':').map(Number)` read as `hour * 60 + minute`. The
      result is `None` when either number is `NaN`. With no colon the
      destructured minute is `undefined`, and `hour * 60 + undefined` is
      `NaN`. */
  function ClockMinutes(time: string): (r: Option<int>)
    ensures r.Some? ==> |Split(time, ':')| >= 2
  {
    var parts := Split(time, ':');
    var h := ToNumber(parts[0]);
    var m := if |parts| >= 2 then ToNumber(parts[1]) else None;
    if h.Some? && m.Some? then Some(h.value * 60 + m.value) else None
  }

  /** A time with no colon cannot be read. */
  lemma ClockMinutesNeedsColon(time: string)
    ensures ':' !in time ==> ClockMinutes(time).None?
  {
    if ':' !in time {
      IndexOfExact(time, ':', |time|);
    }
  }

  /** An `HH:MM` time reads back as its minute of the day. */
  lemma ClockMinutesOfText(h: nat, m: nat)
    requires h < 24 && m < 60
    ensures ClockMinutes(TwoDigits(h) + ":" + TwoDigits(m)) == Some(h * 60 + m)
  {
    DigitsLack(TwoDigits(h), ':');
    DigitsLack(TwoDigits(m), ':');
    SplitPair(TwoDigits(h), TwoDigits(m), ':');
    TwoDigitsNumber(h);
    TwoDigitsNumber(m);
    ClockMinutesOfParts(TwoDigits(h) + ":" + TwoDigits(m), TwoDigits(h), TwoDigits(m), h, m);
  }

  /** `Number` reads two digits back as their value. */
  lemma TwoDigitsNumber(n: nat)
    requires n < 100
    ensures ToNumber(TwoDigits(n)) == Some(n)
  {
  }

  /** A time that splits into an hour and a minute that are numbers is
      read as `hour * 60 + minute`. */
  lemma ClockMinutesOfParts(time: string, a: string, b: string, h: int, m: int)
    requires Split(time, ':') == [a, b]
    requires ToNumber(a) == Some(h) && ToNumber(b) == Some(m)
    ensures ClockMinutes(time) == Some(h * 60 + m)
  {
  }

  // --------------------------------------------------- classification

  datatype Urgency = Due | Overdue | VeryOverdue

  /** The minutes since the reminder's time: up to 5 is due, up to 60 is
      overdue, beyond that very overdue; a time still ahead gives nothing.
      The classes do not overlap. */
  function Classify(diff: int): (r: Option<Urgency>)
    ensures r.None? <==> diff < 0
    ensures r == Some(Due) <==> 0 <= diff <= 5
    ensures r == Some(Overdue) <==> 5 < diff <= 60
    ensures r == Some(VeryOverdue) <==> 60 < diff
  {
    if 0 <= diff <= 5 then Some(Due)
    else if 5 < diff <= 60 then Some(Overdue)
    else if diff > 60 then Some(VeryOverdue)
    else None
  }

  /** How pressing a class is: nothing, due, overdue, very overdue. */
  function Rank(u: Option<Urgency>): nat {
    match u
    case None => 0
    case Some(Due) => 1
    case Some(Overdue) => 2
    case Some(VeryOverdue) => 3
  }

  /** The longer a dose waits, the more pressing its class. */
  lemma ClassifyMonotone(d1: int, d2: int)
    requires d1 <= d2
    ensures Rank(Classify(d1)) <= Rank(Classify(d2))
  {
  }

  /** What the check shows for one reminder. */
  datatype Notice = Notice(reminder: Reminder, med: Med, urgency: Urgency)

  /** The check of one reminder on weekday `day` at minute `nowMinutes` of
      the day. It is skipped when inactive, when not scheduled today, when
      its medication is unknown, or when its time cannot be read. */
  function Evaluate(r: Reminder, meds: seq<Med>, day: int, nowMinutes: int): (n: Option<Notice>)
    ensures !r.active || Some(day) !in r.days || FindMed(meds, r.medId).None? ==> n.None?
    ensures n.Some? ==>
      n.value.reminder == r && n.value.med.id == r.medId && n.value.med in meds
      && ClockMinutes(r.time).Some?
      && Classify(nowMinutes - ClockMinutes(r.time).value) == Some(n.value.urgency)
  {
    if !r.active || Some(day) !in r.days then None
    else
      match FindMed(meds, r.medId)
      case None => None
      case Some(med) =>
        match ClockMinutes(r.time)
        case None => None
        case Some(at) =>
          match Classify(nowMinutes - at)
          case None => None
          case Some(u) => Some(Notice(r, med, u))
  }

  /** A reminder that passes every gate is reported exactly when its time
      has come. */
  lemma EvaluateFires(r: Reminder, meds: seq<Med>, day: int, nowMinutes: int)
    requires r.active && Some(day) in r.days && FindMed(meds, r.medId).Some?
    requires ClockMinutes(r.time).Some?
    ensures Evaluate(r, meds, day, nowMinutes).Some? <==> nowMinutes >= ClockMinutes(r.time).value
  {
  }

  /** The notices of one pass of `checkReminders`, in reminder order. */
  function Candidates(reminders: seq<Reminder>, meds: seq<Med>, day: int, nowMinutes: int): (r: seq<Notice>)
    ensures |r| <= |reminders|
    ensures forall x :: x in r ==> x.reminder in reminders && Evaluate(x.reminder, meds, day, nowMinutes) == Some(x)
    ensures forall i :: 0 <= i < |reminders| && Evaluate(reminders[i], meds, day, nowMinutes).Some? ==>
      Evaluate(reminders[i], meds, day, nowMinutes).value in r
  {
    if reminders == [] then []
    else
      var rest := Candidates(reminders[1..], meds, day, nowMinutes);
      assert forall i :: 1 <= i < |reminders| ==> reminders[i] == reminders[1..][i - 1];
      match Evaluate(reminders[0], meds, day, nowMinutes)
      case None => rest
      case Some(n) => [n] + rest
  }

  // ---------------------------------------------------------- cooldown

  /** Five minutes, in milliseconds. */
  const Cooldown := 300000

  /** `${reminder.id}-${reminder.time}` */
  function Key(r: Reminder): string {
    r.id + "-" + r.time
  }

  /** Reminders whose ids hold no dash have distinct keys unless they
      share both id and time. Ids are printed timestamps, so they hold no
      dash. */
  lemma KeyInjective(a: Reminder, b: Reminder)
    requires '-' !in a.id && '-' !in b.id
    requires Key(a) == Key(b)
    ensures a.id == b.id && a.time == b.time
  {
    assert Key(a) == a.id + ("-" + a.time);
    assert Key(b) == b.id + ("-" + b.time);
    SplitFirst(a.id, "-" + a.time, '-');
    SplitFirst(b.id, "-" + b.time, '-');
    assert a.time == Key(a)[|a.id| + 1..];
    assert b.time == Key(b)[|b.id| + 1..];
  }

  /** A notice for `key` is held back while the last one shown for it is
      less than five minutes old. */
  predicate Cooling(last: map<string, int>, key: string, nowMs: int) {
    key in last && nowMs - last[key] < Cooldown
  }

  /** The cooldown of `showReminderNotification`: shown unless cooling,
      and a shown notice records `nowMs` for its key. */
  function Show(last: map<string, int>, key: string, nowMs: int): (r: (bool, map<string, int>))
    ensures r.0 <==> !Cooling(last, key, nowMs)
    ensures r.0 ==> r.1 == last[key := nowMs]
    ensures !r.0 ==> r.1 == last
  {
    if Cooling(last, key, nowMs) then (false, last) else (true, last[key := nowMs])
  }

  /** After a notice at `t`, the next one for its key is shown exactly when
      five minutes or more have passed. A clock set back counts as no time
      passed. */
  lemma CooldownWindow(last: map<string, int>, key: string, t: int, t2: int)
    requires Show(last, key, t).0
    ensures Show(Show(last, key, t).1, key, t2).0 <==> t2 >= t + Cooldown
  {
  }

  /** The keys of a list of notices. */
  function NoticeKeys(notices: seq<Notice>): set<string> {
    set x | x in notices :: Key(x.reminder)
  }

  /** One pass of notifications: the notices shown, in order, and the
      updated times. Afterwards every key of the pass is cooling, shown
      notices record `nowMs`, and keys outside the pass keep their entry. */
  function NotifyAll(notices: seq<Notice>, nowMs: int, last: map<string, int>): (r: (seq<Notice>, map<string, int>))
    ensures |r.0| <= |notices|
    ensures forall x :: x in r.0 ==> x in notices && Key(x.reminder) in r.1 && r.1[Key(x.reminder)] == nowMs
    ensures forall x :: x in notices ==> Cooling(r.1, Key(x.reminder), nowMs)
    ensures forall k :: k !in NoticeKeys(notices) ==> (k in r.1 <==> k in last) && (k in last ==> r.1[k] == last[k])
    ensures forall k :: k in r.1 ==> r.1[k] == nowMs || (k in last && r.1[k] == last[k])
    ensures (forall x :: x in notices ==> Cooling(last, Key(x.reminder), nowMs)) ==> r == ([], last)
  {
    if notices == [] then ([], last)
    else
      var key := Key(notices[0].reminder);
      var (shown, last1) := Show(last, key, nowMs);
      var (rest, last2) := NotifyAll(notices[1..], nowMs, last1);
      assert forall x :: x in notices[1..] ==> x in notices;
      assert NoticeKeys(notices) == {key} + NoticeKeys(notices[1..]);
      (if shown then [notices[0]] + rest else rest, last2)
  }

  /** A second pass at the same instant shows nothing and changes nothing. */
  lemma SecondPassSilent(notices: seq<Notice>, nowMs: int, last: map<string, int>)
    ensures var first := NotifyAll(notices, nowMs, last);
      NotifyAll(notices, nowMs, first.1) == ([], first.1)
  {
  }

  /** `checkReminders` followed by the cooldown: the notices shown and the
      updated times of the last notices. */
  function CheckReminders(reminders: seq<Reminder>, meds: seq<Med>, day: int, nowMinutes: int,
                          nowMs: int, last: map<string, int>): (r: (seq<Notice>, map<string, int>))
    ensures forall x :: x in r.0 ==>
      x.reminder in reminders && Evaluate(x.reminder, meds, day, nowMinutes) == Some(x)
      && Key(x.reminder) in r.1 && r.1[Key(x.reminder)] == nowMs
    ensures forall i :: 0 <= i < |reminders| && Evaluate(reminders[i], meds, day, nowMinutes).Some? ==>
      Cooling(r.1, Key(reminders[i]), nowMs)
  {
    NotifyAll(Candidates(reminders, meds, day, nowMinutes), nowMs, last)
  }

  // ------------------------------------------------------------- stats

  /** A reminder counted today: active, with a known medication, and
      scheduled for weekday `day`. */
  predicate CountsToday(r: Reminder, meds: seq<Med>, day: int) {
    r.active && FindMed(meds, r.medId).Some? && Some(day) in r.days
  }

  /** Marked taken at or after the start of today. */
  predicate TakenToday(r: Reminder, todayMs: int) {
    r.lastTaken.Some? && r.lastTaken.value >= todayMs
  }

  /** Its time today has passed and it was never marked taken. A time
      that cannot be read makes an invalid date, which compares false. */
  predicate LateToday(r: Reminder, todayMs: int, nowMs: int) {
    ClockMinutes(r.time).Some? && nowMs > todayMs + ClockMinutes(r.time).value * 60000 && r.lastTaken.None?
  }

  function Total(rs: seq<Reminder>, meds: seq<Med>, day: int): (n: nat)
    ensures n <= |rs|
  {
    if rs == [] then 0
    else Total(rs[..|rs| - 1], meds, day) + (if CountsToday(rs[|rs| - 1], meds, day) then 1 else 0)
  }

  function Taken(rs: seq<Reminder>, meds: seq<Med>, day: int, todayMs: int): (n: nat)
    ensures n <= Total(rs, meds, day)
  {
    if rs == [] then 0
    else
      var r := rs[|rs| - 1];
      Taken(rs[..|rs| - 1], meds, day, todayMs) + (if CountsToday(r, meds, day) && TakenToday(r, todayMs) then 1 else 0)
  }

  function Late(rs: seq<Reminder>, meds: seq<Med>, day: int, todayMs: int, nowMs: int): (n: nat)
    ensures n <= Total(rs, meds, day)
  {
    if rs == [] then 0
    else
      var r := rs[|rs| - 1];
      Late(rs[..|rs| - 1], meds, day, todayMs, nowMs) + (if CountsToday(r, meds, day) && LateToday(r, todayMs, nowMs) then 1 else 0)
  }

  /** `Math.round((taken / total) * 100)`, or 0 when nothing is counted. */
  function Compliance(taken: nat, total: nat): (c: int)
    requires taken <= total
    ensures 0 <= c <= 100
    ensures total == 0 || taken == 0 ==> c == 0
    ensures total > 0 && taken == total ==> c == 100
    ensures total > 0 ==> 2 * total * c <= 200 * taken + total < 2 * total * (c + 1)
  {
    if total == 0 then 0
    else
      var d := 2 * total;
      var a := 200 * taken + total;
      var c := a / d;
      assert d * c <= a < d * (c + 1) by {
        assert a == d * c + a % d;
      }
      assert c <= 100 by {
        if c > 100 {
          MulAtLeast(d, c, 101);
        }
      }
      assert c >= 0 by {
        if c < 0 {
          MulAtLeast(d, 0, c + 1);
        }
      }
      assert taken == 0 ==> c == 0 by {
        if taken == 0 && c > 0 {
          MulAtLeast(d, c, 1);
        }
      }
      assert taken == total ==> c == 100 by {
        if taken == total && c < 100 {
          MulAtLeast(d, 100, c + 1);
        }
      }
      c
  }

  /** Multiplying by a positive factor keeps order. */
  lemma MulAtLeast(d: int, x: int, y: int)
    requires d > 0 && x >= y
    ensures d * x >= d * y
  {
    assert d * x - d * y == d * (x - y);
  }

  datatype Stats = Stats(total: nat, taken: nat, overdue: nat, compliance: int)

  /** `getReminderStats`: one pass over the stored reminders. */
  method ReminderStats(reminders: seq<Reminder>, meds: seq<Med>, day: int, todayMs: int, nowMs: int)
    returns (s: Stats)
    ensures s.total == Total(reminders, meds, day)
    ensures s.taken == Taken(reminders, meds, day, todayMs)
    ensures s.overdue == Late(reminders, meds, day, todayMs, nowMs)
    ensures s.taken <= s.total && s.overdue <= s.total
    ensures s.compliance == Compliance(s.taken, s.total) && 0 <= s.compliance <= 100
  {
    var total, taken, overdue := 0, 0, 0;
    var i := 0;
    while i < |reminders|
      invariant 0 <= i <= |reminders|
      invariant total == Total(reminders[..i], meds, day)
      invariant taken == Taken(reminders[..i], meds, day, todayMs)
      invariant overdue == Late(reminders[..i], meds, day, todayMs, nowMs)
    {
      var r := reminders[i];
      var next := reminders[..i + 1];
      assert next[..i] == reminders[..i] && next[i] == r;
      if CountsToday(r, meds, day) {
        total := total + 1;
        if TakenToday(r, todayMs) {
          taken := taken + 1;
        }
        if LateToday(r, todayMs, nowMs) {
          overdue := overdue + 1;
        }
      }
      i := i + 1;
    }
    assert reminders[..i] == reminders;
    s := Stats(total, taken, overdue, Compliance(taken, total));
  }

  // -------------------------------------------------------------- form

  const FillAllFieldsError := "Por favor completa todos los campos"
  const PickADayError := "Selecciona al menos un día"

  datatype FormResult = Rejected(message: string) | Saved(reminders: seq<Reminder>)

  /** `parseInt` of each ticked weekday box. */
  function ParseDays(checked: seq<string>): (r: seq<Option<int>>)
    ensures |r| == |checked|
    ensures forall i :: 0 <= i < |checked| ==> r[i] == ParseInt(checked[i])
  {
    if checked == [] then [] else [ParseInt(checked[0])] + ParseDays(checked[1..])
  }

  /** The reminder form: the medication and the time are required, then
      at least one weekday; the new reminder is active, takes the printed
      submission time as its id and goes at the end of the stored list. */
  function SubmitReminder(stored: seq<Reminder>, medId: string, time: string, checked: seq<string>, nowMs: nat)
    : (r: FormResult)
    ensures r == Rejected(FillAllFieldsError) <==> medId == [] || time == []
    ensures r == Rejected(PickADayError) <==> medId != [] && time != [] && checked == []
    ensures r.Saved? ==>
      |r.reminders| == |stored| + 1 && r.reminders[..|stored|] == stored
      && var n := r.reminders[|stored|];
      n.id == NatToString(nowMs) && n.medId == medId && n.time == time && n.active && n.lastTaken.None?
      && |n.days| == |checked| && (forall i :: 0 <= i < |checked| ==> n.days[i] == ParseInt(checked[i]))
  {
    if medId == [] || time == [] then Rejected(FillAllFieldsError)
    else if checked == [] then Rejected(PickADayError)
    else Saved(stored + [Reminder(NatToString(nowMs), medId, time, ParseDays(checked), true, None)])
  }

  /** A reminder just saved from the form is due at its own minute on
      every weekday ticked, once its medication is known. */
  lemma SavedReminderDue(stored: seq<Reminder>, medId: string, time: string, checked: seq<string>,
                         nowMs: nat, meds: seq<Med>, i: nat, day: int, at: int)
    requires medId != [] && time != [] && ClockMinutes(time) == Some(at)
    requires i < |checked| && ParseInt(checked[i]) == Some(day)
    requires FindMed(meds, medId).Some?
    ensures var r := SubmitReminder(stored, medId, time, checked, nowMs);
      r.Saved? && var n := r.reminders[|stored|];
      Evaluate(n, meds, day, at) == Some(Notice(n, FindMed(meds, medId).value, Due))
  {
    var n := Reminder(NatToString(nowMs), medId, time, ParseDays(checked), true, None);
    assert SubmitReminder(stored, medId, time, checked, nowMs) == Saved(stored + [n]);
    assert (stored + [n])[|stored|] == n;
    assert Some(day) in n.days by {
      assert n.days[i] == ParseInt(checked[i]);
    }
    EvaluateDue(n, meds, day, at);
  }

  /** A reminder that passes every gate is due at its own minute. */
  lemma EvaluateDue(r: Reminder, meds: seq<Med>, day: int, at: int)
    requires r.active && Some(day) in r.days && FindMed(meds, r.medId).Some?
    requires ClockMinutes(r.time) == Some(at)
    ensures Evaluate(r, meds, day, at) == Some(Notice(r, FindMed(meds, r.medId).value, Due))
  {
  }
}
