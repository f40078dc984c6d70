/**
 * The `Tasks` view of the home page: which tasks are shown for the
 * selected display mode, and how the remaining time to a task's deadline
 * is written out.
 */
module Tasks {
  import opened Wrappers
  import opened Decimal

  /**
   * A task as the tasks endpoint returns it. `limit` is the deadline,
   * already read as a number of milliseconds since the epoch.
   */
  datatype Task = Task(id: string, title: string, done: bool, limit: int)

  /** The display mode whose view shows the completed tasks. */
  const DoneMode: string := "done"

  // ---------------------------------------------------------------------
  // Filtering

  /**
   * `tasks.filter(task => task.done == done)`: the tasks with the wanted
   * flag, in their order (defined by peeling off the last task).
   */
  function Filter(ts: seq<Task>, done: bool): (r: seq<Task>)
    ensures |r| <= |ts|
  {
    if ts == [] then []
    else
      var last := ts[|ts| - 1];
      Filter(ts[..|ts| - 1], done) + (if last.done == done then [last] else [])
  }

  /** The filter keeps exactly the tasks whose flag is `done`. */
  lemma {:induction false} FilterMembers(ts: seq<Task>, done: bool)
    ensures forall t :: t in Filter(ts, done) <==> t in ts && t.done == done
  {
    if ts != [] {
      var init := ts[..|ts| - 1];
      FilterMembers(init, done);
      assert ts == init + [ts[|ts| - 1]];
    }
  }

  /** The positions, in increasing order, of the tasks whose flag is `done`. */
  function Kept(ts: seq<Task>, done: bool): (ks: seq<nat>)
    ensures |ks| == |Filter(ts, done)|
  {
    if ts == [] then []
    else Kept(ts[..|ts| - 1], done) + (if ts[|ts| - 1].done == done then [|ts| - 1] else [])
  }

  /** The `j`-th task the filter keeps is the input's task at the `j`-th kept position. */
  lemma {:induction false} FilterAt(ts: seq<Task>, done: bool, j: nat)
    requires j < |Kept(ts, done)|
    ensures Kept(ts, done)[j] < |ts| && ts[Kept(ts, done)[j]] == Filter(ts, done)[j]
  {
    var init := ts[..|ts| - 1];
    if j < |Kept(init, done)| {
      FilterAt(init, done, j);
    }
  }

  /**
   * Order preservation: the filter result is the input read at the kept
   * positions, one after the other.
   */
  lemma FilterReadsKept(ts: seq<Task>, done: bool)
    ensures var r, ks := Filter(ts, done), Kept(ts, done);
      && |ks| == |r|
      && forall j :: 0 <= j < |ks| ==> ks[j] < |ts| && ts[ks[j]] == r[j]
  {
    forall j | 0 <= j < |Kept(ts, done)|
      ensures Kept(ts, done)[j] < |ts| && ts[Kept(ts, done)[j]] == Filter(ts, done)[j]
    {
      FilterAt(ts, done, j);
    }
  }

  predicate Increasing(ks: seq<nat>) {
    forall j, k :: 0 <= j < k < |ks| ==> ks[j] < ks[k]
  }

  /** The kept positions are strictly increasing positions of the input. */
  lemma {:induction false} KeptIncreasing(ts: seq<Task>, done: bool)
    ensures Increasing(Kept(ts, done))
    ensures forall j :: 0 <= j < |Kept(ts, done)| ==> Kept(ts, done)[j] < |ts|
  {
    if ts != [] {
      var init := ts[..|ts| - 1];
      KeptIncreasing(init, done);
      var front := Kept(init, done);
      var ks := Kept(ts, done);
      assert ks == front + (if ts[|ts| - 1].done == done then [|ts| - 1] else []);
      forall j | 0 <= j < |ks|
        ensures ks[j] < |ts|
      {
        if j < |front| {
          assert ks[j] == front[j];
        }
      }
    }
  }

  /** The kept positions are exactly those whose task has the wanted flag. */
  lemma {:induction false} KeptExactly(ts: seq<Task>, done: bool)
    ensures forall i :: 0 <= i < |ts| ==> (ts[i].done == done <==> i in Kept(ts, done))
  {
    if ts != [] {
      var init := ts[..|ts| - 1];
      KeptExactly(init, done);
      KeptIncreasing(init, done);
      var front := Kept(init, done);
      var ks := Kept(ts, done);
      assert ks == front + (if ts[|ts| - 1].done == done then [|ts| - 1] else []);
      assert |ts| - 1 !in front;
      forall i | 0 <= i < |ts| - 1
        ensures ts[i].done == done <==> i in ks
      {
        assert ts[i] == init[i];
      }
    }
  }

  /** Every task lands in exactly one of the two filtered views. */
  lemma {:induction false} FilterPartition(ts: seq<Task>)
    ensures multiset(Filter(ts, true)) + multiset(Filter(ts, false)) == multiset(ts)
    ensures |Filter(ts, true)| + |Filter(ts, false)| == |ts|
  {
    if ts != [] {
      var init, last := ts[..|ts| - 1], ts[|ts| - 1];
      FilterPartition(init);
      PartitionStep(init, last, Filter(init, true), Filter(init, false));
      assert ts == init + [last];
    }
  }

  /** Appending one task to the side its flag selects keeps a partition. */
  lemma PartitionStep(init: seq<Task>, last: Task, yes: seq<Task>, no: seq<Task>)
    requires multiset(yes) + multiset(no) == multiset(init)
    ensures var yes', no' := yes + (if last.done then [last] else []), no + (if last.done then [] else [last]);
      multiset(yes') + multiset(no') == multiset(init + [last])
  {
  }

  /**
   * What the `Tasks` component lists: nothing when `tasks` is null, the
   * completed tasks in mode "done", the open tasks in every other mode.
   */
  function VisibleTasks(tasks: Option<seq<Task>>, mode: string): (r: seq<Task>)
    ensures tasks.None? ==> r == []
    ensures forall t :: t in r <==>
      tasks.Some? && t in tasks.value && t.done == (mode == DoneMode)
  {
    match tasks
    case None => []
    case Some(ts) =>
      FilterMembers(ts, true);
      FilterMembers(ts, false);
      if mode == DoneMode then Filter(ts, true) else Filter(ts, false)
  }

  /** The "done" view and any other view split the task list between them. */
  lemma ViewsPartition(ts: seq<Task>, mode: string)
    requires mode != DoneMode
    ensures multiset(VisibleTasks(Some(ts), DoneMode)) + multiset(VisibleTasks(Some(ts), mode))
         == multiset(ts)
    ensures forall t :: t in VisibleTasks(Some(ts), DoneMode) ==> t !in VisibleTasks(Some(ts), mode)
  {
    FilterPartition(ts);
    FilterMembers(ts, true);
    FilterMembers(ts, false);
  }

  // ---------------------------------------------------------------------
  // Remaining time

  const MsPerMinute: nat := 60000
  const MsPerHour: nat := 3600000
  const MsPerDay: nat := 86400000

  /** The label shown for a deadline that is not in the future. */
  const ExpiredLabel: string := "期限切れ"

  /** The time left before a deadline, split into whole units. */
  datatype Remaining = Expired | Left(days: nat, hours: nat, minutes: nat)

  /** Milliseconds covered by a split. */
  function SplitMs(days: nat, hours: nat, minutes: nat): nat {
    days * MsPerDay + hours * MsPerHour + minutes * MsPerMinute
  }

  /** Whole hours and whole days are whole minutes divided by 60 and by 1440. */
  lemma UnitsFromMinutes(diff: nat)
    ensures diff / MsPerHour == diff / MsPerMinute / 60
    ensures diff / MsPerDay == diff / MsPerMinute / 60 / 24
  {
    var m := diff / MsPerMinute;
    var h := m / 60;
    var d := h / 24;
    assert MsPerMinute * m <= diff < MsPerMinute * m + MsPerMinute;
    assert 60 * h <= m < 60 * h + 60;
    assert 24 * d <= h < 24 * d + 24;
    assert MsPerHour * h <= diff < MsPerHour * h + MsPerHour;
    assert MsPerDay * d <= diff < MsPerDay * d + MsPerDay;
  }

  /**
   * `diff` cut into whole days, hours and minutes by integer division: the
   * parts are the floor of `diff` in each unit, reduced modulo the next
   * unit, and `diff` lies within one minute above the time they add up to.
   */
  function RemainingOf(diff: int): (r: Remaining)
    ensures r.Expired? <==> diff <= 0
    ensures r.Left? ==> r.hours < 24 && r.minutes < 60
    ensures r.Left? ==> SplitMs(r.days, r.hours, r.minutes) <= diff
                        < SplitMs(r.days, r.hours, r.minutes) + MsPerMinute
  {
    if diff <= 0 then Expired
    else
      UnitsFromMinutes(diff);
      var m := diff / MsPerMinute;
      assert m / 60 == 24 * (m / 60 / 24) + (m / 60) % 24;
      assert m == 60 * (m / 60) + m % 60;
      Left(diff / MsPerDay, (diff / MsPerHour) % 24, (diff / MsPerMinute) % 60)
  }

  /** Conversely, any split with the same bounds is the one computed. */
  lemma RemainingUnique(diff: int, days: nat, hours: nat, minutes: nat)
    requires diff > 0 && hours < 24 && minutes < 60
    requires SplitMs(days, hours, minutes) <= diff < SplitMs(days, hours, minutes) + MsPerMinute
    ensures RemainingOf(diff) == Left(days, hours, minutes)
  {
    var h := days * 24 + hours;
    var m := h * 60 + minutes;
    assert SplitMs(days, hours, minutes) == MsPerMinute * m;
    assert diff / MsPerMinute == m;
    assert m / 60 == h && m % 60 == minutes;
    assert h / 24 == days && h % 24 == hours;
    UnitsFromMinutes(diff);
  }

  /** The text `remainingDate` builds from a split. */
  function Render(r: Remaining): string
    requires r.Left? ==> r.hours < 24 && r.minutes < 60
  {
    match r
    case Expired => ExpiredLabel
    case Left(d, h, m) => Fields(NatToString(d), ZeroPad2(h), ZeroPad2(m))
  }

  /** Days, hours and minutes text joined with their unit labels. */
  function Fields(ds: string, hs: string, ms: string): string {
    ds + "日 " + hs + "時間 " + ms + "分"
  }

  /** Where each part of the joined text sits. */
  lemma FieldsLayout(ds: string, hs: string, ms: string)
    requires |hs| == 2 && |ms| == 2
    ensures var s, k := Fields(ds, hs, ms), |ds|;
      && |s| == k + 10
      && s[..k] == ds && s[k..k + 2] == "日 " && s[k + 2..k + 4] == hs
      && s[k + 4..k + 7] == "時間 " && s[k + 7..k + 9] == ms && s[k + 9] == '分'
  {
    var s, k := Fields(ds, hs, ms), |ds|;
    assert s == ds + ("日 " + (hs + ("時間 " + (ms + "分"))));
  }

  /**
   * A day field denoting `days` joined with the two-digit hours and
   * minutes: the hour and minute fields are digits, and the three fields
   * read back as the three numbers.
   */
  lemma FieldsReadBack(ds: string, days: int, hours: nat, minutes: nat)
    requires hours < 24 && minutes < 60 && DigitsValue(ds) == days
    ensures var s, k := Fields(ds, ZeroPad2(hours), ZeroPad2(minutes)), |ds|;
      && |s| == k + 10 && s[..k] == ds
      && s[k..k + 2] == "日 " && s[k + 4..k + 7] == "時間 " && s[k + 9] == '分'
      && IsDigit(s[k + 2]) && IsDigit(s[k + 3]) && IsDigit(s[k + 7]) && IsDigit(s[k + 8])
      && DigitsValue(s[..k]) == days
      && DigitsValue(s[k + 2..k + 4]) == hours
      && DigitsValue(s[k + 7..k + 9]) == minutes
  {
    FieldsLayout(ds, ZeroPad2(hours), ZeroPad2(minutes));
  }

  /** The same, for a day field that is a numeral without leading zeros. */
  lemma NumeralFieldsReadBack(ds: string, days: int, hours: nat, minutes: nat)
    requires hours < 24 && minutes < 60 && DigitsValue(ds) == days
    requires |ds| >= 1 && (forall i :: 0 <= i < |ds| ==> IsDigit(ds[i])) && (|ds| > 1 ==> ds[0] != '0')
    ensures var s, k := Fields(ds, ZeroPad2(hours), ZeroPad2(minutes)), |ds|;
      && |s| == k + 10
      && s[k..k + 2] == "日 " && s[k + 4..k + 7] == "時間 " && s[k + 9] == '分'
      && (forall i :: 0 <= i < k ==> IsDigit(s[i])) && (k > 1 ==> s[0] != '0')
      && IsDigit(s[k + 2]) && IsDigit(s[k + 3]) && IsDigit(s[k + 7]) && IsDigit(s[k + 8])
      && DigitsValue(s[..k]) == days
      && DigitsValue(s[k + 2..k + 4]) == hours
      && DigitsValue(s[k + 7..k + 9]) == minutes
  {
    FieldsReadBack(ds, days, hours, minutes);
    var s := Fields(ds, ZeroPad2(hours), ZeroPad2(minutes));
    forall i | 0 <= i < |ds|
      ensures s[i] == ds[i]
    {
      assert s[i] == s[..|ds|][i];
    }
  }

  /** `remainingDate`: the text shown for a deadline, given the current time. */
  function RemainingDate(deadline: int, now: int): (s: string)
    ensures (s == ExpiredLabel) <==> deadline <= now
  {
    var r := RemainingOf(deadline - now);
    assert r.Left? ==> Render(r)[0] == NatToString(r.days)[0];
    Render(r)
  }

  /**
   * The text of a split is the day numeral (digits, no leading zero), "日 ",
   * two hour digits, "時間 ", two minute digits and "分", and its number
   * fields read back as the split.
   */
  lemma RenderReadsBack(r: Remaining)
    requires r.Left? && r.hours < 24 && r.minutes < 60
    ensures var s, k := Render(r), |NatToString(r.days)|;
      && |s| == k + 10
      && s[k..k + 2] == "日 " && s[k + 4..k + 7] == "時間 " && s[k + 9] == '分'
      && (forall i :: 0 <= i < k ==> IsDigit(s[i])) && (k > 1 ==> s[0] != '0')
      && IsDigit(s[k + 2]) && IsDigit(s[k + 3]) && IsDigit(s[k + 7]) && IsDigit(s[k + 8])
      && DigitsValue(s[..k]) == r.days
      && DigitsValue(s[k + 2..k + 4]) == r.hours
      && DigitsValue(s[k + 7..k + 9]) == r.minutes
  {
    NatToStringRoundTrip(r.days);
    NatToStringDigits(r.days);
    NumeralFieldsReadBack(NatToString(r.days), r.days, r.hours, r.minutes);
  }

  /**
   * For a future deadline `remainingDate` writes the split of the time
   * left in that layout, so its fields read back as the days, hours and
   * minutes left.
   */
  lemma RemainingDateReadsBack(deadline: int, now: int)
    requires deadline > now
    ensures var r := RemainingOf(deadline - now);
      var s, k := RemainingDate(deadline, now), |NatToString(r.days)|;
      && r.Left? && |s| == k + 10
      && s[k..k + 2] == "日 " && s[k + 4..k + 7] == "時間 " && s[k + 9] == '分'
      && (forall i :: 0 <= i < k ==> IsDigit(s[i])) && (k > 1 ==> s[0] != '0')
      && IsDigit(s[k + 2]) && IsDigit(s[k + 3]) && IsDigit(s[k + 7]) && IsDigit(s[k + 8])
      && DigitsValue(s[..k]) == r.days
      && DigitsValue(s[k + 2..k + 4]) == r.hours
      && DigitsValue(s[k + 7..k + 9]) == r.minutes
  {
    RenderReadsBack(RemainingOf(deadline - now));
  }

  /** One day, two hours and three minutes ahead reads "1日 02時間 03分". */
  lemma RemainingDateExample(now: int)
    ensures RemainingDate(now + MsPerDay + 2 * MsPerHour + 3 * MsPerMinute, now)
         == "1日 02時間 03分"
  {
    RemainingUnique(MsPerDay + 2 * MsPerHour + 3 * MsPerMinute, 1, 2, 3);
  }
}
