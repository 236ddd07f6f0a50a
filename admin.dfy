/** The administrator's dashboard merge and account updates. The dashboard
    reports a count per weekday, Sunday to Saturday, taken from a grouped
    query whose rows are named after the day; days the query misses count
    0. The account updates change one field of a user found by id and do
    nothing for an unknown id. */
module Admin {
  import opened Common
  import opened Users

  /** A query row or a dashboard entry: a day name and a count. */
  datatype DayCount = DayCount(id: string, count: int)

  const WeekDays: seq<string> := ["Sunday", "Monday", "Tuesday", "Wednesday", "Thursday", "Friday", "Saturday"]

  /** The count of the first row named `day`, or 0 when there is none. */
  function CountFor(rows: seq<DayCount>, day: string): (n: int)
    ensures (forall i :: 0 <= i < |rows| ==> rows[i].id != day) ==> n == 0
    ensures (exists i :: 0 <= i < |rows| && rows[i].id == day) ==>
              exists i :: 0 <= i < |rows| && rows[i].id == day && n == rows[i].count
                          && forall j :: 0 <= j < i ==> rows[j].id != day
  {
    var k := DayIndex(rows, day);
    if k < 0 then 0 else rows[k].count
  }

  /** The position of the first row named `day`, or -1. */
  function DayIndex(rows: seq<DayCount>, day: string): (k: int)
    ensures -1 <= k < |rows|
    ensures k >= 0 ==> rows[k].id == day && forall j :: 0 <= j < k ==> rows[j].id != day
    ensures k < 0 ==> forall j :: 0 <= j < |rows| ==> rows[j].id != day
  {
    FirstWhere(rows, (r: DayCount) => r.id == day)
  }

  /** Rows named after no weekday play no part: dropping them leaves every
      day's count as it was. */
  lemma {:induction false} OtherRowsIgnored(rows: seq<DayCount>, d: nat)
    requires d < 7
    ensures CountFor(Filter(rows, (r: DayCount) => r.id in WeekDays), WeekDays[d]) == CountFor(rows, WeekDays[d])
  {
    FilterKeepsCount(rows, (r: DayCount) => r.id in WeekDays, WeekDays[d]);
  }

  /** Dropping rows of other names leaves a day's count as it was. */
  lemma {:induction false} FilterKeepsCount(rows: seq<DayCount>, p: DayCount -> bool, day: string)
    requires forall r: DayCount :: r.id == day ==> p(r)
    ensures CountFor(Filter(rows, p), day) == CountFor(rows, day)
  {
    var k := DayIndex(rows, day);
    if k >= 0 {
      FilterKeepsFirst(rows, p, day, k);
    } else {
      NoneNamedKept(rows, p, day);
    }
  }

  /** Filtering keeps the first row with a kept name first among the rows with that name. */
  lemma {:induction false} FilterKeepsFirst(rows: seq<DayCount>, p: DayCount -> bool, day: string, i: nat)
    requires i < |rows| && rows[i].id == day && p(rows[i])
    requires forall j :: 0 <= j < i ==> rows[j].id != day
    ensures DayIndex(Filter(rows, p), day) >= 0 && Filter(rows, p)[DayIndex(Filter(rows, p), day)] == rows[i]
  {
    var n := |rows|;
    var init := rows[..n - 1];
    var prefix := Filter(init, p);
    var tail := if p(rows[n - 1]) then [rows[n - 1]] else [];
    assert Filter(rows, p) == prefix + tail;
    if i < n - 1 {
      assert init[i] == rows[i];
      FilterKeepsFirst(init, p, day, i);
      DayIndexExtend(prefix, tail, day);
    } else {
      NoneNamedKept(init, p, day);
      DayIndexExtend(prefix, tail, day);
    }
  }

  /** Rows added after the first row named `day` do not move it; added after
      rows of other names, the first of them named `day` is found. */
  lemma {:induction false} DayIndexExtend(xs: seq<DayCount>, ys: seq<DayCount>, day: string)
    ensures DayIndex(xs, day) >= 0 ==> DayIndex(xs + ys, day) == DayIndex(xs, day)
    ensures DayIndex(xs, day) < 0 && |ys| > 0 && ys[0].id == day ==> DayIndex(xs + ys, day) == |xs|
  {
    var all := xs + ys;
    var m := DayIndex(xs, day);
    if m >= 0 {
      assert all[m] == xs[m];
    } else if |ys| > 0 && ys[0].id == day {
      assert all[|xs|] == ys[0];
    }
  }

  /** Filtering rows none of which is named `day` keeps none named `day`. */
  lemma {:induction false} NoneNamedKept(rows: seq<DayCount>, p: DayCount -> bool, day: string)
    requires forall j :: 0 <= j < |rows| ==> rows[j].id != day
    ensures forall j :: 0 <= j < |Filter(rows, p)| ==> Filter(rows, p)[j].id != day
  {
    var kept := Filter(rows, p);
    forall j | 0 <= j < |kept|
      ensures kept[j].id != day
    {
      assert kept[j] in rows;
    }
  }

  /** A later row for a day already present does not change its count: the first row wins. */
  lemma {:induction false} FirstRowWins(rows: seq<DayCount>, more: seq<DayCount>, day: string)
    requires exists i :: 0 <= i < |rows| && rows[i].id == day
    ensures CountFor(rows + more, day) == CountFor(rows, day)
  {
    DayIndexExtend(rows, more, day);
    var all := rows + more;
    assert all[DayIndex(rows, day)] == rows[DayIndex(rows, day)];
  }

  /** The merge: seven entries, Sunday to Saturday, each starting at 0 and
      then overwritten by the count of the first query row for its day. */
  method MergeWeek(rows: seq<DayCount>) returns (week: seq<DayCount>)
    ensures |week| == 7
    ensures forall d :: 0 <= d < 7 ==> week[d] == DayCount(WeekDays[d], CountFor(rows, WeekDays[d]))
  {
    var days := new DayCount[7](d requires 0 <= d < 7 => DayCount(WeekDays[d], 0));
    SetCounts(days, rows);
    week := days[..];
  }

  /** The update of the default entries, at 0, one at a time: each entry
      takes the count of the first row with its name, and stays at 0 when
      there is none. */
  method SetCounts(days: array<DayCount>, rows: seq<DayCount>)
    requires forall d :: 0 <= d < days.Length ==> days[d].count == 0
    modifies days
    ensures forall d :: 0 <= d < days.Length ==> days[d] == DayCount(old(days[d].id), CountFor(rows, old(days[d].id)))
  {
    for d := 0 to days.Length
      invariant forall e :: 0 <= e < d ==> days[e] == DayCount(old(days[e].id), CountFor(rows, old(days[e].id)))
      invariant forall e :: d <= e < days.Length ==> days[e] == old(days[e])
    {
      var day := days[d].id;
      var k := DayIndex(rows, day);
      if k >= 0 {
        days[d] := days[d].(count := rows[k].count);
      }
    }
  }

  /** The weekly test and classroom counts of the dashboard, merged by the same rule. */
  method Dashboard(testRows: seq<DayCount>, classroomRows: seq<DayCount>)
    returns (tests: seq<DayCount>, classrooms: seq<DayCount>)
    ensures |tests| == 7 && |classrooms| == 7
    ensures forall d :: 0 <= d < 7 ==>
              tests[d] == DayCount(WeekDays[d], CountFor(testRows, WeekDays[d]))
              && classrooms[d] == DayCount(WeekDays[d], CountFor(classroomRows, WeekDays[d]))
  {
    tests := MergeWeek(testRows);
    classrooms := MergeWeek(classroomRows);
  }

  // ---------------------------------------------------------------------------
  // Account updates
  // ---------------------------------------------------------------------------

  /** changeRole: the first user with the id gets the role; nothing else
      changes, and an unknown id changes nothing. */
  function RoleChanged(users: seq<UserRecord>, id: string, role: Role): (r: seq<UserRecord>)
    ensures |r| == |users|
    ensures UserIndex(users, id) < 0 ==> r == users
    ensures forall j :: 0 <= j < |users| && j != UserIndex(users, id) ==> r[j] == users[j]
    ensures UserIndex(users, id) >= 0 ==> r[UserIndex(users, id)] == users[UserIndex(users, id)].(role := role)
  {
    var k := UserIndex(users, id);
    if k < 0 then users else users[k := users[k].(role := role)]
  }

  /** deleteAccount: the first user with the id is marked BLOCKED and kept;
      an unknown id changes nothing. */
  function AccountBlocked(users: seq<UserRecord>, id: string): (r: seq<UserRecord>)
    ensures |r| == |users|
    ensures UserIndex(users, id) < 0 ==> r == users
    ensures forall j :: 0 <= j < |users| && j != UserIndex(users, id) ==> r[j] == users[j]
    ensures UserIndex(users, id) >= 0 ==> r[UserIndex(users, id)] == users[UserIndex(users, id)].(status := Some(Blocked))
  {
    var k := UserIndex(users, id);
    if k < 0 then users else users[k := users[k].(status := Some(Blocked))]
  }

  /** Blocking an account keeps it findable by its id, with every field but
      the status as it was; blocking twice is blocking once. */
  lemma BlockingKeepsAccount(users: seq<UserRecord>, id: string)
    requires UserIndex(users, id) >= 0
    ensures var k := UserIndex(users, id);
            UserIndex(AccountBlocked(users, id), id) == k
            && AccountBlocked(users, id)[k].status == Some(Blocked)
            && AccountBlocked(users, id)[k].(status := users[k].status) == users[k]
            && AccountBlocked(AccountBlocked(users, id), id) == AccountBlocked(users, id)
  {
    var k := UserIndex(users, id);
    var once := AccountBlocked(users, id);
    assert UserIndex(once, id) == k by {
      assert once[k].id == id;
    }
  }

  class AdminService {
    var users: seq<UserRecord>

    constructor(users: seq<UserRecord>)
      ensures this.users == users
    {
      this.users := users;
    }

    method ChangeRole(userId: string, role: Role)
      modifies this
      ensures users == RoleChanged(old(users), userId, role)
    {
      var k := UserIndex(users, userId);
      if k >= 0 {
        users := users[k := users[k].(role := role)];
      }
    }

    method DeleteAccount(userId: string)
      modifies this
      ensures users == AccountBlocked(old(users), userId)
    {
      var k := UserIndex(users, userId);
      if k >= 0 {
        users := users[k := users[k].(status := Some(Blocked))];
      }
    }
  }
}
