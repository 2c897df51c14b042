/**
 * The decision logic of the stale-record cleanup service (cleanup_service.py):
 * choosing an ODBC driver, the missing-variable check before connecting, the
 * rule that selects attendance rows left open for too long, the automatic
 * TimeOut taken from the employee's shift plan, the pass that closes the
 * selected rows, and the time of the next run.
 *
 * Times are whole seconds on the naive local clock that `datetime.now()`
 * reads; the calendar date of a time `t` is `t / 86400`.
 */
module Cleanup {
  import opened Wrappers
  import opened Text

  // ---------------------------------------------------------------------------
  // Settings
  // ---------------------------------------------------------------------------

  const SecondsPerDay := 86400
  const SecondsPerHour := 3600

  // ---------------------------------------------------------------------------
  // Choosing the ODBC driver (_choose_sql_driver)
  // ---------------------------------------------------------------------------

  /** The drivers tried after the configured one, best first. */
  const FixedDrivers: seq<string> := [
    "ODBC Driver 18 for SQL Server",
    "ODBC Driver 17 for SQL Server",
    "ODBC Driver 13 for SQL Server",
    "SQL Server Native Client 11.0",
    "SQL Server"
  ]

  /** Python truthiness of an optional string: set and not empty. */
  predicate IsSet(v: Option<string>)
  {
    v.Some? && v.value != ""
  }

  /** The installed driver names that are neither empty nor blank, in installed order. */
  function Available(installed: seq<string>): (r: seq<string>)
    ensures forall d :: d in r <==> d in installed && Strip(d) != ""
    ensures |r| <= |installed|
  {
    if installed == [] then []
    else
      var d := installed[0];
      var rest := Available(installed[1..]);
      assert forall x :: x in installed <==> x == d || x in installed[1..];
      if d != "" && Strip(d) != "" then [d] + rest else rest
  }

  /** The first of `preferred` that is in `available`, or None. */
  function FirstAvailable(preferred: seq<string>, available: seq<string>): (r: Option<string>)
    ensures r.Some? ==> r.value in preferred && r.value in available
    ensures r.None? <==> forall d :: d in preferred ==> d !in available
  {
    if preferred == [] then None
    else if preferred[0] in available then Some(preferred[0])
    else
      assert forall x :: x in preferred <==> x == preferred[0] || x in preferred[1..];
      FirstAvailable(preferred[1..], available)
  }

  /** A first-match search skips a prefix none of whose entries is available. */
  lemma {:induction false} FirstAvailableSkips(skipped: seq<string>, rest: seq<string>, available: seq<string>)
    requires forall d :: d in skipped ==> d !in available
    ensures FirstAvailable(skipped + rest, available) == FirstAvailable(rest, available)
  {
    if skipped != [] {
      assert skipped[0] in skipped && (skipped + rest)[0] == skipped[0];
      assert (skipped + rest)[1..] == skipped[1..] + rest;
      assert forall d :: d in skipped[1..] ==> d in skipped;
      FirstAvailableSkips(skipped[1..], rest, available);
    } else {
      assert skipped + rest == rest;
    }
  }

  /** A first-match search stops inside a prefix that has an available entry. */
  lemma {:induction false} FirstAvailableStops(front: seq<string>, rest: seq<string>, available: seq<string>)
    requires exists d :: d in front && d in available
    ensures FirstAvailable(front + rest, available) == FirstAvailable(front, available)
  {
    assert (front + rest)[0] == front[0];
    if front[0] !in available {
      assert (front + rest)[1..] == front[1..] + rest;
      assert forall d :: d in front ==> d == front[0] || d in front[1..];
      FirstAvailableStops(front[1..], rest, available);
    }
  }

  /** The search order: the configured driver first when it is set, then the fixed list. */
  function Preferred(envDriver: Option<string>): seq<string>
  {
    (if IsSet(envDriver) then [envDriver.value] else []) + FixedDrivers
  }

  /** `_choose_sql_driver(env_driver)` over the names `pyodbc.drivers()` reports. */
  function ChooseSqlDriver(envDriver: Option<string>, installed: seq<string>): (r: Option<string>)
    ensures r.Some? ==> r.value in installed && Strip(r.value) != ""
    ensures r.None? <==> forall d :: d in Preferred(envDriver) ==> d !in Available(installed)
  {
    FirstAvailable(Preferred(envDriver), Available(installed))
  }

  /** A configured driver that is installed always wins. */
  lemma EnvDriverWins(envDriver: Option<string>, installed: seq<string>)
    requires IsSet(envDriver) && envDriver.value in installed && Strip(envDriver.value) != ""
    ensures ChooseSqlDriver(envDriver, installed) == envDriver
  {
  }

  /** Without a usable configured driver the fixed preference list decides, best first. */
  lemma FixedListDecides(envDriver: Option<string>, installed: seq<string>)
    requires !IsSet(envDriver) || envDriver.value !in Available(installed)
    ensures ChooseSqlDriver(envDriver, installed) == FirstAvailable(FixedDrivers, Available(installed))
  {
    if IsSet(envDriver) {
      assert Preferred(envDriver) == [envDriver.value] + FixedDrivers;
      FirstAvailableSkips([envDriver.value], FixedDrivers, Available(installed));
    } else {
      assert Preferred(envDriver) == FixedDrivers;
    }
  }

  /** Driver 18 is taken over every other fixed driver whenever it is installed and nothing configured is. */
  lemma NewestDriverPreferred(envDriver: Option<string>, installed: seq<string>)
    requires !IsSet(envDriver) || envDriver.value !in Available(installed)
    requires "ODBC Driver 18 for SQL Server" in installed
    ensures ChooseSqlDriver(envDriver, installed) == Some("ODBC Driver 18 for SQL Server")
  {
    FixedListDecides(envDriver, installed);
    assert Strip("ODBC Driver 18 for SQL Server") != "" by {
      assert !IsSpace('O');
      assert StripLeft("ODBC Driver 18 for SQL Server") == "ODBC Driver 18 for SQL Server";
    }
  }

  // ---------------------------------------------------------------------------
  // Opening the connection (_open_sql_connection)
  // ---------------------------------------------------------------------------

  /** The environment variables the service reads; None for an unset variable. */
  datatype SqlEnv = SqlEnv(
    server: Option<string>,
    database: Option<string>,
    user: Option<string>,
    password: Option<string>,
    driver: Option<string>)

  /** The four required variables. */
  datatype EnvVar = Server | Database | User | Password

  /** The variables in `vars`, in order, whose value is unset or empty. */
  function Unset<T>(vars: seq<(T, Option<string>)>): (r: seq<T>)
    ensures |r| <= |vars|
  {
    if vars == [] then []
    else (if IsSet(vars[0].1) then [] else [vars[0].0]) + Unset(vars[1..])
  }

  /** Every unset variable is reported. */
  lemma {:induction false} UnsetListsEveryUnset<T>(vars: seq<(T, Option<string>)>, i: nat)
    requires i < |vars| && !IsSet(vars[i].1)
    ensures vars[i].0 in Unset(vars)
  {
    if i > 0 {
      UnsetListsEveryUnset(vars[1..], i - 1);
    }
  }

  /** Every variable reported is unset. */
  lemma {:induction false} UnsetOnlyUnset<T>(vars: seq<(T, Option<string>)>, name: T)
    requires name in Unset(vars)
    ensures exists i :: 0 <= i < |vars| && vars[i].0 == name && !IsSet(vars[i].1)
  {
    if IsSet(vars[0].1) || name != vars[0].0 {
      UnsetOnlyUnset(vars[1..], name);
      var i :| 0 <= i < |vars[1..]| && vars[1..][i].0 == name && !IsSet(vars[1..][i].1);
      assert vars[i + 1] == vars[1..][i];
    }
  }

  /** The unset names keep the order of the variables: checking `a + b` lists `a`'s then `b`'s. */
  lemma {:induction false} UnsetAppend<T>(a: seq<(T, Option<string>)>, b: seq<(T, Option<string>)>)
    ensures Unset(a + b) == Unset(a) + Unset(b)
  {
    if a != [] {
      assert (a + b)[0] == a[0];
      assert (a + b)[1..] == a[1..] + b;
      UnsetAppend(a[1..], b);
    } else {
      assert a + b == b;
    }
  }

  /**
   * The missing-variable list of `_open_sql_connection`: a variable is listed
   * exactly when it is unset or empty, in the order server, database, user,
   * password, and the list is empty exactly when all four are set.
   */
  function MissingEnvVars(env: SqlEnv): (r: seq<EnvVar>)
    ensures r == Flag(Server, env.server) + Flag(Database, env.database) + Flag(User, env.user) + Flag(Password, env.password)
    ensures Server in r <==> !IsSet(env.server)
    ensures Database in r <==> !IsSet(env.database)
    ensures User in r <==> !IsSet(env.user)
    ensures Password in r <==> !IsSet(env.password)
    ensures r == [] <==> IsSet(env.server) && IsSet(env.database) && IsSet(env.user) && IsSet(env.password)
  {
    var vars := [(Server, env.server), (Database, env.database), (User, env.user), (Password, env.password)];
    UnsetOfFour(vars);
    Unset(vars)
  }

  /** The variable `v` listed when `value` is unset. */
  function Flag(v: EnvVar, value: Option<string>): seq<EnvVar>
  {
    if IsSet(value) then [] else [v]
  }

  /** Checking four variables lists each in turn, exactly when it is unset. */
  lemma UnsetOfFour(vars: seq<(EnvVar, Option<string>)>)
    requires |vars| == 4
    ensures Unset(vars) == Flag(vars[0].0, vars[0].1) + Flag(vars[1].0, vars[1].1) + Flag(vars[2].0, vars[2].1) + Flag(vars[3].0, vars[3].1)
  {
    assert vars[3..][1..] == [];
    assert Unset(vars[3..]) == Flag(vars[3].0, vars[3].1);
    assert vars[2..][1..] == vars[3..];
    assert Unset(vars[2..]) == Flag(vars[2].0, vars[2].1) + Flag(vars[3].0, vars[3].1);
    assert vars[1..][1..] == vars[2..];
    assert Unset(vars[1..]) == Flag(vars[1].0, vars[1].1) + Flag(vars[2].0, vars[2].1) + Flag(vars[3].0, vars[3].1);
  }

  /** What `_open_sql_connection` ends with. */
  datatype Connection =
    | MissingVars(names: seq<EnvVar>)   // logged, None returned, nothing else tried
    | NoDriver                          // no suitable driver, None returned
    | ConnectFailed(connStr: string)    // pyodbc.connect raised, None returned
    | Connected(connStr: string)        // the open connection

  /** The ODBC connection string built from a driver and the four settings. */
  function ConnectionString(driver: string, server: string, database: string, user: string, password: string): (s: string)
    ensures StartsWith(s, "DRIVER={" + driver + "};SERVER=" + server + ";")
  {
    "DRIVER={" + driver + "};SERVER=" + server + ";DATABASE=" + database + ";UID=" + user + ";PWD=" + password
      + ";TrustServerCertificate=yes;"
  }

  /**
   * `_open_sql_connection()`: `installed` is what `pyodbc.drivers()` reports
   * and `connects(s)` whether `pyodbc.connect(s, timeout=5)` succeeds.
   */
  function OpenSqlConnection(env: SqlEnv, installed: seq<string>, connects: string -> bool): (c: Connection)
    ensures c.MissingVars? <==> MissingEnvVars(env) != []
    ensures c.MissingVars? ==> c.names == MissingEnvVars(env)
    ensures c.NoDriver? <==> MissingEnvVars(env) == [] && ChooseSqlDriver(env.driver, installed).None?
    ensures c.Connected? ==> connects(c.connStr)
    ensures c.ConnectFailed? ==> !connects(c.connStr)
  {
    var missing := MissingEnvVars(env);
    if missing != [] then MissingVars(missing)
    else match ChooseSqlDriver(env.driver, installed)
      case None => NoDriver
      case Some(d) =>
        var s := ConnectionString(d, env.server.value, env.database.value, env.user.value, env.password.value);
        if connects(s) then Connected(s) else ConnectFailed(s)
  }

  /** A connection is only ever attempted with all four settings present, through the chosen driver. */
  lemma ConnectOnlyWhenConfigured(env: SqlEnv, installed: seq<string>, connects: string -> bool)
    requires OpenSqlConnection(env, installed, connects).Connected? || OpenSqlConnection(env, installed, connects).ConnectFailed?
    ensures IsSet(env.server) && IsSet(env.database) && IsSet(env.user) && IsSet(env.password)
    ensures ChooseSqlDriver(env.driver, installed).Some?
    ensures StartsWith(OpenSqlConnection(env, installed, connects).connStr,
      "DRIVER={" + ChooseSqlDriver(env.driver, installed).value + "};SERVER=" + env.server.value + ";")
  {
  }

  // ---------------------------------------------------------------------------
  // Selecting stale rows (the SELECT of cleanup_incomplete_records)
  // ---------------------------------------------------------------------------

  /** One row of TimeAttandanceLog: the columns the cleanup reads or writes. */
  datatype LogRow = LogRow(
    id: int,
    empId: string,
    dateTimeStamp: Option<int>,
    timeIn: Option<int>,
    timeOut: Option<int>,
    ipStampOut: Option<string>)

  /** `datetime.now() - timedelta(hours=h)`. */
  function Threshold(now: int, thresholdHours: int): (r: int)
    ensures r < now <==> thresholdHours > 0
  {
    now - thresholdHours * SecondsPerHour
  }

  /** The WHERE clause: still open, and clocked in (or, without a TimeIn, stamped) before the threshold. */
  predicate Selected(row: LogRow, threshold: int)
    ensures Selected(row, threshold) <==>
      row.timeOut.None? && DefaultTimeOut(row).Some? && DefaultTimeOut(row).value < threshold
  {
    && row.timeOut.None?
    && ((row.timeIn.Some? && row.timeIn.value < threshold)
        || (row.timeIn.None? && row.dateTimeStamp.Some? && row.dateTimeStamp.value < threshold))
  }

  /** A selected row was clocked in, or else stamped, more than `thresholdHours` hours before `now`. */
  lemma SelectedIsOlderThanThreshold(row: LogRow, now: int, thresholdHours: int)
    requires Selected(row, Threshold(now, thresholdHours))
    ensures now - DefaultTimeOut(row).value > thresholdHours * SecondsPerHour
  {
  }

  /** An earlier threshold selects no row a later one does not. */
  lemma SelectedMonotone(row: LogRow, earlier: int, later: int)
    requires earlier <= later && Selected(row, earlier)
    ensures Selected(row, later)
  {
  }

  /** The rows the SELECT returns, in table order. */
  function Stale(rows: seq<LogRow>, threshold: int): (r: seq<LogRow>)
    ensures |r| <= |rows|
    ensures forall row :: row in r <==> row in rows && Selected(row, threshold)
    ensures r == [] <==> forall row :: row in rows ==> !Selected(row, threshold)
  {
    if rows == [] then []
    else
      var rest := Stale(rows[1..], threshold);
      assert forall x :: x in rows <==> x == rows[0] || x in rows[1..];
      (if Selected(rows[0], threshold) then [rows[0]] else []) + rest
  }

  /** The positions, from `k` on, of the rows the SELECT returns. */
  ghost function SelectedFrom(rows: seq<LogRow>, threshold: int, k: nat): set<int>
  {
    set i | k <= i < |rows| && Selected(rows[i], threshold)
  }

  /** The SELECT over `rows[k..]` returns one row per selected position from `k` on. */
  lemma {:induction false} StaleCountFrom(rows: seq<LogRow>, threshold: int, k: nat)
    requires k <= |rows|
    ensures |Stale(rows[k..], threshold)| == |SelectedFrom(rows, threshold, k)|
    decreases |rows| - k
  {
    if k == |rows| {
      assert SelectedFrom(rows, threshold, k) == {};
    } else {
      assert rows[k..][0] == rows[k] && rows[k..][1..] == rows[k + 1..];
      StaleCountFrom(rows, threshold, k + 1);
      assert SelectedFrom(rows, threshold, k) ==
        SelectedFrom(rows, threshold, k + 1) + (if Selected(rows[k], threshold) then {k} else {});
    }
  }

  /** The positions of the rows the SELECT returns. */
  ghost function SelectedIndices(rows: seq<LogRow>, threshold: int): set<int>
  {
    set i | 0 <= i < |rows| && Selected(rows[i], threshold)
  }

  /** The SELECT returns as many rows as there are selected rows in the table. */
  lemma StaleCount(rows: seq<LogRow>, threshold: int)
    ensures |Stale(rows, threshold)| == |SelectedIndices(rows, threshold)|
  {
    StaleCountFrom(rows, threshold, 0);
    assert rows[0..] == rows;
    assert SelectedFrom(rows, threshold, 0) == SelectedIndices(rows, threshold);
  }

  // ---------------------------------------------------------------------------
  // The automatic TimeOut
  // ---------------------------------------------------------------------------

  /** One row of VListPeriodEmployee: planned clock-in, planned clock-out and the holiday flag. */
  datatype ShiftRow = ShiftRow(inTmp: Value, outTmp: Value, holiday: Option<int>)

  /** Python truthiness of a column value, judged by its text: None and the empty string are false. */
  predicate Truthy(v: Value)
    ensures Truthy(v) <==> v != PyNone && Str(v) != ""
  {
    v.PyObj? && v.text != ""
  }

  /** The calendar date of a time: the day whose midnight is the last one at or before it. */
  function Day(t: int): (d: int)
    ensures d * SecondsPerDay <= t < d * SecondsPerDay + SecondsPerDay
  {
    t / SecondsPerDay
  }

  /** A holiday row planned at midnight, which the shift search skips. */
  predicate ZeroHoliday(shift: ShiftRow)
  {
    shift.holiday == Some(1) && StartsWith(Str(shift.inTmp), "00:00")
  }

  /** `s[:5]`. */
  function First5(s: string): (r: string)
    ensures |r| <= 5 && |r| <= |s| && r == s[..|r|]
  {
    if |s| <= 5 then s else s[..5]
  }

  /** How many characters `%H` takes from the front of `t`: `2[0-3]`, else `[0-1]\d`, else `\d`; 0 when none matches. */
  function HourWidth(t: string): (w: nat)
    ensures w <= 2 && w <= |t|
  {
    if |t| >= 2 && t[0] == '2' && '0' <= t[1] <= '3' then 2
    else if |t| >= 2 && (t[0] == '0' || t[0] == '1') && IsDigit(t[1]) then 2
    else if |t| >= 1 && IsDigit(t[0]) then 1
    else 0
  }

  /** How many characters `%M` takes from the front of `t`: `[0-5]\d`, else `\d`; 0 when none matches. */
  function MinuteWidth(t: string): (w: nat)
    ensures w <= 2 && w <= |t|
  {
    if |t| >= 2 && '0' <= t[0] <= '5' && IsDigit(t[1]) then 2
    else if |t| >= 1 && IsDigit(t[0]) then 1
    else 0
  }

  /** The value of a one- or two-digit field. */
  function FieldValue(t: string, w: nat): nat
    requires 1 <= w <= 2 && w <= |t|
    requires forall i :: 0 <= i < w ==> IsDigit(t[i])
  {
    if w == 1 then DigitValue(t[0]) else DigitValue(t[0]) * 10 + DigitValue(t[1])
  }

  /**
   * `datetime.strptime(t, "%H:%M").time()` as minutes after midnight: the
   * hour, a colon, the minute, and nothing after it.
   */
  function ParseClock(t: string): (r: Option<nat>)
    ensures r.Some? ==> r.value < 24 * 60
    ensures r.Some? ==> 3 <= |t| <= 5 && ':' in t
  {
    var h := HourWidth(t);
    if h == 0 || |t| <= h || t[h] != ':' then None
    else
      var rest := t[h + 1..];
      var m := MinuteWidth(rest);
      if m == 0 || m != |rest| then None
      else Some(FieldValue(t, h) * 60 + FieldValue(rest, m))
  }

  /** `"%02d" % n`. */
  function TwoDigits(n: nat): (s: string)
    requires n < 100
    ensures |s| == 2 && IsDigit(s[0]) && IsDigit(s[1])
  {
    [DigitChar(n / 10), DigitChar(n % 10)]
  }

  /** `str(time(h, m, s))`: `HH:MM:SS`. */
  function ClockText(h: nat, m: nat, s: nat): string
    requires h < 24 && m < 60 && s < 60
  {
    TwoDigits(h) + ":" + TwoDigits(m) + ":" + TwoDigits(s)
  }

  /** The first five characters of a printed time of day parse back to its hour and minute. */
  lemma ParseClockRoundTrip(h: nat, m: nat, s: nat)
    requires h < 24 && m < 60 && s < 60
    ensures ParseClock(First5(ClockText(h, m, s))) == Some(h * 60 + m)
  {
    var t := First5(ClockText(h, m, s));
    assert t == TwoDigits(h) + ":" + TwoDigits(m);
    assert HourWidth(t) == 2;
    assert t[3..] == TwoDigits(m);
  }

  /** An hour from 24 to 29 is refused, whatever follows it. */
  lemma ParseClockRejectsHour(h: nat, m: nat)
    requires 24 <= h < 30 && m < 60
    ensures ParseClock(TwoDigits(h) + ":" + TwoDigits(m)) == None
  {
    var t := TwoDigits(h) + ":" + TwoDigits(m);
    assert HourWidth(t) == 1;
  }

  /**
   * The TimeOut one shift row gives, or None when the search moves on: the
   * midnight holiday row is skipped; an empty OutTmp, an OutTmp that is not
   * `HH:MM`, or a row without a DateTimeStamp gives nothing; otherwise the
   * stamp's date at OutTmp, one day later when that is not after TimeIn.
   */
  function ShiftTimeOut(shift: ShiftRow, row: LogRow): (r: Option<int>)
    ensures ZeroHoliday(shift) || !Truthy(shift.outTmp) || row.dateTimeStamp.None? ==> r.None?
    ensures r.Some? ==> r.value % 60 == 0
    ensures r.Some? ==> Day(r.value) == Day(row.dateTimeStamp.value) || Day(r.value) == Day(row.dateTimeStamp.value) + 1
    ensures r.Some? && row.timeIn.Some? && Day(row.timeIn.value) == Day(row.dateTimeStamp.value) ==>
      row.timeIn.value < r.value <= row.timeIn.value + SecondsPerDay
  {
    if ZeroHoliday(shift) || !Truthy(shift.outTmp) then None
    else match ParseClock(First5(Str(shift.outTmp)))
      case None => None
      case Some(minutes) =>
        if row.dateTimeStamp.None? then None
        else
          var at := Day(row.dateTimeStamp.value) * SecondsPerDay + minutes * 60;
          ClockOnDay(Day(row.dateTimeStamp.value), minutes);
          Some(Adjusted(at, row.timeIn))
  }

  /** `if t_in and at <= t_in: at += timedelta(days=1)`. */
  function Adjusted(at: int, timeIn: Option<int>): (r: int)
    ensures r == at || r == at + SecondsPerDay
    ensures timeIn.Some? && timeIn.value < at + SecondsPerDay ==> timeIn.value < r
    ensures timeIn.None? || timeIn.value < at ==> r == at
  {
    if timeIn.Some? && at <= timeIn.value then at + SecondsPerDay else at
  }

  /** A time of day `minutes` after midnight of `day` is on `day`, and a day later is on the next day. */
  lemma ClockOnDay(day: int, minutes: nat)
    requires minutes < 24 * 60
    ensures Day(day * SecondsPerDay + minutes * 60) == day
    ensures Day(day * SecondsPerDay + minutes * 60 + SecondsPerDay) == day + 1
    ensures (day * SecondsPerDay + minutes * 60) % 60 == 0
  {
  }

  /** A shift row whose OutTmp reads `HH:MM` sets the stamp's date at that time, moved a day on when not after TimeIn. */
  lemma ShiftTimeOutAt(shift: ShiftRow, row: LogRow, minutes: nat)
    requires !ZeroHoliday(shift) && Truthy(shift.outTmp) && row.dateTimeStamp.Some?
    requires ParseClock(First5(Str(shift.outTmp))) == Some(minutes)
    ensures var at := Day(row.dateTimeStamp.value) * SecondsPerDay + minutes * 60;
      ShiftTimeOut(shift, row) == Some(if row.timeIn.Some? && at <= row.timeIn.value then at + SecondsPerDay else at)
  {
  }

  /** The first shift row that gives a TimeOut, searching from the front. */
  function FirstShiftTimeOut(shifts: seq<ShiftRow>, row: LogRow): (r: Option<int>)
    ensures r.None? <==> forall k :: 0 <= k < |shifts| ==> ShiftTimeOut(shifts[k], row).None?
    ensures r.Some? ==> exists k :: 0 <= k < |shifts| && ShiftTimeOut(shifts[k], row) == r
  {
    if shifts == [] then None
    else if ShiftTimeOut(shifts[0], row).Some? then ShiftTimeOut(shifts[0], row)
    else
      var r := FirstShiftTimeOut(shifts[1..], row);
      assert forall k :: 1 <= k < |shifts| ==> shifts[k] == shifts[1..][k - 1];
      r
  }

  /** The row whose TimeOut is taken is the first that gives one. */
  lemma {:induction false} FirstShiftTimeOutIsFirst(shifts: seq<ShiftRow>, row: LogRow, k: nat)
    requires k < |shifts| && ShiftTimeOut(shifts[k], row).Some?
    requires forall j :: 0 <= j < k ==> ShiftTimeOut(shifts[j], row).None?
    ensures FirstShiftTimeOut(shifts, row) == ShiftTimeOut(shifts[k], row)
  {
    if k > 0 {
      assert forall j :: 0 <= j < k - 1 ==> shifts[1..][j] == shifts[j + 1];
      FirstShiftTimeOutIsFirst(shifts[1..], row, k - 1);
    }
  }

  /** The fallback TimeOut: `t_in if t_in else dt_stamp`. */
  function DefaultTimeOut(row: LogRow): Option<int>
  {
    if row.timeIn.Some? then row.timeIn else row.dateTimeStamp
  }

  /**
   * The TimeOut the cleanup writes for `row`, given its shift rows: there is
   * one whenever the row has a TimeIn or a stamp, and when TimeIn falls on the
   * stamp's date it is no earlier than TimeIn and at most a day after it.
   */
  function AutoTimeout(row: LogRow, shifts: seq<ShiftRow>): (r: Option<int>)
    ensures r.None? <==> row.timeIn.None? && row.dateTimeStamp.None?
    ensures r.Some? && row.timeIn.Some? && row.dateTimeStamp.Some? && Day(row.timeIn.value) == Day(row.dateTimeStamp.value) ==>
      row.timeIn.value <= r.value <= row.timeIn.value + SecondsPerDay
  {
    var fromShift := FirstShiftTimeOut(shifts, row);
    if fromShift.Some? then fromShift else DefaultTimeOut(row)
  }

  /** With no usable shift row the TimeOut is TimeIn, or the stamp when TimeIn is missing. */
  lemma AutoTimeoutDefault(row: LogRow, shifts: seq<ShiftRow>)
    requires forall k :: 0 <= k < |shifts| ==> ShiftTimeOut(shifts[k], row).None?
    ensures AutoTimeout(row, shifts) == if row.timeIn.Some? then row.timeIn else row.dateTimeStamp
  {
  }

  /** A midnight holiday row in front changes nothing. */
  lemma ZeroHolidaySkipped(row: LogRow, holiday: ShiftRow, shifts: seq<ShiftRow>)
    requires ZeroHoliday(holiday)
    ensures AutoTimeout(row, [holiday] + shifts) == AutoTimeout(row, shifts)
  {
    assert ([holiday] + shifts)[1..] == shifts;
  }

  /** Every selected row gets a TimeOut. */
  lemma SelectedRowGetsTimeout(row: LogRow, threshold: int, shifts: seq<ShiftRow>)
    requires Selected(row, threshold)
    ensures AutoTimeout(row, shifts).Some?
  {
  }

  /**
   * `cleanup_incomplete_records`' search for a TimeOut: the default, then the
   * shift rows in order until one gives a time.
   */
  method ComputeAutoTimeout(row: LogRow, shifts: seq<ShiftRow>) returns (timeout: Option<int>)
    ensures timeout == AutoTimeout(row, shifts)
  {
    timeout := DefaultTimeOut(row);
    var k := 0;
    while k < |shifts|
      invariant k <= |shifts|
      invariant forall j :: 0 <= j < k ==> ShiftTimeOut(shifts[j], row).None?
      invariant timeout == DefaultTimeOut(row)
    {
      var candidate := ShiftTimeOut(shifts[k], row);
      if candidate.Some? {
        FirstShiftTimeOutIsFirst(shifts, row, k);
        timeout := candidate;
        break;
      }
      k := k + 1;
    }
  }

  // ---------------------------------------------------------------------------
  // The cleanup pass
  // ---------------------------------------------------------------------------

  /** The date `dt_stamp.date()` that the shift query is keyed by. */
  function Period(dateTimeStamp: Option<int>): Option<int>
  {
    if dateTimeStamp.Some? then Some(Day(dateTimeStamp.value)) else None
  }

  /** The marker written to IPStampOut. */
  const AutoCleanup := "AUTO_CLEANUP"

  /** What the pass leaves in one row: a selected row is closed, any other row is untouched. */
  function CleanedRow(row: LogRow, threshold: int, shiftsFor: (string, Option<int>) -> seq<ShiftRow>): (r: LogRow)
    ensures r.id == row.id && r.empId == row.empId
    ensures r.dateTimeStamp == row.dateTimeStamp && r.timeIn == row.timeIn
    ensures Selected(row, threshold) ==> r.timeOut.Some? && r.ipStampOut == Some(AutoCleanup)
    ensures !Selected(row, threshold) ==> r == row
  {
    if Selected(row, threshold) then
      row.(timeOut := AutoTimeout(row, shiftsFor(row.empId, Period(row.dateTimeStamp))), ipStampOut := Some(AutoCleanup))
    else row
  }

  function CleanedRows(rows: seq<LogRow>, threshold: int, shiftsFor: (string, Option<int>) -> seq<ShiftRow>): (r: seq<LogRow>)
    ensures |r| == |rows|
  {
    seq(|rows|, i requires 0 <= i < |rows| => CleanedRow(rows[i], threshold, shiftsFor))
  }

  /** The positions at which two versions of the table differ. */
  ghost function Changed(before: seq<LogRow>, after: seq<LogRow>): set<int>
  {
    set i | 0 <= i < |before| && i < |after| && after[i] != before[i]
  }

  /** A pass changes exactly the selected rows: each of them gets a TimeOut where it had none. */
  lemma CleanedChangesSelected(rows: seq<LogRow>, threshold: int, shiftsFor: (string, Option<int>) -> seq<ShiftRow>)
    ensures Changed(rows, CleanedRows(rows, threshold, shiftsFor)) == SelectedIndices(rows, threshold)
  {
  }

  /** After a pass, a second pass at the same or an earlier threshold selects nothing. */
  lemma CleanupSettles(rows: seq<LogRow>, threshold: int, again: int, shiftsFor: (string, Option<int>) -> seq<ShiftRow>)
    requires again <= threshold
    ensures Stale(CleanedRows(rows, threshold, shiftsFor), again) == []
  {
    var cleaned := CleanedRows(rows, threshold, shiftsFor);
    forall row | row in cleaned
      ensures !Selected(row, again)
    {
      var i :| 0 <= i < |cleaned| && cleaned[i] == row;
      if !Selected(rows[i], threshold) && Selected(row, again) {
        SelectedMonotone(rows[i], again, threshold);
      }
    }
  }

  /** The table's key: no two rows share an Id. */
  predicate UniqueIds(rows: seq<LogRow>)
  {
    forall i, j :: 0 <= i < j < |rows| ==> rows[i].id != rows[j].id
  }

  /** `UPDATE ... SET TimeOut = t, IPStampOut = 'AUTO_CLEANUP' WHERE Id = id`. */
  function UpdateById(rows: seq<LogRow>, id: int, timeout: Option<int>): (r: seq<LogRow>)
    ensures |r| == |rows|
    ensures forall i :: 0 <= i < |rows| ==>
      r[i] == if rows[i].id == id then rows[i].(timeOut := timeout, ipStampOut := Some(AutoCleanup)) else rows[i]
  {
    seq(|rows|, i requires 0 <= i < |rows| =>
      if rows[i].id == id then rows[i].(timeOut := timeout, ipStampOut := Some(AutoCleanup)) else rows[i])
  }

  /** TimeAttandanceLog, updated in place by the cleanup pass. */
  class AttendanceLog {
    var rows: seq<LogRow>

    ghost predicate Valid()
      reads this
    {
      UniqueIds(rows)
    }

    constructor (rows: seq<LogRow>)
      requires UniqueIds(rows)
      ensures Valid() && this.rows == rows
    {
      this.rows := rows;
    }

    /**
     * `cleanup_incomplete_records(db)` at time `now`: every row the SELECT
     * returns is closed with its automatic TimeOut, and the count of closed
     * rows comes back. `shiftsFor(emp, date)` is the shift query's result.
     */
    method CleanupIncompleteRecords(now: int, thresholdHours: int, shiftsFor: (string, Option<int>) -> seq<ShiftRow>)
      returns (cleaned: nat)
      requires Valid()
      modifies this
      ensures Valid()
      ensures cleaned == |Stale(old(rows), Threshold(now, thresholdHours))|
      ensures cleaned == |Changed(old(rows), rows)|
      ensures rows == CleanedRows(old(rows), Threshold(now, thresholdHours), shiftsFor)
    {
      var threshold := Threshold(now, thresholdHours);
      var records := Stale(rows, threshold);
      ghost var before := rows;
      StaleCount(before, threshold);
      CleanedChangesSelected(before, threshold, shiftsFor);
      cleaned := 0;
      if records == [] {
        CleanedNone(before, threshold, shiftsFor);
        return;
      }
      PassStart(before, records, threshold, shiftsFor);
      for j := 0 to |records|
        invariant cleaned == j
        invariant PassInvariant(before, rows, records, j, threshold, shiftsFor)
      {
        var rec := records[j];
        var timeout := ComputeAutoTimeout(rec, shiftsFor(rec.empId, Period(rec.dateTimeStamp)));
        UpdateStep(before, rows, records, j, threshold, shiftsFor, timeout);
        rows := UpdateById(rows, rec.id, timeout);
        cleaned := cleaned + 1;
      }
      PassComplete(before, rows, records, threshold, shiftsFor);
    }
  }

  /** The Ids of the first `j` selected rows: those the pass has updated. */
  ghost function HandledIds(records: seq<LogRow>, j: nat): set<int>
    requires j <= |records|
  {
    set k | 0 <= k < j :: records[k].id
  }

  /**
   * The table after `j` updates: the rows whose Id has been handled are
   * closed, the others are as they were.
   */
  ghost predicate PassInvariant(
    before: seq<LogRow>, rows: seq<LogRow>, records: seq<LogRow>, j: nat, threshold: int,
    shiftsFor: (string, Option<int>) -> seq<ShiftRow>)
  {
    && j <= |records|
    && records == Stale(before, threshold)
    && UniqueIds(before)
    && |rows| == |before|
    && forall i :: 0 <= i < |rows| ==>
      rows[i] == if before[i].id in HandledIds(records, j) then CleanedRow(before[i], threshold, shiftsFor) else before[i]
  }

  lemma CleanedNone(rows: seq<LogRow>, threshold: int, shiftsFor: (string, Option<int>) -> seq<ShiftRow>)
    requires Stale(rows, threshold) == []
    ensures CleanedRows(rows, threshold, shiftsFor) == rows
  {
  }

  lemma PassStart(before: seq<LogRow>, records: seq<LogRow>, threshold: int, shiftsFor: (string, Option<int>) -> seq<ShiftRow>)
    requires UniqueIds(before) && records == Stale(before, threshold)
    ensures PassInvariant(before, before, records, 0, threshold, shiftsFor)
  {
    assert HandledIds(records, 0) == {};
  }

  /** Closing the next selected row by its Id keeps the pass invariant. */
  lemma UpdateStep(
    before: seq<LogRow>, rows: seq<LogRow>, records: seq<LogRow>, j: nat, threshold: int,
    shiftsFor: (string, Option<int>) -> seq<ShiftRow>, timeout: Option<int>)
    requires PassInvariant(before, rows, records, j, threshold, shiftsFor) && j < |records|
    requires timeout == AutoTimeout(records[j], shiftsFor(records[j].empId, Period(records[j].dateTimeStamp)))
    ensures PassInvariant(before, UpdateById(rows, records[j].id, timeout), records, j + 1, threshold, shiftsFor)
  {
    var rec := records[j];
    assert rec in records;
    var k :| 0 <= k < |before| && before[k] == rec;
    var after := UpdateById(rows, rec.id, timeout);
    assert HandledIds(records, j + 1) == HandledIds(records, j) + {rec.id};
    forall i | 0 <= i < |after|
      ensures after[i] ==
        if before[i].id in HandledIds(records, j + 1) then CleanedRow(before[i], threshold, shiftsFor) else before[i]
    {
      assert before[i].id == rec.id ==> i == k;
      UpdateRow(before[i], rows[i], HandledIds(records, j), rec, timeout, threshold, shiftsFor);
    }
  }

  /** The UPDATE on one row: it closes the row exactly when the row is the selected one. */
  lemma UpdateRow(
    original: LogRow, current: LogRow, handled: set<int>, rec: LogRow, timeout: Option<int>, threshold: int,
    shiftsFor: (string, Option<int>) -> seq<ShiftRow>)
    requires current == if original.id in handled then CleanedRow(original, threshold, shiftsFor) else original
    requires original.id == rec.id ==> original == rec
    requires Selected(rec, threshold)
    requires timeout == AutoTimeout(rec, shiftsFor(rec.empId, Period(rec.dateTimeStamp)))
    ensures (if current.id == rec.id then current.(timeOut := timeout, ipStampOut := Some(AutoCleanup)) else current)
      == if original.id in handled + {rec.id} then CleanedRow(original, threshold, shiftsFor) else original
  {
  }

  /** Once every selected Id has been handled, the table is the cleaned table. */
  lemma PassComplete(
    before: seq<LogRow>, rows: seq<LogRow>, records: seq<LogRow>, threshold: int,
    shiftsFor: (string, Option<int>) -> seq<ShiftRow>)
    requires PassInvariant(before, rows, records, |records|, threshold, shiftsFor)
    ensures UniqueIds(rows)
    ensures rows == CleanedRows(before, threshold, shiftsFor)
  {
    forall i | 0 <= i < |rows|
      ensures rows[i] == CleanedRows(before, threshold, shiftsFor)[i]
    {
      if before[i].id in HandledIds(records, |records|) {
        var k :| 0 <= k < |records| && records[k].id == before[i].id;
        assert records[k] in records;
        var m :| 0 <= m < |before| && before[m] == records[k];
        assert m == i;
      }
    }
    assert forall i :: 0 <= i < |rows| ==> rows[i].id == before[i].id;
  }

  // ---------------------------------------------------------------------------
  // The next run (run_cleanup_loop)
  // ---------------------------------------------------------------------------

  /** Four hours, the grid the runs fall on. */
  const RunGrid := 4 * SecondsPerHour

  /**
   * The next run time computed from `now`: the current hour rounded up to
   * the next multiple of four, at minute zero, or midnight of the next day
   * when that reaches 24.
   */
  function NextRunTime(now: int): (r: int)
    ensures now < r <= now + RunGrid
    ensures r % RunGrid == 0
  {
    var day := now / SecondsPerDay;
    var hour := (now % SecondsPerDay) / SecondsPerHour;
    var nextHour := (hour / 4 + 1) * 4;
    if nextHour >= 24 then (day + 1) * SecondsPerDay
    else day * SecondsPerDay + nextHour * SecondsPerHour
  }

  /** The next run is the first multiple of four hours after `now`. */
  lemma NextRunIsNextGridPoint(now: int)
    ensures NextRunTime(now) == (now / RunGrid + 1) * RunGrid
  {
    var r := NextRunTime(now);
    var q := now / RunGrid;
    assert q * RunGrid <= now < (q + 1) * RunGrid;
    assert (q + 1) * RunGrid - RunGrid <= now < r;
  }

  /** The next run falls on 00:00, 04:00, 08:00, 12:00, 16:00 or 20:00. */
  lemma NextRunHourOfDay(now: int)
    ensures (NextRunTime(now) % SecondsPerDay) % SecondsPerHour == 0
    ensures ((NextRunTime(now) % SecondsPerDay) / SecondsPerHour) % 4 == 0
  {
    var day := now / SecondsPerDay;
    var nextHour := ((now % SecondsPerDay) / SecondsPerHour / 4 + 1) * 4;
    if nextHour >= 24 {
      assert NextRunTime(now) % SecondsPerDay == 0;
    } else {
      assert NextRunTime(now) == day * SecondsPerDay + nextHour * SecondsPerHour;
      assert NextRunTime(now) % SecondsPerDay == nextHour * SecondsPerHour;
    }
  }

  /** `wait_seconds`: strictly positive and at most four hours. */
  function WaitSeconds(now: int): (w: int)
    ensures 0 < w <= RunGrid
  {
    NextRunTime(now) - now
  }
}
