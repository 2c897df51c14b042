# ZKTeco attendance services — a Dafny model

This project models the decision logic of three Python services that sit around
a fleet of ZKTeco fingerprint terminals and an SQL Server attendance database.

- **The listener** (`zkteco_listener.py`) polls each terminal. It turns each raw
  attendance record into a `(user, time)` tuple. A per-device seen-set lets each
  distinct record through only once. When the record's timestamp is today's, the
  listener enqueues a webhook. Worker threads post each webhook with up to three
  attempts and a doubling backoff of 0.5 s, 1 s and 2 s.
- **The cleanup service** (`cleanup_service.py`) finds rows of
  `TimeAttandanceLog` that are still open (TimeOut is NULL) and older than a
  threshold of 16 hours by default. It closes each one with an automatic TimeOut
  taken from the employee's shift plan, or with its own clock-in time when no
  shift gives one. It tags the row `AUTO_CLEANUP` and returns how many rows it
  closed. Before connecting, it checks the four `MSSQL_*` settings and picks an
  ODBC driver. Runs fall on every fourth hour of the day.
- **The device repository** (`device.py`) converts database rows into devices,
  where a missing name falls back to the IP. It loads the fixed list of terminal
  addresses with repeats removed, keeping the order.

The Dafny modules follow these files:

| module | what it holds |
|---|---|
| `Wrappers` | `Option`, for Python's `None`-or-value |
| `Text` | the few `str` operations the services use: `strip`, `isdigit`, `int`/`str` on digit strings, zero padding, `in`, `split(c)[0]` and `replace` |
| `Listener` | `record_to_tuple`, the seen-set filter (the class `DeviceMonitor`), `is_timestamp_today`, the webhook gate and the worker's retry loop |
| `Cleanup` | driver choice, the connection check, row selection, the shift-based TimeOut, the cleanup pass (the class `AttendanceLog`) and the next-run time |
| `Devices` | `sqlToModel` and `DeviceRepository.initial_devices` (the class `DeviceRepository`) |

Some Python objects are modelled as a `Value`. Such a value is either `None` or
an object known only by the text that `str()` gives for it. Times in the cleanup
service are whole seconds on the naive local clock. The date of a time `t` is
`t / 86400`.

## Model

| member | source | states |
|---|---|---|
| `Text.StripLeft` | zkteco_listener.py:116 | the result is no longer than the input, holds only its characters, starts with a non-space, and everything dropped from the front is whitespace |
| `Text.StripRight` | zkteco_listener.py:116 | the result is no longer than the input, ends with a non-space, and everything dropped from the back is whitespace |
| `Text.Strip` | cleanup_service.py:38 | `strip()` leaves no whitespace at either end and adds no character |
| `Text.StripLeftIsSuffix` | zkteco_listener.py:116 | what `lstrip()` keeps is a suffix of the input |
| `Text.StripRightIsPrefix` | zkteco_listener.py:116 | what `rstrip()` keeps is a prefix of the input |
| `Text.StripIdempotent` | zkteco_listener.py:116 | stripping twice is the same as stripping once |
| `Text.StripIgnoresLeadingSpace` | zkteco_listener.py:116 | a leading whitespace character does not change what `strip()` returns |
| `Text.DigitsUnstripped` | zkteco_listener.py:116-119 | a digit string comes through `strip()` unchanged |
| `Text.NatToString` | zkteco_listener.py:119-120 | `str(n)` is a non-empty digit string with no leading zero |
| `Text.ParseNatToString` | zkteco_listener.py:120 | `int(str(n)) == n` |
| `Text.NatToStringLength` | zkteco_listener.py:122 | `str(n)` has more than `k` digits exactly when `n >= 10^k` |
| `Text.ParseNat` | zkteco_listener.py:120 | `int(s)` of a digit string is below 10 to the power of its length |
| `Text.ZeroPad` | zkteco_listener.py:156-158 | zero padding gives a digit string of the padded width whose value is `n` |
| `Text.Contains` | zkteco_listener.py:156-158 | a contained string is no longer than the text, and the empty string is in every text |
| `Text.ContainsPiece` | zkteco_listener.py:156-158 | `needle in front + needle + back` holds |
| `Text.NotContainsMissingChar` | zkteco_listener.py:156-158 | a string without a character `c` contains no string that has `c` |
| `Text.BeforeFirst` | zkteco_listener.py:148-149 | `split(c)[0]` is the longest prefix without `c`, stopped by the first `c` |
| `Text.ReplaceChar` | zkteco_listener.py:148 | `replace(a, b)` changes exactly the `a` characters to `b`, keeping the length |
| `Listener.FirstSetFrom` | zkteco_listener.py:217-224 | the attribute search returns the first name whose value is not None, or None when all are None |
| `Listener.RecordToTuple` | zkteco_listener.py:208-239 | a list or tuple comes back as is. For an object, the first user attribute that is not None is the user, and then `__dict__` is not searched. Without one, the first user in `__dict__` is taken, and a time there overrides the attribute time. The result is `(u, t)` when a time is found, `(u,)` when only a user is, `(None, t)` for a time alone, and `(str(r),)` when neither is |
| `Listener.ScanOf` | zkteco_listener.py:250-251 | user and time depend on the seen-set key alone, and are empty when the tuple is too short |
| `Listener.Key` | zkteco_listener.py:247 | the key is the `str()` of each tuple item, in order, with `"None"` for None |
| `Listener.KeyOf` | zkteco_listener.py:241-247 | an object's key has one or two parts, and a list or tuple's key has one part per item |
| `Listener.NewKeys` | zkteco_listener.py:247-249 | a pass lets through at most as many keys as there are records |
| `Listener.AttendanceObjectScan` | zkteco_listener.py:213-239 | an object with `user_id` and `timestamp` yields exactly that pair |
| `Listener.OpaqueObjectKey` | zkteco_listener.py:236-238 | an object with no user and no time, whether as attribute or in `__dict__`, is keyed and printed by its `str()` alone |
| `Listener.TimeOnlyObjectScan` | zkteco_listener.py:236-239 | an object with a time but no user anywhere is printed with the user `None` |
| `Listener.DictFallbackScan` | zkteco_listener.py:226-235 | without a user attribute, the first user in `__dict__` and the first time there are printed, whatever the attribute time |
| `Listener.DictUserAttributeTime` | zkteco_listener.py:221-235 | without a user attribute and without a time in `__dict__`, the attribute time is kept beside the `__dict__` user |
| `Listener.NewKeysAreFresh` | zkteco_listener.py:247-249 | no key that lets a record through was in the seen-set, and no key does so twice |
| `Listener.NewKeysCover` | zkteco_listener.py:247-249 | a key lets a record through exactly when it is in the batch and not already seen |
| `Listener.SeenBatchIsSilent` | zkteco_listener.py:248-249 | a batch whose keys are all seen lets nothing through |
| `Listener.ReplayIsSilent` | zkteco_listener.py:248-249 | a batch fed again after itself lets nothing through |
| `Listener.EpochSecondsOfNumber` | zkteco_listener.py:119-123 | a printed number of up to 10 digits is read as seconds; from `10^10` on it is read as milliseconds |
| `Listener.EpochSeconds` | zkteco_listener.py:119-124 | up to ten digits are read as seconds; a longer value is read as milliseconds, of which the whole seconds are kept |
| `Listener.FirstParsingFormat` | zkteco_listener.py:139-144 | the first of the seven formats that parses is the one used; all earlier formats fail |
| `Listener.RelaxedIso` | zkteco_listener.py:148-149 | the relaxed form has no `.`, `T`, `+` or `Z` left |
| `Listener.IsTimestampToday` | zkteco_listener.py:107-162 | an empty timestamp is never today's; a timestamp is today's only when some reading of it gives today's date; an epoch timestamp is today's exactly when its local date is today |
| `Listener.StrippedIsToday` | zkteco_listener.py:118-162 | a stripped timestamp is accepted only when some reading gives today's date, and an epoch value is judged by its local date alone |
| `Listener.TextIsToday` | zkteco_listener.py:129-162 | the format, relaxed-ISO and substring cascade accepts only when some reading gives today's date |
| `Listener.FormatDecides` | zkteco_listener.py:129-144 | outside the epoch branch, the first format that parses decides the verdict by the date it reads |
| `Listener.RelaxedIsoDecides` | zkteco_listener.py:146-153 | when neither the epoch branch nor any format applies, a relaxed ISO reading decides the verdict by its date |
| `Listener.SubstringFallback` | zkteco_listener.py:155-162 | when no parser applies, a timestamp is today's exactly when it holds today's date as `YYYY-MM-DD` or `DD/MM/YYYY` |
| `Listener.UnparsedWithTodayIsAccepted` | zkteco_listener.py:156-157 | an unparsed timestamp with today's ISO date inside is accepted |
| `Listener.UnparsedWithoutSeparatorsIsRejected` | zkteco_listener.py:155-162 | an unparsed timestamp with neither `-` nor `/` is rejected |
| `Listener.MillisecondTimestamp` | zkteco_listener.py:119-125 | a millisecond epoch value is judged by the local date of its whole seconds |
| `Listener.LeadingSpaceIgnored` | zkteco_listener.py:116 | leading whitespace never changes the verdict on a non-empty timestamp |
| `Listener.TodayWebhooks` | zkteco_listener.py:254-259 | no more webhooks are enqueued than records are let through |
| `Listener.TodayWebhooksGate` | zkteco_listener.py:254-259 | a webhook is enqueued for a record that is let through exactly when its timestamp is today, carrying the device and the record's user and time |
| `Listener.DeviceMonitor.constructor` | zkteco_listener.py:167 | a monitor starts with an empty seen-set |
| `Listener.DeviceMonitor.Poll` | zkteco_listener.py:206-261 | after a pass, the seen-set has grown by the batch's keys; the records printed are those with new keys, in order; the webhooks are exactly the printed records whose timestamp is today |
| `Listener.ReplayedPoll` | zkteco_listener.py:247-259 | polling the same records twice prints and enqueues nothing the second time |
| `Listener.Backoffs` | zkteco_listener.py:73-90 | there is one sleep per failed attempt |
| `Listener.BackoffTotal` | zkteco_listener.py:86-90 | `n` failures sleep `500 * (2^n - 1)` ms in all |
| `Listener.FirstSuccess` | zkteco_listener.py:74-85 | the first attempt that returns without raising ends the loop |
| `Listener.ExpectedDelivery` | zkteco_listener.py:71-90 | there are one to three attempts and one sleep per failure; an item is delivered exactly when one of the first three attempts succeeds, and then the last attempt is the one that succeeded |
| `Listener.DeliveryBounds` | zkteco_listener.py:73-90 | the sleeps double from 500 ms, sum to `500 * (2^n - 1)` ms for `n` sleeps, and so at most 3.5 s is spent asleep |
| `Listener.Deliver` | zkteco_listener.py:71-90 | the retry loop stops at the first success or after three failures, sleeping 500, 1000 and 2000 ms |
| `Listener.ServeQueue` | zkteco_listener.py:63-91 | each dequeued item gets its delivery outcome and exactly one `task_done` |
| `Cleanup.Available` | cleanup_service.py:38 | the usable drivers are exactly the installed names that are not blank |
| `Cleanup.FirstAvailable` | cleanup_service.py:49-52 | the chosen driver is preferred and available; None is returned exactly when no preferred driver is available |
| `Cleanup.FirstAvailableSkips` | cleanup_service.py:49-52 | unavailable drivers at the front of the list do not change the choice |
| `Cleanup.FirstAvailableStops` | cleanup_service.py:49-52 | a front part of the list that holds an available driver decides the choice |
| `Cleanup.ChooseSqlDriver` | cleanup_service.py:36-52 | the choice is an installed, non-blank driver; None is returned exactly when no preferred driver is available |
| `Cleanup.EnvDriverWins` | cleanup_service.py:40-41 | a configured driver that is installed is always chosen |
| `Cleanup.FixedListDecides` | cleanup_service.py:42-52 | without a usable configured driver, the fixed list decides |
| `Cleanup.NewestDriverPreferred` | cleanup_service.py:42-52 | ODBC Driver 18 wins whenever it is installed and no configured driver is |
| `Cleanup.Unset` | cleanup_service.py:63-70 | no more names are reported than variables were checked |
| `Cleanup.UnsetListsEveryUnset` | cleanup_service.py:63-70 | every unset or empty variable is reported |
| `Cleanup.UnsetOnlyUnset` | cleanup_service.py:63-70 | every reported variable is unset or empty |
| `Cleanup.UnsetAppend` | cleanup_service.py:63-70 | the reported names keep the order in which the variables are checked |
| `Cleanup.UnsetOfFour` | cleanup_service.py:63-70 | checking four variables lists each in turn, exactly when it is unset |
| `Cleanup.MissingEnvVars` | cleanup_service.py:63-73 | the report lists server, database, user and password in that order, each exactly when it is unset or empty; the report is empty exactly when all four are set |
| `Cleanup.ConnectionString` | cleanup_service.py:80 | the connection string starts with the driver and the server |
| `Cleanup.OpenSqlConnection` | cleanup_service.py:55-85 | the connection stops at missing settings exactly when some are missing, and at the driver exactly when none is available; otherwise the connection succeeds or fails as `connect` does on the built string |
| `Cleanup.ConnectOnlyWhenConfigured` | cleanup_service.py:71-85 | a connection is only attempted with all four settings set and a chosen driver, whose name heads the string |
| `Cleanup.Threshold` | cleanup_service.py:97 | the threshold is in the past exactly when the threshold hours are positive |
| `Cleanup.Selected` | cleanup_service.py:104-109 | a row is selected exactly when it is open and its reference time (TimeIn, else the stamp) is before the threshold |
| `Cleanup.SelectedIsOlderThanThreshold` | cleanup_service.py:97-109 | a selected row's reference time is more than the threshold hours before now |
| `Cleanup.SelectedMonotone` | cleanup_service.py:104-109 | a row stale at an earlier threshold is stale at a later one |
| `Cleanup.Stale` | cleanup_service.py:100-113 | exactly the open rows clocked in, or else stamped, before the threshold are returned, and none is returned exactly when no row qualifies |
| `Cleanup.StaleCountFrom` | cleanup_service.py:100-113 | the SELECT over the rows from position `k` on returns one row per selected position |
| `Cleanup.StaleCount` | cleanup_service.py:100-113 | the SELECT returns exactly as many rows as the table has selected rows |
| `Cleanup.Day` | cleanup_service.py:130 | a time lies within its date's 86400 seconds |
| `Cleanup.Truthy` | cleanup_service.py:152 | a value is truthy exactly when it is not None and its text is not empty |
| `Cleanup.First5` | cleanup_service.py:154 | `s[:5]` is the prefix of at most five characters |
| `Cleanup.ParseClock` | cleanup_service.py:155 | an accepted `%H:%M` text is 3 to 5 characters long, holds a colon, and gives a time of day below 24:00 |
| `Cleanup.ParseClockRoundTrip` | cleanup_service.py:154-155 | the first five characters of a printed `HH:MM:SS` parse back to its hour and minute |
| `Cleanup.ParseClockRejectsHour` | cleanup_service.py:155 | hours 24 to 29 are refused |
| `Cleanup.ShiftTimeOut` | cleanup_service.py:146-163 | a midnight holiday row, an empty OutTmp or a missing stamp gives nothing. Otherwise the TimeOut falls on a whole minute, on the stamp's date or the next one. When TimeIn falls on the stamp's date, the TimeOut is after TimeIn but within a day of it |
| `Cleanup.ShiftTimeOutAt` | cleanup_service.py:152-161 | a readable OutTmp sets the stamp's date at that clock time, moved a day on when it is not after TimeIn |
| `Cleanup.Adjusted` | cleanup_service.py:160-161 | the time moves on by exactly one day or not at all; it moves when it is not after TimeIn, and afterwards it is after any TimeIn less than a day later |
| `Cleanup.FirstShiftTimeOut` | cleanup_service.py:143-165 | no shift TimeOut is found exactly when no shift row gives one |
| `Cleanup.FirstShiftTimeOutIsFirst` | cleanup_service.py:143-165 | the first shift row that gives a TimeOut decides it |
| `Cleanup.AutoTimeoutDefault` | cleanup_service.py:123-126 | with no usable shift row, the TimeOut is TimeIn, or the stamp when TimeIn is missing |
| `Cleanup.AutoTimeout` | cleanup_service.py:123-165 | there is a TimeOut whenever the row has a TimeIn or a stamp; when TimeIn falls on the stamp's date, the TimeOut is no earlier than TimeIn and at most a day after it |
| `Cleanup.ZeroHolidaySkipped` | cleanup_service.py:146-150 | a midnight holiday row in front changes nothing |
| `Cleanup.SelectedRowGetsTimeout` | cleanup_service.py:121-126 | every selected row gets a TimeOut |
| `Cleanup.ComputeAutoTimeout` | cleanup_service.py:123-165 | the loop's TimeOut is that of the first shift row that gives one, else the default |
| `Cleanup.CleanedRow` | cleanup_service.py:170-177 | a selected row is closed and tagged `AUTO_CLEANUP` with its other columns kept; any other row is untouched |
| `Cleanup.CleanedChangesSelected` | cleanup_service.py:170-179 | a pass changes exactly the selected rows |
| `Cleanup.CleanupSettles` | cleanup_service.py:100-179 | after a pass, a pass at the same or an earlier threshold selects nothing |
| `Cleanup.UpdateById` | cleanup_service.py:170-177 | the UPDATE changes TimeOut and IPStampOut of the rows with that Id and nothing else |
| `Cleanup.CleanedNone` | cleanup_service.py:115-117 | with no stale rows the table is left as it was |
| `Cleanup.UpdateStep` | cleanup_service.py:170-179 | closing the next selected row by its Id keeps every other row as it was |
| `Cleanup.PassComplete` | cleanup_service.py:121-183 | after all selected rows have been handled, the table is the cleaned table |
| `Cleanup.AttendanceLog.constructor` | cleanup_service.py:102-103 | the table holds the given rows, with distinct Ids |
| `Cleanup.AttendanceLog.CleanupIncompleteRecords` | cleanup_service.py:88-192 | the count returned is both the number of stale rows and the number of rows the pass changed. The new table closes exactly those rows, with their automatic TimeOut and the `AUTO_CLEANUP` tag, and keeps Ids distinct |
| `Cleanup.NextRunTime` | cleanup_service.py:219-226 | the next run is after now, at most four hours later, on a multiple of four hours |
| `Cleanup.NextRunIsNextGridPoint` | cleanup_service.py:219-226 | the next run is the first multiple of four hours after now |
| `Cleanup.NextRunHourOfDay` | cleanup_service.py:219-226 | the next run is at 00:00, 04:00, 08:00, 12:00, 16:00 or 20:00 |
| `Cleanup.WaitSeconds` | cleanup_service.py:228 | the wait is positive and at most four hours |
| `Devices.ToDevice` | device.py:29-35 | the device has the row's IP; its name is the second column, or the IP when that is missing or None |
| `Devices.RowsToDevices` | device.py:26-35 | there is one device per non-empty row |
| `Devices.RowsToDevicesAppend` | device.py:26-35 | converting two runs of rows is converting their concatenation, so order is kept |
| `Devices.RowsToDevicesAt` | device.py:26-35 | each non-empty row's device sits after those of the non-empty rows before it |
| `Devices.SqlToModel` | device.py:19-36 | the loop skips empty rows and converts the others, in order |
| `Devices.FirstOccurrences` | device.py:86-92 | deduplication keeps every address and adds none |
| `Devices.FirstOccurrencesDistinct` | device.py:86-92 | no address is kept twice |
| `Devices.FirstOccurrencesPrefix` | device.py:88-92 | reading more addresses only appends to the result |
| `Devices.FirstOccurrencesOfDistinct` | device.py:86-92 | a list without repeats comes through unchanged |
| `Devices.AsDevices` | device.py:92 | each kept address becomes a device named after itself |
| `Devices.DedupDevices` | device.py:86-92 | the seen-set loop keeps each address the first time it is met, as a device named after it |
| `Devices.DedupStep` | device.py:88-92 | one more address is appended exactly when it was not met before |
| `Devices.StaticIpsDistinct` | device.py:56-83 | the fixed address list has no repeats |
| `Devices.StaticIpsLoadedInOrder` | device.py:56-92 | every terminal of the fixed list is loaded once, in list order |
| `Devices.DeviceRepository.constructor` | device.py:47-48 | a new repository has no devices |
| `Devices.DeviceRepository.InitialDevices` | device.py:50-95 | the fixed list is loaded, deduplicated and in order, each device named after its IP; the result is stored in `deviceInfo` and returned |

## Left out

- Threads, the webhook queue and the worker pool are not modelled. The polling and cleanup loops run forever and stop on `STOP_FLAG` and signals; the model covers one pass or one dequeued item. Sleeps and logging are left out.
- Network, device and database I/O become parameters:
  - a poll receives the records it read;
  - `shiftsFor` stands for the shift query;
  - `connects` stands for `pyodbc.connect`;
  - `installed` stands for `pyodbc.drivers()`;
  - a webhook post is a success-or-raise outcome per attempt.
- `load_dotenv` is left out, and environment variables are read as parameters. The integer settings are parameters, so an `int()` that raises on a malformed setting is not modelled.
- The handling of `get_attendance` returning None, and the wrapping of a single non-iterable record (zkteco_listener.py:195-204), are left out. A poll receives a sequence of records.
- The handling of an exception inside `record_to_tuple` (zkteco_listener.py:241-245) is left out. The model's normalisation never raises.
- `datetime.fromtimestamp`, `datetime.strptime` and `date.today()` are the fields of `Calendar`. Only whether a format parses, and to which date, is modelled, not how it parses.
- `Listener.IsTimestampToday`: its ensures states exactly the empty and epoch cases; otherwise it states soundness only (accepted only when some reading gives today's date). The format case is stated by `FormatDecides`, the relaxed-ISO case by `RelaxedIsoDecides`, and the substring case by `SubstringFallback`.
- `isdigit()` and `strptime`'s `%H`/`%M` are modelled for ASCII digits only. Python also accepts other Unicode digits.
- Years below 1000 are zero-padded to four digits, as `isoformat()` pads them.
- The webhook payload, the host's local IP, the request headers and the HTTP status are left out. An attempt fails exactly when the post raises. With a `requests` session an HTTP error status does not raise, so it counts as delivered. With `urllib.request.urlopen` (zkteco_listener.py:82) a 4xx or 5xx status raises `HTTPError`, so it counts as a failed attempt. The model's per-attempt outcome stands for whichever of the two is used.
- `Listener.ServeQueue`: `socket.gethostbyname` (zkteco_listener.py:67) is called outside the `try`. If it raises, the worker thread ends before `task_done` for that item. The model assumes the lookup succeeds.
- The rollback after a database error (cleanup_service.py:185-190) is left out. The model has no error in the middle of a pass.
- `Cleanup.AttendanceLog.constructor` requires that Ids are distinct, since Id is the table's key. The `UPDATE ... WHERE Id = ?` relies on this.
- The SELECT's rows come back in table order; the SQL does not fix an order.
- Times are whole seconds on a naive clock without daylight saving. Microseconds are dropped.
- `Cleanup.ShiftTimeOut` and `Cleanup.AutoTimeout` bound the TimeOut by TimeIn only when TimeIn falls on the stamp's date. The code adds at most one day (cleanup_service.py:160-161). So when TimeIn is two or more days after the stamp, the TimeOut can still be at or before TimeIn.
- `Cleanup.Truthy`: a column value's truthiness is judged by its `str()` text. A falsy object whose text is not empty, such as `0`, counts as true.
- `CLEANUP_INTERVAL_SECONDS` (cleanup_service.py:29) is read and logged, but the schedule does not use it. The schedule is the four-hour grid.
- The comment at cleanup_service.py:218 lists runs at 02:00, 06:00 and so on. The code computes multiples of four hours, and the model follows the code.
- `fetch_initial_devices` in device.py is a one-line wrapper and is not modelled separately.
