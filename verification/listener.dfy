/**
 * The decision logic of the attendance listener (zkteco_listener.py): turning
 * raw device records into `(user, time)` tuples, the per-device seen-set that
 * lets each record through once, the "is this timestamp today?" cascade that
 * gates the webhook, and the bounded retry loop of the webhook worker.
 *
 * The device connection, the queue and the worker threads are not modelled:
 * a poll hands in the records it read, and the webhooks it would enqueue come
 * back as a sequence, in enqueue order.
 */
module Listener {
  import opened Wrappers
  import opened Text

  // ---------------------------------------------------------------------------
  // Normalising a record (record_to_tuple)
  // ---------------------------------------------------------------------------

  /**
   * One attendance record as a device driver returns it: a list or tuple, or
   * an object. For an object, `attrs` is what `getattr(r, name, None)` yields
   * for each attribute name it has, `dict` is its `__dict__` (None when it has
   * none; an empty map when that is falsy) and `text` is `str(r)`.
   */
  datatype Record =
    | Sequence(items: seq<Value>)
    | Object(attrs: map<string, Value>, dict: Option<map<string, Value>>, text: string)

  /** Attribute names tried, in order, for the user of an object record. */
  const UserAttrs: seq<string> := ["user_id", "userid", "user", "uid", "id"]
  /** Attribute names tried, in order, for the time of an object record. */
  const TimeAttrs: seq<string> := ["timestamp", "time", "check_time", "datetime", "date_time"]

  /** `getattr(r, name, None)`, and equally `d[name] if name in d else None`. */
  function Lookup(attrs: map<string, Value>, name: string): Value
  {
    if name in attrs then attrs[name] else PyNone
  }

  /** The first of `names[k..]` whose lookup is not None, or None when there is none. */
  function FirstSetFrom(attrs: map<string, Value>, names: seq<string>, k: nat): (v: Value)
    requires k <= |names|
    ensures v != PyNone ==>
      exists i :: k <= i < |names| && Lookup(attrs, names[i]) == v &&
        forall j :: k <= j < i ==> Lookup(attrs, names[j]) == PyNone
    ensures v == PyNone ==> forall i :: k <= i < |names| ==> Lookup(attrs, names[i]) == PyNone
    decreases |names| - k
  {
    if k == |names| then PyNone
    else if Lookup(attrs, names[k]) != PyNone then Lookup(attrs, names[k])
    else FirstSetFrom(attrs, names, k + 1)
  }

  /** The first-match search over attribute names of record_to_tuple. */
  function FirstSet(attrs: map<string, Value>, names: seq<string>): Value
  {
    FirstSetFrom(attrs, names, 0)
  }

  /**
   * `record_to_tuple(r)`: a list or tuple unchanged; for an object, the user is
   * the first user attribute that is not None, and only when there is none is
   * `__dict__` searched, for the user and for a time that then overrides the
   * attribute time. The result is `(u, t)` when a time is found, `(u,)` when
   * only a user is, and `(str(r),)` when neither is.
   */
  function RecordToTuple(r: Record): (t: seq<Value>)
    ensures r.Sequence? ==> t == r.items
    ensures r.Object? ==> 1 <= |t| <= 2 && t[|t| - 1] != PyNone
    ensures r.Object? && FirstSet(r.attrs, UserAttrs) != PyNone ==>
      && t[0] == FirstSet(r.attrs, UserAttrs)
      && (|t| == 2 <==> FirstSet(r.attrs, TimeAttrs) != PyNone)
      && (|t| == 2 ==> t[1] == FirstSet(r.attrs, TimeAttrs))
    ensures r.Object? && FirstSet(r.attrs, UserAttrs) == PyNone && r.dict.None? ==>
      t == if FirstSet(r.attrs, TimeAttrs) != PyNone then [PyNone, FirstSet(r.attrs, TimeAttrs)] else [PyObj(r.text)]
    ensures r.Object? && FirstSet(r.attrs, UserAttrs) == PyNone && r.dict.Some? ==>
      var user := FirstSet(r.dict.value, UserAttrs);
      var time := if FirstSet(r.dict.value, TimeAttrs) != PyNone then FirstSet(r.dict.value, TimeAttrs)
                  else FirstSet(r.attrs, TimeAttrs);
      t == if time != PyNone then [user, time] else if user != PyNone then [user] else [PyObj(r.text)]
  {
    match r
    case Sequence(items) => items
    case Object(attrs, dict, text) =>
      var u0 := FirstSet(attrs, UserAttrs);
      var t0 := FirstSet(attrs, TimeAttrs);
      var u := if u0 == PyNone && dict.Some? then FirstSet(dict.value, UserAttrs) else u0;
      var t := if u0 == PyNone && dict.Some? && FirstSet(dict.value, TimeAttrs) != PyNone
               then FirstSet(dict.value, TimeAttrs) else t0;
      if u == PyNone && t == PyNone then [PyObj(text)]
      else if t != PyNone then [u, t]
      else [u]
  }

  /** `tuple(map(str, tup))`: the seen-set key of a normalised record. */
  function Key(t: seq<Value>): (k: seq<string>)
    ensures |k| == |t|
    ensures forall i :: 0 <= i < |t| ==> k[i] == Str(t[i])
    ensures forall i :: 0 <= i < |t| && t[i] == PyNone ==> k[i] == "None"
  {
    seq(|t|, i requires 0 <= i < |t| => Str(t[i]))
  }

  /** The seen-set key of a record: one or two strings for an object, one per item for a list or tuple. */
  function KeyOf(r: Record): (k: seq<string>)
    ensures r.Sequence? ==> |k| == |r.items|
    ensures r.Object? ==> 1 <= |k| <= 2
  {
    Key(RecordToTuple(r))
  }

  /** What is printed and sent for a new record. */
  datatype Scan = Scan(userid: string, ts: string)

  /** The user id and timestamp read back from a seen-set key. */
  function ScanOfKey(k: seq<string>): Scan
  {
    Scan(if |k| > 0 then k[0] else "", if |k| > 1 then k[1] else "")
  }

  /**
   * `userid = str(tup[0]) if len(tup) > 0 else ""` and likewise `ts` from
   * `tup[1]`: both depend on the key alone, so records merged by the seen-set
   * would have printed the same line.
   */
  function ScanOf(t: seq<Value>): (s: Scan)
    ensures s == ScanOfKey(Key(t))
    ensures |t| == 0 ==> s.userid == "" && s.ts == ""
    ensures |t| == 1 ==> s.ts == ""
  {
    Scan(if |t| > 0 then Str(t[0]) else "", if |t| > 1 then Str(t[1]) else "")
  }

  /** A driver Attendance object with a user id and a timestamp gives exactly those two. */
  lemma AttendanceObjectScan(attrs: map<string, Value>, dict: Option<map<string, Value>>, text: string, u: string, ts: string)
    requires Lookup(attrs, "user_id") == PyObj(u)
    requires Lookup(attrs, "timestamp") == PyObj(ts)
    ensures RecordToTuple(Object(attrs, dict, text)) == [PyObj(u), PyObj(ts)]
    ensures ScanOf(RecordToTuple(Object(attrs, dict, text))) == Scan(u, ts)
  {
    assert UserAttrs[0] == "user_id";
    assert TimeAttrs[0] == "timestamp";
  }

  /** None of `names` is set in `attrs`. */
  predicate NoneSet(attrs: map<string, Value>, names: seq<string>)
  {
    forall i :: 0 <= i < |names| ==> Lookup(attrs, names[i]) == PyNone
  }

  /** An object with no user and no time, as attribute or in `__dict__`, is keyed and printed by its `str()` alone. */
  lemma OpaqueObjectKey(attrs: map<string, Value>, dict: Option<map<string, Value>>, text: string)
    requires NoneSet(attrs, UserAttrs) && NoneSet(attrs, TimeAttrs)
    requires dict.Some? ==> NoneSet(dict.value, UserAttrs) && NoneSet(dict.value, TimeAttrs)
    ensures KeyOf(Object(attrs, dict, text)) == [text]
    ensures ScanOf(RecordToTuple(Object(attrs, dict, text))) == Scan(text, "")
  {
    var t := RecordToTuple(Object(attrs, dict, text));
    assert t == [PyObj(text)];
    assert Key(t)[0] == text;
  }

  /** An object with a time but no user anywhere is printed with the user `None`. */
  lemma TimeOnlyObjectScan(attrs: map<string, Value>, dict: Option<map<string, Value>>, text: string, ts: string)
    requires NoneSet(attrs, UserAttrs)
    requires dict.Some? ==> NoneSet(dict.value, UserAttrs)
    requires FirstSet(attrs, TimeAttrs) == PyObj(ts) || (dict.Some? && FirstSet(dict.value, TimeAttrs) == PyObj(ts))
    requires dict.Some? && FirstSet(dict.value, TimeAttrs) != PyNone ==> FirstSet(dict.value, TimeAttrs) == PyObj(ts)
    ensures ScanOf(RecordToTuple(Object(attrs, dict, text))) == Scan("None", ts)
  {
    assert FirstSet(attrs, UserAttrs) == PyNone;
    assert dict.Some? ==> FirstSet(dict.value, UserAttrs) == PyNone;
  }

  /**
   * Without a user attribute, the first user in `__dict__` is taken, and the
   * first time there wins over any attribute time.
   */
  lemma DictFallbackScan(attrs: map<string, Value>, d: map<string, Value>, text: string, u: string, ts: string)
    requires NoneSet(attrs, UserAttrs)
    requires FirstSet(d, UserAttrs) == PyObj(u)
    requires FirstSet(d, TimeAttrs) == PyObj(ts)
    ensures ScanOf(RecordToTuple(Object(attrs, Some(d), text))) == Scan(u, ts)
  {
    assert FirstSet(attrs, UserAttrs) == PyNone;
  }

  /** Without a user attribute and without a time in `__dict__`, the attribute time is kept beside the `__dict__` user. */
  lemma DictUserAttributeTime(attrs: map<string, Value>, d: map<string, Value>, text: string, u: string)
    requires NoneSet(attrs, UserAttrs)
    requires FirstSet(d, UserAttrs) == PyObj(u)
    requires NoneSet(d, TimeAttrs)
    ensures ScanOf(RecordToTuple(Object(attrs, Some(d), text))) ==
      Scan(u, if FirstSet(attrs, TimeAttrs) != PyNone then Str(FirstSet(attrs, TimeAttrs)) else "")
  {
    assert FirstSet(attrs, UserAttrs) == PyNone;
    assert FirstSet(d, TimeAttrs) == PyNone;
  }

  // ---------------------------------------------------------------------------
  // The seen-set filter of monitor_device
  // ---------------------------------------------------------------------------

  /** The keys of a batch of records. */
  ghost function BatchKeys(records: seq<Record>): set<seq<string>>
  {
    set r | r in records :: KeyOf(r)
  }

  /** The keys a pass over `records` lets through, in order, starting from the set `seen`. */
  function NewKeys(seen: set<seq<string>>, records: seq<Record>): (r: seq<seq<string>>)
    ensures |r| <= |records|
    decreases |records|
  {
    if records == [] then []
    else
      var k := KeyOf(records[0]);
      if k in seen then NewKeys(seen, records[1..]) else [k] + NewKeys(seen + {k}, records[1..])
  }

  /** Emitted keys are new: none was in `seen`, and none is emitted twice. */
  lemma {:induction false} NewKeysAreFresh(seen: set<seq<string>>, records: seq<Record>)
    ensures forall i :: 0 <= i < |NewKeys(seen, records)| ==> NewKeys(seen, records)[i] !in seen
    ensures forall i, j :: 0 <= i < j < |NewKeys(seen, records)| ==> NewKeys(seen, records)[i] != NewKeys(seen, records)[j]
    decreases |records|
  {
    if records != [] {
      var k := KeyOf(records[0]);
      if k in seen {
        NewKeysAreFresh(seen, records[1..]);
      } else {
        NewKeysAreFresh(seen + {k}, records[1..]);
      }
    }
  }

  /** Every key of the batch is either already seen or emitted, and only those are emitted. */
  lemma {:induction false} NewKeysCover(seen: set<seq<string>>, records: seq<Record>)
    ensures forall k :: k in NewKeys(seen, records) <==> k in BatchKeys(records) && k !in seen
    decreases |records|
  {
    if records != [] {
      var k := KeyOf(records[0]);
      assert BatchKeys(records) == {k} + BatchKeys(records[1..]) by {
        assert records == [records[0]] + records[1..];
      }
      if k in seen {
        NewKeysCover(seen, records[1..]);
      } else {
        NewKeysCover(seen + {k}, records[1..]);
      }
    }
  }

  /** Once every key of a batch is in the seen-set, a pass over it emits nothing. */
  lemma {:induction false} SeenBatchIsSilent(seen: set<seq<string>>, records: seq<Record>)
    requires BatchKeys(records) <= seen
    ensures NewKeys(seen, records) == []
  {
    if records != [] {
      assert records[0] in records;
      assert BatchKeys(records[1..]) <= BatchKeys(records) by {
        forall r | r in records[1..] ensures r in records { }
      }
      SeenBatchIsSilent(seen, records[1..]);
    }
  }

  /** Feeding the same batch a second time emits nothing. */
  lemma ReplayIsSilent(seen: set<seq<string>>, records: seq<Record>)
    ensures NewKeys(seen + BatchKeys(records), records) == []
  {
    SeenBatchIsSilent(seen + BatchKeys(records), records);
  }

  function ScansOfKeys(keys: seq<seq<string>>): (s: seq<Scan>)
    ensures |s| == |keys|
  {
    seq(|keys|, i requires 0 <= i < |keys| => ScanOfKey(keys[i]))
  }

  // ---------------------------------------------------------------------------
  // is_timestamp_today
  // ---------------------------------------------------------------------------

  /** A calendar date. */
  datatype Date = Date(year: nat, month: nat, day: nat)

  /** `d.isoformat()`: `YYYY-MM-DD`. */
  function IsoFormat(d: Date): string
  {
    ZeroPad(d.year, 4) + "-" + ZeroPad(d.month, 2) + "-" + ZeroPad(d.day, 2)
  }

  /** `d.strftime("%d/%m/%Y")`: `DD/MM/YYYY`. */
  function DayMonthYear(d: Date): string
  {
    ZeroPad(d.day, 2) + "/" + ZeroPad(d.month, 2) + "/" + ZeroPad(d.year, 4)
  }

  /** The `strptime` formats tried, each named after its layout. */
  datatype Format =
    | IsoSpaceSeconds     // %Y-%m-%d %H:%M:%S
    | IsoTSeconds         // %Y-%m-%dT%H:%M:%S
    | DayFirstSlash       // %d/%m/%Y %H:%M:%S
    | DayFirstDash        // %d-%m-%Y %H:%M:%S
    | YearFirstSlash      // %Y/%m/%d %H:%M:%S
    | IsoSpaceMinutes     // %Y-%m-%d %H:%M
    | IsoDateOnly         // %Y-%m-%d

  const DateFormats: seq<Format> :=
    [IsoSpaceSeconds, IsoTSeconds, DayFirstSlash, DayFirstDash, YearFirstSlash, IsoSpaceMinutes, IsoDateOnly]

  /**
   * What the clock and the date parser tell the listener: today's date, the
   * local date of an epoch second (`datetime.fromtimestamp(v).date()`, None
   * where that raises), and `datetime.strptime(s, f).date()` (None where that
   * raises).
   */
  datatype Calendar = Calendar(
    today: Date,
    localDate: nat -> Option<Date>,
    strptime: (string, Format) -> Option<Date>)

  /**
   * The epoch seconds of an all-digit timestamp: more than 10 digits are
   * milliseconds, of which the whole seconds are kept (the fraction that
   * `val / 1000` keeps never moves a non-negative time to another date).
   */
  function EpochSeconds(s: string): (r: nat)
    requires IsDigits(s)
    ensures |s| <= 10 ==> r == ParseNat(s)
    ensures |s| > 10 ==> r * 1000 <= ParseNat(s) < r * 1000 + 1000
  {
    if |s| > 10 then ParseNat(s) / 1000 else ParseNat(s)
  }

  /** A printed epoch value is read back as seconds below 10^10 and as milliseconds from 10^10 on. */
  lemma {:induction false} EpochSecondsOfNumber(n: nat)
    ensures EpochSeconds(NatToString(n)) == if n >= Pow10(10) then n / 1000 else n
  {
    ParseNatToString(n);
    NatToStringLength(n, 10);
  }

  /** The index of the first format in `formats[k..]` that parses `s`. */
  function FirstParsingFormat(s: string, formats: seq<Format>, strptime: (string, Format) -> Option<Date>, k: nat): (r: Option<nat>)
    requires k <= |formats|
    ensures r.Some? ==> k <= r.value < |formats| && strptime(s, formats[r.value]).Some?
    ensures r.Some? ==> forall j :: k <= j < r.value ==> strptime(s, formats[j]).None?
    ensures r.None? ==> forall j :: k <= j < |formats| ==> strptime(s, formats[j]).None?
    decreases |formats| - k
  {
    if k == |formats| then None
    else if strptime(s, formats[k]).Some? then Some(k)
    else FirstParsingFormat(s, formats, strptime, k + 1)
  }

  /** The relaxed ISO clean-up: drop fractional seconds and timezone, `T` becomes a space. */
  function RelaxedIso(s: string): (r: string)
    ensures '.' !in r && 'T' !in r && '+' !in r && 'Z' !in r
  {
    var noFraction := BeforeFirst(s, '.');
    var spaced := ReplaceChar(noFraction, 'T', ' ');
    var noOffset := BeforeFirst(spaced, '+');
    var noZulu := BeforeFirst(noOffset, 'Z');
    Strip(noZulu)
  }

  /** The epoch branch applies: a digit string whose local date is known. */
  predicate EpochParses(s: string, cal: Calendar)
  {
    IsDigits(s) && cal.localDate(EpochSeconds(s)).Some?
  }

  /**
   * Some reading of `s` gives today's date: its epoch value, one of the
   * formats, the relaxed ISO form, or today's date written inside it.
   */
  predicate SomeReadingIsToday(s: string, cal: Calendar)
  {
    || (IsDigits(s) && cal.localDate(EpochSeconds(s)) == Some(cal.today))
    || (exists i :: 0 <= i < |DateFormats| && cal.strptime(s, DateFormats[i]) == Some(cal.today))
    || cal.strptime(RelaxedIso(s), IsoSpaceSeconds) == Some(cal.today)
    || Contains(s, IsoFormat(cal.today))
    || Contains(s, DayMonthYear(cal.today))
  }

  /** The verdict on an already stripped, non-empty timestamp. */
  function StrippedIsToday(s: string, cal: Calendar): (r: bool)
    ensures r ==> SomeReadingIsToday(s, cal)
    ensures EpochParses(s, cal) ==> (r <==> cal.localDate(EpochSeconds(s)) == Some(cal.today))
  {
    if EpochParses(s, cal) then cal.localDate(EpochSeconds(s)).value == cal.today
    else TextIsToday(s, cal)
  }

  /** The verdict on a stripped timestamp that is not an epoch value: the formats, the relaxed ISO form, then the substring test. */
  function TextIsToday(s: string, cal: Calendar): (r: bool)
    ensures r ==> SomeReadingIsToday(s, cal)
  {
    match FirstParsingFormat(s, DateFormats, cal.strptime, 0)
      case Some(i) => cal.strptime(s, DateFormats[i]).value == cal.today
      case None =>
        match cal.strptime(RelaxedIso(s), IsoSpaceSeconds)
        case Some(d) => d == cal.today
        case None => Contains(s, IsoFormat(cal.today)) || Contains(s, DayMonthYear(cal.today))
  }

  /**
   * `is_timestamp_today(ts)`: never true for an empty timestamp, and true only
   * when some reading of the stripped timestamp gives today's date.
   */
  function IsTimestampToday(ts: string, cal: Calendar): (r: bool)
    ensures ts == "" ==> !r
    ensures r ==> SomeReadingIsToday(Strip(ts), cal)
    ensures ts != "" && EpochParses(Strip(ts), cal) ==>
      (r <==> cal.localDate(EpochSeconds(Strip(ts))) == Some(cal.today))
  {
    ts != "" && StrippedIsToday(Strip(ts), cal)
  }

  /** When the epoch branch does not apply, the first format that parses decides, by the date it reads. */
  lemma FormatDecides(ts: string, cal: Calendar, i: nat)
    requires ts != "" && !EpochParses(Strip(ts), cal)
    requires i < |DateFormats| && cal.strptime(Strip(ts), DateFormats[i]).Some?
    requires forall j :: 0 <= j < i ==> cal.strptime(Strip(ts), DateFormats[j]).None?
    ensures IsTimestampToday(ts, cal) <==> cal.strptime(Strip(ts), DateFormats[i]) == Some(cal.today)
  {
    var r := FirstParsingFormat(Strip(ts), DateFormats, cal.strptime, 0);
    assert r == Some(i) by {
      if r.None? || r.value != i {
        assert r.Some? && r.value < i;
      }
    }
  }

  /** When neither the epoch branch nor any format applies, a relaxed ISO reading decides by its date. */
  lemma RelaxedIsoDecides(ts: string, cal: Calendar, d: Date)
    requires ts != "" && !EpochParses(Strip(ts), cal)
    requires forall j :: 0 <= j < |DateFormats| ==> cal.strptime(Strip(ts), DateFormats[j]).None?
    requires cal.strptime(RelaxedIso(Strip(ts)), IsoSpaceSeconds) == Some(d)
    ensures IsTimestampToday(ts, cal) <==> d == cal.today
  {
    assert FirstParsingFormat(Strip(ts), DateFormats, cal.strptime, 0).None?;
  }

  /** No parser applies to the stripped timestamp: the substring fallback decides. */
  predicate Unparsed(s: string, cal: Calendar)
  {
    && !EpochParses(s, cal)
    && FirstParsingFormat(s, DateFormats, cal.strptime, 0).None?
    && cal.strptime(RelaxedIso(s), IsoSpaceSeconds).None?
  }

  /** Unparsed timestamps are today's exactly when they carry today's date in one of the two layouts. */
  lemma SubstringFallback(ts: string, cal: Calendar)
    requires ts != "" && Unparsed(Strip(ts), cal)
    ensures IsTimestampToday(ts, cal) <==>
      Contains(Strip(ts), IsoFormat(cal.today)) || Contains(Strip(ts), DayMonthYear(cal.today))
  {
  }

  /** An unparsed timestamp with today's ISO date somewhere inside is accepted. */
  lemma UnparsedWithTodayIsAccepted(front: string, back: string, cal: Calendar)
    requires var ts := front + IsoFormat(cal.today) + back; Unparsed(Strip(ts), cal) && Strip(ts) == ts
    ensures IsTimestampToday(front + IsoFormat(cal.today) + back, cal)
  {
    ContainsPiece(front, IsoFormat(cal.today), back);
  }

  /** An unparsed timestamp with neither `-` nor `/` in it is never today's. */
  lemma UnparsedWithoutSeparatorsIsRejected(ts: string, cal: Calendar)
    requires ts != "" && Unparsed(Strip(ts), cal)
    requires '-' !in ts && '/' !in ts
    ensures !IsTimestampToday(ts, cal)
  {
    var s := Strip(ts);
    assert IsoFormat(cal.today)[|ZeroPad(cal.today.year, 4)|] == '-';
    assert DayMonthYear(cal.today)[|ZeroPad(cal.today.day, 2)|] == '/';
    NotContainsMissingChar(s, IsoFormat(cal.today), '-');
    NotContainsMissingChar(s, DayMonthYear(cal.today), '/');
  }

  /** A millisecond epoch timestamp is judged by the local date of its whole seconds. */
  lemma MillisecondTimestamp(n: nat, cal: Calendar)
    requires n >= Pow10(10)
    requires cal.localDate(n / 1000).Some?
    ensures IsTimestampToday(NatToString(n), cal) <==> cal.localDate(n / 1000) == Some(cal.today)
  {
    var s := NatToString(n);
    DigitsUnstripped(s);
    EpochSecondsOfNumber(n);
    assert EpochParses(s, cal);
  }

  /** Leading whitespace never changes the verdict on a non-empty timestamp. */
  lemma LeadingSpaceIgnored(c: char, ts: string, cal: Calendar)
    requires IsSpace(c) && ts != ""
    ensures IsTimestampToday([c] + ts, cal) == IsTimestampToday(ts, cal)
  {
    StripIgnoresLeadingSpace(c, ts);
  }

  // ---------------------------------------------------------------------------
  // The webhook gate and the per-device monitor
  // ---------------------------------------------------------------------------

  /** One queued webhook: `(ip, name, userid, ts)`. */
  datatype Webhook = Webhook(ip: string, name: string, userid: string, ts: string)

  /** The webhooks enqueued for a run of emitted scans: those whose timestamp is today, in order. */
  function TodayWebhooks(ip: string, name: string, scans: seq<Scan>, cal: Calendar): (w: seq<Webhook>)
    ensures |w| <= |scans|
  {
    if scans == [] then []
    else
      var last := scans[|scans| - 1];
      TodayWebhooks(ip, name, scans[..|scans| - 1], cal) +
        (if IsTimestampToday(last.ts, cal) then [Webhook(ip, name, last.userid, last.ts)] else [])
  }

  /** A webhook is enqueued for an emitted scan exactly when its timestamp is today. */
  lemma {:induction false} TodayWebhooksGate(ip: string, name: string, scans: seq<Scan>, cal: Calendar)
    ensures forall h :: h in TodayWebhooks(ip, name, scans, cal) ==>
      h.ip == ip && h.name == name && IsTimestampToday(h.ts, cal) && Scan(h.userid, h.ts) in scans
    ensures forall s :: s in scans && IsTimestampToday(s.ts, cal) ==> Webhook(ip, name, s.userid, s.ts) in TodayWebhooks(ip, name, scans, cal)
  {
    if scans != [] {
      var init := scans[..|scans| - 1];
      TodayWebhooksGate(ip, name, init, cal);
      assert forall s :: s in init ==> s in scans;
      assert scans == init + [scans[|scans| - 1]];
    }
  }

  lemma TodayWebhooksAppend(ip: string, name: string, scans: seq<Scan>, s: Scan, cal: Calendar)
    ensures TodayWebhooks(ip, name, scans + [s], cal) ==
      TodayWebhooks(ip, name, scans, cal) + (if IsTimestampToday(s.ts, cal) then [Webhook(ip, name, s.userid, s.ts)] else [])
  {
    assert (scans + [s])[..|scans|] == scans;
  }

  lemma ScansOfKeysAppend(keys: seq<seq<string>>, k: seq<string>)
    ensures ScansOfKeys(keys + [k]) == ScansOfKeys(keys) + [ScanOfKey(k)]
  {
  }

  /** What a pass over `records` has done after its first `i` records, starting from `seen0`. */
  ghost predicate PassState(
    ip: string, name: string, cal: Calendar, seen0: set<seq<string>>, records: seq<Record>, i: nat,
    seen: set<seq<string>>, emitted: seq<seq<string>>, scans: seq<Scan>, webhooks: seq<Webhook>)
  {
    && i <= |records|
    && seen == seen0 + BatchKeys(records[..i])
    && emitted + NewKeys(seen, records[i..]) == NewKeys(seen0, records)
    && scans == ScansOfKeys(emitted)
    && webhooks == TodayWebhooks(ip, name, scans, cal)
  }

  lemma PassStart(ip: string, name: string, cal: Calendar, seen0: set<seq<string>>, records: seq<Record>)
    ensures PassState(ip, name, cal, seen0, records, 0, seen0, [], [], [])
  {
    assert records[0..] == records;
    assert records[..0] == [];
  }

  lemma NewKeysAdvance(seen0: set<seq<string>>, records: seq<Record>, i: nat, seen: set<seq<string>>, emitted: seq<seq<string>>)
    requires i < |records|
    requires emitted + NewKeys(seen, records[i..]) == NewKeys(seen0, records)
    ensures KeyOf(records[i]) in seen ==> emitted + NewKeys(seen, records[i + 1..]) == NewKeys(seen0, records)
    ensures KeyOf(records[i]) !in seen ==>
      (emitted + [KeyOf(records[i])]) + NewKeys(seen + {KeyOf(records[i])}, records[i + 1..]) == NewKeys(seen0, records)
  {
    var key := KeyOf(records[i]);
    assert records[i..][1..] == records[i + 1..];
    if key !in seen {
      var rest := NewKeys(seen + {key}, records[i + 1..]);
      assert (emitted + [key]) + rest == emitted + ([key] + rest);
    }
  }

  lemma BatchKeysAdvance(records: seq<Record>, i: nat)
    requires i < |records|
    ensures BatchKeys(records[..i + 1]) == BatchKeys(records[..i]) + {KeyOf(records[i])}
  {
    assert records[..i + 1] == records[..i] + [records[i]];
  }

  /** An iteration whose key is already in the seen-set changes nothing but the position. */
  lemma PassSkip(
    ip: string, name: string, cal: Calendar, seen0: set<seq<string>>, records: seq<Record>, i: nat,
    seen: set<seq<string>>, emitted: seq<seq<string>>, scans: seq<Scan>, webhooks: seq<Webhook>)
    requires i < |records| && KeyOf(records[i]) in seen
    requires PassState(ip, name, cal, seen0, records, i, seen, emitted, scans, webhooks)
    ensures PassState(ip, name, cal, seen0, records, i + 1, seen, emitted, scans, webhooks)
  {
    NewKeysAdvance(seen0, records, i, seen, emitted);
    BatchKeysAdvance(records, i);
  }

  /** An iteration whose key is unseen records the key, emits its scan and gates its webhook. */
  lemma PassEmit(
    ip: string, name: string, cal: Calendar, seen0: set<seq<string>>, records: seq<Record>, i: nat,
    seen: set<seq<string>>, emitted: seq<seq<string>>, scans: seq<Scan>, webhooks: seq<Webhook>)
    requires i < |records| && KeyOf(records[i]) !in seen
    requires PassState(ip, name, cal, seen0, records, i, seen, emitted, scans, webhooks)
    ensures var key := KeyOf(records[i]); var scan := ScanOfKey(key);
      PassState(ip, name, cal, seen0, records, i + 1, seen + {key}, emitted + [key], scans + [scan],
        webhooks + (if IsTimestampToday(scan.ts, cal) then [Webhook(ip, name, scan.userid, scan.ts)] else []))
  {
    var key := KeyOf(records[i]);
    NewKeysAdvance(seen0, records, i, seen, emitted);
    BatchKeysAdvance(records, i);
    ScansOfKeysAppend(emitted, key);
    TodayWebhooksAppend(ip, name, scans, ScanOfKey(key), cal);
  }

  lemma PassEnd(
    ip: string, name: string, cal: Calendar, seen0: set<seq<string>>, records: seq<Record>,
    seen: set<seq<string>>, emitted: seq<seq<string>>, scans: seq<Scan>, webhooks: seq<Webhook>)
    requires PassState(ip, name, cal, seen0, records, |records|, seen, emitted, scans, webhooks)
    ensures seen == seen0 + BatchKeys(records)
    ensures scans == ScansOfKeys(NewKeys(seen0, records))
    ensures webhooks == TodayWebhooks(ip, name, scans, cal)
  {
    assert records[..|records|] == records;
  }

  /** The state `monitor_device` keeps for one device across polls. */
  class DeviceMonitor {
    const ip: string
    const name: string
    var seen: set<seq<string>>

    constructor (ip: string, name: string)
      ensures this.ip == ip && this.name == name && seen == {}
    {
      this.ip := ip;
      this.name := name;
      seen := {};
    }

    /**
     * One pass of `for rec in rec_iter`: each record whose key is new is added
     * to the seen-set and printed, and its webhook is enqueued when its
     * timestamp is today.
     */
    method Poll(records: seq<Record>, cal: Calendar) returns (scans: seq<Scan>, webhooks: seq<Webhook>)
      modifies this
      ensures seen == old(seen) + BatchKeys(records)
      ensures scans == ScansOfKeys(NewKeys(old(seen), records))
      ensures webhooks == TodayWebhooks(ip, name, scans, cal)
    {
      ghost var seen0 := seen;
      ghost var emitted: seq<seq<string>> := [];
      scans, webhooks := [], [];
      PassStart(ip, name, cal, seen0, records);
      for i := 0 to |records|
        invariant PassState(ip, name, cal, seen0, records, i, seen, emitted, scans, webhooks)
      {
        var tup := RecordToTuple(records[i]);
        var key := Key(tup);
        var scan := ScanOf(tup);
        if key in seen {
          PassSkip(ip, name, cal, seen0, records, i, seen, emitted, scans, webhooks);
        } else {
          PassEmit(ip, name, cal, seen0, records, i, seen, emitted, scans, webhooks);
          seen := seen + {key};
          emitted := emitted + [key];
          scans := scans + [scan];
          if IsTimestampToday(scan.ts, cal) {
            webhooks := webhooks + [Webhook(ip, name, scan.userid, scan.ts)];
          }
        }
      }
      PassEnd(ip, name, cal, seen0, records, seen, emitted, scans, webhooks);
    }
  }

  /** Two polls over the same records: the second emits nothing and enqueues nothing. */
  method ReplayedPoll(monitor: DeviceMonitor, records: seq<Record>, cal: Calendar)
    returns (first: seq<Scan>, second: seq<Scan>, secondHooks: seq<Webhook>)
    modifies monitor
    ensures second == [] && secondHooks == []
    ensures monitor.seen == old(monitor.seen) + BatchKeys(records)
  {
    var firstHooks;
    first, firstHooks := monitor.Poll(records, cal);
    second, secondHooks := monitor.Poll(records, cal);
    ReplayIsSilent(old(monitor.seen), records);
  }

  // ---------------------------------------------------------------------------
  // The webhook worker's retry loop
  // ---------------------------------------------------------------------------

  /** `max_attempts`. */
  const MaxAttempts: nat := 3
  /** The first backoff, 0.5 seconds, in milliseconds. */
  const FirstBackoffMs: nat := 500

  function Pow2(n: nat): (p: nat)
    ensures p >= 1
  {
    if n == 0 then 1 else 2 * Pow2(n - 1)
  }

  /** The sleeps after `n` failed attempts: 500 ms, doubling each time. */
  function Backoffs(n: nat): (b: seq<nat>)
    ensures |b| == n
  {
    seq(n, i requires 0 <= i < n => FirstBackoffMs * Pow2(i))
  }

  function Sum(s: seq<nat>): nat
  {
    if s == [] then 0 else Sum(s[..|s| - 1]) + s[|s| - 1]
  }

  /** The total backoff after `n` failures is 500 * (2^n - 1) ms. */
  lemma {:induction false} BackoffTotal(n: nat)
    ensures Sum(Backoffs(n)) + FirstBackoffMs == FirstBackoffMs * Pow2(n)
  {
    if n > 0 {
      BackoffTotal(n - 1);
      assert Backoffs(n)[..n - 1] == Backoffs(n - 1);
    }
  }

  /** Whether the `k`-th post of an item returns without raising. */
  function Succeeds(outcomes: seq<bool>, k: nat): bool
  {
    k < |outcomes| && outcomes[k]
  }

  /** The first successful attempt among attempts `k` up to `n`. */
  function FirstSuccess(outcomes: seq<bool>, k: nat, n: nat): (r: Option<nat>)
    requires k <= n
    ensures r.Some? ==> k <= r.value < n && Succeeds(outcomes, r.value)
    ensures r.Some? ==> forall j :: k <= j < r.value ==> !Succeeds(outcomes, j)
    ensures r.None? ==> forall j :: k <= j < n ==> !Succeeds(outcomes, j)
    decreases n - k
  {
    if k == n then None
    else if Succeeds(outcomes, k) then Some(k)
    else FirstSuccess(outcomes, k + 1, n)
  }

  /** What happened to one dequeued item. */
  datatype Delivery = Delivery(delivered: bool, attempts: nat, sleepsMs: seq<nat>)

  /**
   * The specified outcome: stop at the first success, give up after three
   * failures; one to three attempts, one sleep after each failure, and
   * delivered exactly when one of the first three attempts succeeds.
   */
  function ExpectedDelivery(outcomes: seq<bool>): (d: Delivery)
    ensures 1 <= d.attempts <= MaxAttempts
    ensures |d.sleepsMs| == if d.delivered then d.attempts - 1 else d.attempts
    ensures d.delivered <==> exists k :: 0 <= k < MaxAttempts && Succeeds(outcomes, k)
    ensures d.delivered ==> Succeeds(outcomes, d.attempts - 1)
  {
    match FirstSuccess(outcomes, 0, MaxAttempts)
    case Some(k) => Delivery(true, k + 1, Backoffs(k))
    case None => Delivery(false, MaxAttempts, Backoffs(MaxAttempts))
  }

  /** The sleeps double from 500 ms, so at most 3.5 s is spent asleep on one item. */
  lemma DeliveryBounds(outcomes: seq<bool>)
    ensures var d := ExpectedDelivery(outcomes);
      && d.sleepsMs == Backoffs(|d.sleepsMs|)
      && Sum(d.sleepsMs) + FirstBackoffMs == FirstBackoffMs * Pow2(|d.sleepsMs|)
      && Sum(d.sleepsMs) <= 3500
  {
    var d := ExpectedDelivery(outcomes);
    BackoffTotal(|d.sleepsMs|);
    assert Pow2(3) == 8;
  }

  /** The retry loop of `_webhook_worker` for one item. */
  method Deliver(outcomes: seq<bool>) returns (d: Delivery)
    ensures d == ExpectedDelivery(outcomes)
  {
    var attempt: nat := 0;
    var backoff: nat := FirstBackoffMs;
    var sleeps: seq<nat> := [];
    var delivered := false;
    while attempt < MaxAttempts
      invariant attempt <= MaxAttempts
      invariant FirstSuccess(outcomes, 0, MaxAttempts) == FirstSuccess(outcomes, attempt, MaxAttempts)
      invariant backoff == FirstBackoffMs * Pow2(attempt)
      invariant sleeps == Backoffs(attempt)
    {
      if Succeeds(outcomes, attempt) {
        delivered := true;
        break;
      }
      attempt := attempt + 1;
      sleeps := sleeps + [backoff];
      backoff := backoff * 2;
    }
    d := Delivery(delivered, if delivered then attempt + 1 else attempt, sleeps);
  }

  /** The worker draining a run of dequeued items: `task_done` once per item, delivered or not. */
  method ServeQueue(items: seq<Webhook>, outcomes: seq<seq<bool>>) returns (deliveries: seq<Delivery>, tasksDone: nat)
    requires |outcomes| == |items|
    ensures tasksDone == |items| && |deliveries| == |items|
    ensures forall i :: 0 <= i < |items| ==> deliveries[i] == ExpectedDelivery(outcomes[i])
  {
    deliveries, tasksDone := [], 0;
    for i := 0 to |items|
      invariant tasksDone == i && |deliveries| == i
      invariant forall j :: 0 <= j < i ==> deliveries[j] == ExpectedDelivery(outcomes[j])
    {
      var d := Deliver(outcomes[i]);
      deliveries := deliveries + [d];
      tasksDone := tasksDone + 1;
    }
  }
}
