/** Time formatting of utils/time: the hour, minute and second fields of a number of
    seconds, the `[-][H:]MM:SS` clock text, and the match clock relative to sync points. */
module Time {
  import opened Base
  import opened Strings

  // ---------------------------------------------------------------------------
  // Fields of a number of seconds
  // ---------------------------------------------------------------------------

  /** Math.trunc((value / 60 / 60) % 60): the hours field, wrapped modulo 60. */
  function GetHours(value: real): (h: int)
    ensures 0.0 <= value ==> 0 <= h < 60
    ensures value <= 0.0 ==> -60 < h <= 0
  {
    Trunc(Rem60(value / 60.0 / 60.0))
  }

  /** Math.trunc((value / 60) % 60): the minutes field. */
  function GetMinutes(value: real): (m: int)
    ensures 0.0 <= value ==> 0 <= m < 60
    ensures value <= 0.0 ==> -60 < m <= 0
  {
    Trunc(Rem60(value / 60.0))
  }

  /** Math.trunc(value % 60): the seconds field. */
  function GetSeconds(value: real): (s: int)
    ensures 0.0 <= value ==> 0 <= s < 60
    ensures value <= 0.0 ==> -60 < s <= 0
  {
    Trunc(Rem60(value))
  }

  /** Math.floor(value / 60): the whole minutes in `value` seconds. */
  function SecondsToMinutes(value: real): (m: int)
    ensures 60.0 * m as real <= value < 60.0 * m as real + 60.0
  {
    (value / 60.0).Floor
  }

  /** Dividing by 60 commutes with taking the whole part. */
  lemma FloorDiv60(v: real)
    requires 0.0 <= v
    ensures (v / 60.0).Floor == v.Floor / 60
  {
    var n := v.Floor;
    var q := n / 60;
    assert 60 * q <= n < 60 * q + 60;
    assert (60 * q) as real <= v < (60 * q + 60) as real;
  }

  /** For a non-negative number, truncating its JavaScript remainder by 60 is the
      remainder of its whole part. */
  lemma TruncRem60(w: real)
    requires 0.0 <= w
    ensures Trunc(Rem60(w)) == w.Floor % 60
  {
    FloorDiv60(w);
    var n := w.Floor;
    var k := n % 60;
    assert Trunc(w / 60.0) == n / 60;
    assert Rem60(w) == w - 60.0 * (n / 60) as real;
    assert k as real <= Rem60(w) < k as real + 1.0;
  }

  /** The three fields of a non-negative time are those of its whole seconds, written
      in hours, minutes and seconds (hours wrapping modulo 60). */
  lemma WholeSecondsFields(value: real)
    requires 0.0 <= value
    ensures GetSeconds(value) == value.Floor % 60
    ensures GetMinutes(value) == value.Floor / 60 % 60
    ensures GetHours(value) == value.Floor / 60 / 60 % 60
  {
    TruncRem60(value);
    TruncRem60(value / 60.0);
    FloorDiv60(value);
    TruncRem60(value / 60.0 / 60.0);
    FloorDiv60(value / 60.0);
  }

  // ---------------------------------------------------------------------------
  // formatTime
  // ---------------------------------------------------------------------------

  /** The argument of formatTime: a number, or anything else (`is.number` fails). */
  datatype TimeArg = Number(value: real) | NotNumber

  /** A character of the decimal text of an integer. */
  predicate NumeralChar(c: char) { IsDigit(c) || c == '-' }

  /** `0${value}`.slice(-2): the last two characters of the value with a '0' in front. */
  function Pad2(value: int): (s: string)
    ensures |s| == 2
    ensures NumeralChar(s[0]) && NumeralChar(s[1])
  {
    var d := IntToDecimal(value);
    var t := "0" + d;
    assert NumeralChar(t[|t| - 1]) && NumeralChar(t[|t| - 2]) by {
      if value < 0 {
        assert d[1..][|d| - 2] == d[|d| - 1];
      }
    }
    t[|t| - 2..]
  }

  /** A field below 100 is shown as exactly its two decimal digits, zero-padded. */
  lemma Pad2Digits(value: int)
    requires 0 <= value < 100
    ensures Pad2(value) == [DigitChar(value / 10), DigitChar(value % 10)]
    ensures AllDigits(Pad2(value)) && DigitsValue(Pad2(value)) == value
  {
    var pair := [DigitChar(value / 10), DigitChar(value % 10)];
    if value < 10 {
      assert IntToDecimal(value) == [DigitChar(value)];
      assert "0" + IntToDecimal(value) == pair;
    } else {
      assert NatToDecimal(value / 10) == [DigitChar(value / 10)];
      assert IntToDecimal(value) == pair;
      assert ("0" + pair)[1..] == pair;
    }
    assert pair[..1] == [pair[0]];
    assert DigitsValue(pair) == DigitsValue([pair[0]]) * 10 + value % 10;
    assert DigitsValue([pair[0]]) == value / 10 by {
      assert [pair[0]][..0] == [];
    }
  }

  /** The tens and units digits of a number are those of its last two digits. */
  lemma LastTwoDigits(value: nat)
    ensures (value % 100) / 10 == value / 10 % 10 && value % 100 % 10 == value % 10
  {
    var q, t, u := value / 100, (value % 100) / 10, value % 10;
    assert value == 10 * (10 * q + t) + u;
    assert value / 10 == 10 * q + t;
  }

  /** The decimal text of a number from 10 up ends in its tens and units digits. */
  lemma DecimalEndsInLastTwo(value: nat)
    requires 10 <= value
    ensures var d := NatToDecimal(value);
      |d| >= 2 && d[|d| - 2..] == [DigitChar(value / 10 % 10), DigitChar(value % 10)]
  {
    var w := NatToDecimal(value / 10);
    assert NatToDecimal(value) == w + [DigitChar(value % 10)];
    assert w[|w| - 1] == DigitChar(value / 10 % 10);
  }

  /** A field of 100 or more loses its leading digits: only its last two are shown, so
      minute 120 of a match reads "20". */
  lemma Pad2LastTwoDigits(value: int)
    requires 0 <= value
    ensures Pad2(value) == [DigitChar(value / 10 % 10), DigitChar(value % 10)]
    ensures Pad2(value) == Pad2(value % 100)
  {
    if value >= 10 {
      var d := NatToDecimal(value);
      DecimalEndsInLastTwo(value);
      assert Pad2(value) == ("0" + d)[|d| - 1..] == d[|d| - 2..];
    } else {
      Pad2Digits(value);
    }
    LastTwoDigits(value);
    Pad2Digits(value % 100);
  }

  /** formatTime(time, displayHours, inverted): `[-][H:]MM:SS`. */
  function FormatTime(time: TimeArg, displayHours: bool, inverted: bool): string
    decreases if time.NotNumber? then 1 else 0
  {
    match time
    case NotNumber => FormatTime(Number(0.0), displayHours, inverted)
    case Number(t) =>
      var hours := GetHours(t);
      (if inverted && t > 0.0 then "-" else "")
      + (if displayHours || hours > 0 then IntToDecimal(hours) + ":" else "")
      + Pad2(GetMinutes(t)) + ":" + Pad2(GetSeconds(t))
  }

  /** The fields read back from a clock text. */
  datatype ClockFields = ClockFields(negative: bool, hours: Option<nat>, minutes: nat, seconds: nat)

  /** Reads `[-][H:]MM:SS` back into its fields; None when the text has another shape. */
  function ParseClock(s: string): Option<ClockFields> {
    if |s| > 0 && s[0] == '-' then ParseUnsignedClock(s[1..], true) else ParseUnsignedClock(s, false)
  }

  /** Reads `[H:]MM:SS`, the clock text after any minus sign. */
  function ParseUnsignedClock(body: string, negative: bool): Option<ClockFields> {
    var n := |body|;
    if n < 5 || body[n - 3] != ':' || !AllDigits(body[n - 5..n - 3]) || !AllDigits(body[n - 2..]) then
      None
    else
      var minutes := DigitsValue(body[n - 5..n - 3]);
      var seconds := DigitsValue(body[n - 2..]);
      var prefix := body[..n - 5];
      if prefix == [] then
        Some(ClockFields(negative, None, minutes, seconds))
      else if |prefix| >= 2 && prefix[|prefix| - 1] == ':' && AllDigits(prefix[..|prefix| - 1]) then
        Some(ClockFields(negative, Some(DigitsValue(prefix[..|prefix| - 1])), minutes, seconds))
      else
        None
  }

  /** The unsigned parser reads back `[H:]MM:SS` laid out from digit fields. */
  lemma ParseUnsignedLayout(negative: bool, hours: string, mm: string, ss: string)
    requires |mm| == 2 && |ss| == 2 && AllDigits(mm) && AllDigits(ss) && AllDigits(hours)
    ensures ParseUnsignedClock((if hours == [] then "" else hours + ":") + mm + ":" + ss, negative)
      == Some(ClockFields(negative, if hours == [] then None else Some(DigitsValue(hours)),
                          DigitsValue(mm), DigitsValue(ss)))
  {
    var hoursText := if hours == [] then "" else hours + ":";
    var tail := mm + ":" + ss;
    var body := hoursText + mm + ":" + ss;
    assert body == hoursText + tail;
    var n := |body|;
    assert n == |hoursText| + 5 && body[n - 3] == ':';
    assert body[n - 5..n - 3] == mm by { assert body[n - 5..n - 3] == tail[..2]; }
    assert body[n - 2..] == ss by { assert body[n - 2..] == tail[3..]; }
    assert body[..n - 5] == hoursText;
    if hours != [] {
      assert hoursText[|hoursText| - 1] == ':';
      assert hoursText[..|hoursText| - 1] == hours;
    }
  }

  /** ParseClock reads back any text laid out as `[-][H:]MM:SS` with digit fields. */
  lemma ParseClockLayout(negative: bool, hours: string, mm: string, ss: string)
    requires |mm| == 2 && |ss| == 2 && AllDigits(mm) && AllDigits(ss) && AllDigits(hours)
    ensures ParseClock((if negative then "-" else "") + (if hours == [] then "" else hours + ":") + mm + ":" + ss)
      == Some(ClockFields(negative, if hours == [] then None else Some(DigitsValue(hours)),
                          DigitsValue(mm), DigitsValue(ss)))
  {
    var hoursText := if hours == [] then "" else hours + ":";
    var body := hoursText + mm + ":" + ss;
    var s := (if negative then "-" else "") + hoursText + mm + ":" + ss;
    ParseUnsignedLayout(negative, hours, mm, ss);
    assert body[0] != '-' by {
      if hours == [] { assert body[0] == mm[0]; } else { assert body[0] == hours[0]; }
    }
    if negative {
      Regroup("-", hoursText, mm, ":", ss);
      assert s[0] == '-' && s[1..] == body;
      assert ParseClock(s) == ParseUnsignedClock(body, true);
    } else {
      Regroup("", hoursText, mm, ":", ss);
      assert s == body;
      assert ParseClock(s) == ParseUnsignedClock(body, false);
    }
  }

  lemma Regroup(a: string, b: string, c: string, d: string, e: string)
    ensures a + b + c + d + e == a + (b + c + d + e)
  {
  }

  /** The clock text of a non-negative time reads back as: a leading '-' exactly when
      `inverted` and the time is positive; an hours segment exactly when `displayHours`
      or the hours field is positive, holding that field; then the minutes and the
      seconds fields as two digits each. */
  lemma FormatTimeFields(t: real, displayHours: bool, inverted: bool)
    requires 0.0 <= t
    ensures GetHours(t) >= 0
    ensures ParseClock(FormatTime(Number(t), displayHours, inverted))
         == Some(ClockFields(inverted && t > 0.0,
                             if displayHours || GetHours(t) > 0 then Some(GetHours(t)) else None,
                             GetMinutes(t), GetSeconds(t)))
  {
    var h, m, sec := GetHours(t), GetMinutes(t), GetSeconds(t);
    Pad2Digits(m);
    Pad2Digits(sec);
    DecimalRoundTrip(h);
    var hours := if displayHours || h > 0 then NatToDecimal(h) else "";
    ParseClockLayout(inverted && t > 0.0, hours, Pad2(m), Pad2(sec));
  }

  /** A value that is not a number is formatted as time 0. */
  lemma FormatNotNumber(displayHours: bool, inverted: bool)
    ensures FormatTime(NotNumber, displayHours, inverted) == if displayHours then "0:00:00" else "00:00"
  {
    assert GetHours(0.0) == 0 && GetMinutes(0.0) == 0 && GetSeconds(0.0) == 0;
    Pad2Digits(0);
    assert IntToDecimal(0) == "0";
  }

  /** Math.trunc and JavaScript's `%` keep the sign of their operand, so the fields of a
      negative time are the negated fields of its magnitude. */
  lemma NegativeTimeFields(t: real)
    requires t < 0.0
    ensures GetSeconds(t) == -GetSeconds(-t)
    ensures GetMinutes(t) == -GetMinutes(-t)
    ensures GetHours(t) == -GetHours(-t)
  {
    Rem60Odd(-t);
    Rem60Odd(-t / 60.0);
    assert t / 60.0 == -(-t / 60.0);
    Rem60Odd(-t / 60.0 / 60.0);
    assert t / 60.0 / 60.0 == -(-t / 60.0 / 60.0);
  }

  /** The truncated remainder by 60 of -x is minus that of x. */
  lemma Rem60Odd(x: real)
    ensures Rem60(-x) == -Rem60(x) && Trunc(-Rem60(x)) == -Trunc(Rem60(x))
  {
    assert -x / 60.0 == -(x / 60.0);
    assert Trunc(-(x / 60.0)) == -Trunc(x / 60.0);
    assert Trunc(-Rem60(x)) == -Trunc(Rem60(x));
  }

  /** The fields of -75 seconds: no hours, minus one minute, minus 15 seconds; and of
      -15 seconds: no hours or minutes, minus 15 seconds. */
  lemma NegativeExampleFields()
    ensures GetHours(-75.0) == 0 && GetMinutes(-75.0) == -1 && GetSeconds(-75.0) == -15
    ensures GetHours(-15.0) == 0 && GetMinutes(-15.0) == 0 && GetSeconds(-15.0) == -15
  {
    NegativeTimeFields(-75.0);
    WholeSecondsFields(75.0);
    assert (75.0).Floor == 75;
    NegativeTimeFields(-15.0);
    WholeSecondsFields(15.0);
    assert (15.0).Floor == 15;
  }

  /** formatTime(-75) shows "-1:15": the minus sign comes from the minutes field, and
      the seconds field, -15, loses its own to the two-character slice. */
  lemma FormatMinus75()
    ensures FormatTime(Number(-75.0), false, false) == "-1:15"
  {
    NegativeExampleFields();
    assert IntToDecimal(-1) == "-1";
    assert IntToDecimal(-15) == "-15";
    assert Pad2(-1) == "-1";
    assert Pad2(-15) == "15";
  }

  /** formatTime(-15) shows "00:15": the minutes field of a time above -60 is zero,
      and no minus sign is left anywhere. */
  lemma FormatMinus15()
    ensures FormatTime(Number(-15.0), false, false) == "00:15"
  {
    NegativeExampleFields();
    assert IntToDecimal(-15) == "-15";
    assert Pad2(-15) == "15";
    Pad2Digits(0);
  }

  /** The minus sign is driven by `inverted` only for a positive time. */
  lemma InvertedNeedsPositiveTime(t: real, displayHours: bool)
    requires t <= 0.0
    ensures FormatTime(Number(t), displayHours, true) == FormatTime(Number(t), displayHours, false)
  {
  }

  // ---------------------------------------------------------------------------
  // matchTime
  // ---------------------------------------------------------------------------

  /** A sync point: at media `time`, the period's clock shows `start` seconds, and the
      period lasts `duration` seconds before added time begins. */
  datatype SyncPoint = SyncPoint(time: real, start: real, duration: real)

  predicate SortedByTimeDesc(s: seq<SyncPoint>) {
    forall i, j :: 0 <= i < j < |s| ==> s[i].time >= s[j].time
  }

  /** Inserts x before the first element whose time is not greater, which keeps equal
      times in their original order. */
  function InsertByTimeDesc(x: SyncPoint, s: seq<SyncPoint>): (r: seq<SyncPoint>)
    requires SortedByTimeDesc(s)
    ensures |r| == |s| + 1
    ensures SortedByTimeDesc(r)
    ensures multiset(r) == multiset(s) + multiset{x}
    ensures r[0] == x || (|s| > 0 && r[0] == s[0])
  {
    if s == [] || s[0].time <= x.time then
      ConsSorted(x, s);
      [x] + s
    else
      SortedTail(s);
      var rest := InsertByTimeDesc(x, s[1..]);
      InsertedBehindHead(s, x, rest);
      assert s[0].time >= rest[0].time by {
        if rest[0] != x {
          assert rest[0] == s[1] && s[0].time >= s[1].time;
        }
      }
      ConsSorted(s[0], rest);
      [s[0]] + rest
  }

  /** Putting the head back in front of the tail with x inserted gives the whole with x. */
  lemma InsertedBehindHead(s: seq<SyncPoint>, x: SyncPoint, rest: seq<SyncPoint>)
    requires |s| > 0 && multiset(rest) == multiset(s[1..]) + multiset{x}
    ensures multiset([s[0]] + rest) == multiset(s) + multiset{x}
  {
    assert s == [s[0]] + s[1..];
  }

  lemma SortedTail(s: seq<SyncPoint>)
    requires SortedByTimeDesc(s) && |s| > 0
    ensures SortedByTimeDesc(s[1..])
  {
    forall i, j | 0 <= i < j < |s| - 1 ensures s[1..][i].time >= s[1..][j].time {
      assert s[1..][i] == s[i + 1] && s[1..][j] == s[j + 1];
    }
  }

  /** An element no earlier than the head of a sorted sequence can go in front of it. */
  lemma ConsSorted(h: SyncPoint, s: seq<SyncPoint>)
    requires SortedByTimeDesc(s) && (|s| > 0 ==> h.time >= s[0].time)
    ensures SortedByTimeDesc([h] + s)
  {
    var r := [h] + s;
    forall i, j | 0 <= i < j < |r| ensures r[i].time >= r[j].time {
      if i == 0 {
        assert r[j] == s[j - 1] && s[0].time >= s[j - 1].time;
      } else {
        assert r[i] == s[i - 1] && r[j] == s[j - 1];
      }
    }
  }

  /** syncPoints.sort((a, b) => b.time - a.time): a stable sort by descending time. The
      source sorts the caller's array in place; here the sorted sequence is returned. */
  function SortByTimeDesc(s: seq<SyncPoint>): (r: seq<SyncPoint>)
    ensures SortedByTimeDesc(r)
    ensures multiset(r) == multiset(s)
  {
    if s == [] then []
    else
      assert s == [s[0]] + s[1..];
      InsertByTimeDesc(s[0], SortByTimeDesc(s[1..]))
  }

  /** The points of `s` whose time is exactly `t`, in their order in `s`. */
  function AtTime(s: seq<SyncPoint>, t: real): seq<SyncPoint> {
    if s == [] then [] else (if s[0].time == t then [s[0]] else []) + AtTime(s[1..], t)
  }

  lemma AtTimeCons(h: SyncPoint, r: seq<SyncPoint>, t: real)
    ensures AtTime([h] + r, t) == (if h.time == t then [h] else []) + AtTime(r, t)
  {
    assert ([h] + r)[1..] == r;
  }

  /** Inserting x leaves the points of every other time in order and puts x in front of
      the points that share its time. */
  lemma {:induction false} InsertStable(x: SyncPoint, s: seq<SyncPoint>, t: real)
    requires SortedByTimeDesc(s)
    ensures AtTime(InsertByTimeDesc(x, s), t) == (if x.time == t then [x] else []) + AtTime(s, t)
    decreases |s|
  {
    var r := InsertByTimeDesc(x, s);
    if s == [] || s[0].time <= x.time {
      assert r == [x] + s;
      AtTimeCons(x, s, t);
    } else {
      SortedTail(s);
      var rest := InsertByTimeDesc(x, s[1..]);
      assert r == [s[0]] + rest;
      InsertStable(x, s[1..], t);
      AtTimeCons(s[0], rest, t);
      assert AtTime(s, t) == (if s[0].time == t then [s[0]] else []) + AtTime(s[1..], t);
      assert x.time == t ==> s[0].time != t;
    }
  }

  /** The sort is stable: the points of any one time keep their order from the input. */
  lemma {:induction false} SortByTimeDescStable(s: seq<SyncPoint>, t: real)
    ensures AtTime(SortByTimeDesc(s), t) == AtTime(s, t)
  {
    if s != [] {
      SortByTimeDescStable(s[1..], t);
      InsertStable(s[0], SortByTimeDesc(s[1..]), t);
    }
  }

  /** An element with no element of its time before it is the first of its time. */
  lemma {:induction false} FirstOfTime(s: seq<SyncPoint>, k: nat)
    requires k < |s| && forall i :: 0 <= i < k ==> s[i].time != s[k].time
    ensures AtTime(s, s[k].time) != [] && AtTime(s, s[k].time)[0] == s[k]
  {
    if k > 0 {
      assert s[1..][k - 1] == s[k];
      forall i | 0 <= i < k - 1 ensures s[1..][i].time != s[k].time {
        assert s[1..][i] == s[i + 1];
      }
      FirstOfTime(s[1..], k - 1);
    }
  }

  /** The last element is the last of its time. */
  lemma {:induction false} LastOfTime(s: seq<SyncPoint>)
    requires |s| > 0
    ensures var a := AtTime(s, s[|s| - 1].time); a != [] && a[|a| - 1] == s[|s| - 1]
    decreases |s|
  {
    if |s| > 1 {
      assert s[1..][|s| - 2] == s[|s| - 1];
      LastOfTime(s[1..]);
    }
  }

  /** The index of the first element whose time is at most `time` (|s| when none is). */
  function FirstAtOrBefore(s: seq<SyncPoint>, time: real): (k: nat)
    ensures k <= |s|
    ensures forall i :: 0 <= i < k ==> s[i].time > time
    ensures k < |s| ==> s[k].time <= time
  {
    if s == [] then 0
    else if s[0].time <= time then 0
    else 1 + FirstAtOrBefore(s[1..], time)
  }

  /** The sync point matchTime measures from: the first of the sorted points whose time
      is at most `time`, or else the last one. */
  function ChooseSyncPoint(syncPoints: seq<SyncPoint>, time: real): (sp: SyncPoint)
    requires |syncPoints| > 0
    ensures sp in syncPoints
    ensures (exists p :: p in syncPoints && p.time <= time) ==>
              sp.time <= time && forall p :: p in syncPoints && p.time <= time ==> p.time <= sp.time
    ensures (forall p :: p in syncPoints ==> p.time > time) ==>
              forall p :: p in syncPoints ==> sp.time <= p.time
  {
    var ordered := SortByTimeDesc(syncPoints);
    SameMembers(syncPoints, ordered);
    var k := FirstAtOrBefore(ordered, time);
    SortedPick(ordered, time);
    if k < |ordered| then ordered[k] else ordered[|ordered| - 1]
  }

  /** Among sync points that share the chosen time, the sort being stable, the chosen
      one is the first in the caller's order; in the fallback, where every point is
      later than `time`, it is the last. */
  lemma ChooseSyncPointTieBreak(syncPoints: seq<SyncPoint>, time: real)
    requires |syncPoints| > 0
    ensures var sp := ChooseSyncPoint(syncPoints, time);
      var tied := AtTime(syncPoints, sp.time);
      && tied != []
      && ((exists p :: p in syncPoints && p.time <= time) ==> tied[0] == sp)
      && ((forall p :: p in syncPoints ==> p.time > time) ==> tied[|tied| - 1] == sp)
  {
    var ordered := SortByTimeDesc(syncPoints);
    var k := FirstAtOrBefore(ordered, time);
    var sp := ChooseSyncPoint(syncPoints, time);
    assert sp == if k < |ordered| then ordered[k] else ordered[|ordered| - 1];
    SameMembers(syncPoints, ordered);
    SortByTimeDescStable(syncPoints, sp.time);
    if k < |ordered| {
      FirstOfTime(ordered, k);
      assert exists p :: p in syncPoints && p.time <= time by {
        assert ordered[k] in ordered;
      }
    } else {
      LastOfTime(ordered);
      assert !exists p :: p in syncPoints && p.time <= time;
    }
  }

  lemma SameMembers(a: seq<SyncPoint>, b: seq<SyncPoint>)
    requires multiset(a) == multiset(b)
    ensures forall p :: p in a <==> p in b
  {
    forall p ensures p in a <==> p in b {
      assert p in a <==> p in multiset(a);
      assert p in b <==> p in multiset(b);
    }
  }

  /** In a sequence sorted by descending time, the first element at or before `time` is
      the latest such element, and the last element is the earliest of all. */
  lemma SortedPick(ordered: seq<SyncPoint>, time: real)
    requires SortedByTimeDesc(ordered) && |ordered| > 0
    ensures var k := FirstAtOrBefore(ordered, time);
      && (k < |ordered| ==> forall p :: p in ordered && p.time <= time ==> p.time <= ordered[k].time)
      && (k == |ordered| ==> forall p :: p in ordered ==> p.time > time)
      && forall p :: p in ordered ==> ordered[|ordered| - 1].time <= p.time
  {
    var k := FirstAtOrBefore(ordered, time);
    PickAt(ordered, time, k);
  }

  lemma PickAt(ordered: seq<SyncPoint>, time: real, k: nat)
    requires SortedByTimeDesc(ordered) && 0 < |ordered| && k <= |ordered|
    requires forall i :: 0 <= i < k ==> ordered[i].time > time
    requires k < |ordered| ==> ordered[k].time <= time
    ensures k < |ordered| ==> forall p :: p in ordered && p.time <= time ==> p.time <= ordered[k].time
    ensures k == |ordered| ==> forall p :: p in ordered ==> p.time > time
    ensures forall p :: p in ordered ==> ordered[|ordered| - 1].time <= p.time
  {
    forall p | p in ordered
      ensures k < |ordered| && p.time <= time ==> p.time <= ordered[k].time
      ensures k == |ordered| ==> p.time > time
      ensures ordered[|ordered| - 1].time <= p.time
    {
      var j :| 0 <= j < |ordered| && ordered[j] == p;
      if k < |ordered| && p.time <= time {
        assert k <= j;
      }
    }
  }

  /** The match clock before rendering. */
  datatype MatchClock = MatchClock(minutes: int, addedTime: bool, addedMinutes: int, seconds: int)

  /** Math.max(time - syncPoint.time, 0): seconds elapsed in the period, never negative. */
  function TimeIntoPeriod(time: real, sp: SyncPoint): (e: real)
    ensures 0.0 <= e
    ensures sp.time <= time ==> sp.time + e == time
  {
    Max(time - sp.time, 0.0)
  }

  /** The fields of the match clock at `time`, measured from sync point `sp`. */
  function ClockAt(time: real, sp: SyncPoint): MatchClock {
    var timeIntoPeriod := TimeIntoPeriod(time, sp);
    var seconds := GetSeconds(timeIntoPeriod);
    var minutes := SecondsToMinutes(sp.start + timeIntoPeriod - seconds as real);
    var minutesIntoPeriod := SecondsToMinutes(timeIntoPeriod - seconds as real);
    var periodMinutes := SecondsToMinutes(sp.duration);
    MatchClock(minutes, minutesIntoPeriod >= periodMinutes,
               minutesIntoPeriod - (if minutesIntoPeriod <= periodMinutes then minutesIntoPeriod else periodMinutes),
               seconds)
  }

  /** Whole minutes elapsed in the period. */
  function MinutesIntoPeriod(time: real, sp: SyncPoint): int {
    (TimeIntoPeriod(time, sp) / 60.0).Floor
  }

  /** The clock's seconds are the elapsed seconds modulo a minute; added time shows
      exactly when the whole minutes elapsed reach the period's whole minutes, and then
      counts the minutes beyond them; when the period starts on a whole minute, the
      minutes shown are that minute plus the whole minutes elapsed. */
  lemma ClockAtFields(time: real, sp: SyncPoint)
    ensures var c := ClockAt(time, sp);
      && 0 <= c.seconds < 60
      && c.seconds == TimeIntoPeriod(time, sp).Floor % 60
      && (c.addedTime <==> MinutesIntoPeriod(time, sp) >= SecondsToMinutes(sp.duration))
      && c.addedMinutes == (if c.addedTime then MinutesIntoPeriod(time, sp) - SecondsToMinutes(sp.duration) else 0)
      && (sp.start == 60.0 * SecondsToMinutes(sp.start) as real ==>
            c.minutes == SecondsToMinutes(sp.start) + MinutesIntoPeriod(time, sp))
  {
    var e := TimeIntoPeriod(time, sp);
    WholeSecondsFields(e);
    FloorDiv60(e);
    var s := GetSeconds(e);
    var n := e.Floor;
    var q := n / 60;
    assert n == 60 * q + s;
    assert e - s as real == 60.0 * q as real + (e - n as real);
    assert SecondsToMinutes(e - s as real) == q;
    var k := SecondsToMinutes(sp.start);
    if sp.start == 60.0 * k as real {
      assert sp.start + e - s as real == 60.0 * (k + q) as real + (e - n as real);
    }
  }

  /** Before every sync point the clock stands at the earliest point's start minute. */
  lemma ClockBeforeFirstSyncPoint(time: real, syncPoints: seq<SyncPoint>)
    requires |syncPoints| > 0
    requires forall p :: p in syncPoints ==> time < p.time
    ensures var sp := ChooseSyncPoint(syncPoints, time);
      && (forall p :: p in syncPoints ==> sp.time <= p.time)
      && ClockAt(time, sp).seconds == 0
      && ClockAt(time, sp).minutes == SecondsToMinutes(sp.start)
  {
    var sp := ChooseSyncPoint(syncPoints, time);
    assert TimeIntoPeriod(time, sp) == 0.0;
    assert GetSeconds(0.0) == 0;
  }

  /** `${format(minutes)}${addedTime ? `+${format(addedMinutes)}` : ''}:${format(seconds)}` */
  function RenderClock(c: MatchClock): string {
    Pad2(c.minutes) + (if c.addedTime then "+" + Pad2(c.addedMinutes) else "") + ":" + Pad2(c.seconds)
  }

  /** The rendered clock carries a '+' exactly when it shows added time, and ends in the
      two digits of its seconds. */
  lemma RenderClockShape(c: MatchClock)
    requires 0 <= c.seconds < 60
    ensures var r := RenderClock(c);
      && ('+' in r <==> c.addedTime)
      && |r| == (if c.addedTime then 8 else 5)
      && r[|r| - 3] == ':'
      && AllDigits(r[|r| - 2..]) && DigitsValue(r[|r| - 2..]) == c.seconds
  {
    var m, a, p := Pad2(c.minutes), Pad2(c.addedMinutes), Pad2(c.seconds);
    var head := m + (if c.addedTime then "+" + a else "");
    assert RenderClock(c) == head + ":" + p;
    ClockHead(m, a, c.addedTime);
    ClockTail(head, p);
    Pad2Digits(c.seconds);
  }

  /** Read back of the rendered clock: it opens with the two characters of the minutes;
      when added time shows, a '+' and the two characters of the added minutes follow; and
      each two-digit field reads back as its value modulo 100 when that value is not
      negative. */
  lemma RenderClockFields(c: MatchClock)
    ensures var r := RenderClock(c);
      && |r| >= 5 && r[..2] == Pad2(c.minutes) && r[|r| - 2..] == Pad2(c.seconds)
      && (c.addedTime ==> r[2] == '+' && r[3..5] == Pad2(c.addedMinutes))
      && (!c.addedTime ==> r[2] == ':')
      && (0 <= c.minutes ==> AllDigits(r[..2]) && DigitsValue(r[..2]) == c.minutes % 100)
      && (c.addedTime && 0 <= c.addedMinutes ==>
            AllDigits(r[3..5]) && DigitsValue(r[3..5]) == c.addedMinutes % 100)
      && (0 <= c.seconds ==> AllDigits(r[|r| - 2..]) && DigitsValue(r[|r| - 2..]) == c.seconds % 100)
  {
    ClockLayout(Pad2(c.minutes), Pad2(c.addedMinutes), Pad2(c.seconds), c.addedTime);
    if 0 <= c.minutes { Pad2ReadsBack(c.minutes); }
    if 0 <= c.addedMinutes { Pad2ReadsBack(c.addedMinutes); }
    if 0 <= c.seconds { Pad2ReadsBack(c.seconds); }
  }

  /** Where the three two-character fields sit in `mm[+aa]:ss`. */
  lemma ClockLayout(m: string, a: string, p: string, addedTime: bool)
    requires |m| == 2 && |a| == 2 && |p| == 2
    ensures var r := m + (if addedTime then "+" + a else "") + ":" + p;
      && |r| >= 5 && r[..2] == m && r[|r| - 2..] == p
      && (addedTime ==> r[2] == '+' && r[3..5] == a)
      && (!addedTime ==> r[2] == ':')
  {
    var r := m + (if addedTime then "+" + a else "") + ":" + p;
    if addedTime {
      assert r == m + "+" + a + ":" + p;
      assert r[..2] == m && r[3..5] == a && r[|r| - 2..] == p;
    } else {
      assert r == m + ":" + p;
      assert r[..2] == m && r[|r| - 2..] == p;
    }
  }

  /** A non-negative field shows the two digits of its value modulo 100. */
  lemma Pad2ReadsBack(value: int)
    requires 0 <= value
    ensures AllDigits(Pad2(value)) && DigitsValue(Pad2(value)) == value % 100
  {
    Pad2LastTwoDigits(value);
    Pad2Digits(value % 100);
  }

  /** Two numeral characters hold no '+'. */
  lemma NoPlusInPair(p: string)
    requires |p| == 2 && NumeralChar(p[0]) && NumeralChar(p[1])
    ensures '+' !in p
  {
    assert p == [p[0], p[1]];
  }

  /** The part before the seconds' colon: five characters with a '+' in the middle when
      added time shows, else the two minute characters. */
  lemma ClockHead(m: string, a: string, addedTime: bool)
    requires |m| == 2 && NumeralChar(m[0]) && NumeralChar(m[1]) && |a| == 2
    ensures var head := m + (if addedTime then "+" + a else "");
      && |head| == (if addedTime then 5 else 2)
      && ('+' in head <==> addedTime)
  {
    if addedTime {
      assert (m + "+" + a)[2] == '+';
    } else {
      assert m + "" == m;
      NoPlusInPair(m);
    }
  }

  /** `head:ss` has the colon three from the end, the seconds' two characters last, and a
      '+' exactly when the head has one. */
  lemma ClockTail(head: string, p: string)
    requires |p| == 2 && NumeralChar(p[0]) && NumeralChar(p[1])
    ensures var r := head + ":" + p;
      && |r| == |head| + 3 && r[|r| - 3] == ':' && r[|r| - 2..] == p
      && ('+' in r <==> '+' in head)
  {
    var r := head + ":" + p;
    assert r[|r| - 2..] == p;
    NoPlusInPair(p);
    if '+' in r {
      var k :| 0 <= k < |r| && r[k] == '+';
      assert head[k] == '+';
    }
    if '+' in head {
      var k :| 0 <= k < |head| && head[k] == '+';
      assert r[k] == '+';
    }
  }

  /** matchTime(time, syncPoints); None where the source fails on an empty list. */
  function MatchTime(time: real, syncPoints: seq<SyncPoint>): (r: Option<string>)
    ensures r.Some? <==> |syncPoints| > 0
    ensures r.Some? ==> ('+' in r.value <==> ClockAt(time, ChooseSyncPoint(syncPoints, time)).addedTime)
    ensures r.Some? ==> var c := ClockAt(time, ChooseSyncPoint(syncPoints, time));
      && |r.value| == (if c.addedTime then 8 else 5)
      && (0 <= c.minutes ==> AllDigits(r.value[..2]) && DigitsValue(r.value[..2]) == c.minutes % 100)
      && (c.addedTime ==> r.value[2] == '+' && AllDigits(r.value[3..5]) && DigitsValue(r.value[3..5]) == c.addedMinutes % 100)
      && r.value[|r.value| - 3] == ':'
      && AllDigits(r.value[|r.value| - 2..]) && DigitsValue(r.value[|r.value| - 2..]) == c.seconds
  {
    if syncPoints == [] then None
    else
      var c := ClockAt(time, ChooseSyncPoint(syncPoints, time));
      ClockAtFields(time, ChooseSyncPoint(syncPoints, time));
      RenderClockShape(c);
      RenderClockFields(c);
      Some(RenderClock(c))
  }
}
