/**
  The voice recorder's file names and the date-range listing of recordings.
  A recording is saved as `records/YYYYMMDD-HHMMSS.wav`; the listing keeps
  the `.wav` names whose text before the first `-` parses as a date under
  `datetime.strptime(..., '%Y%m%d')`, drops those outside an inclusive date
  window, and sorts the rest by date, stably.
 */
module Recordings {
  import opened Wrappers
  import opened Seqs
  import opened Sorting
  import opened Text

  // ---------------------------------------------------------------------
  // Dates

  /** A calendar date, as `datetime.date` holds it. */
  datatype Date = Date(year: int, month: int, day: int)

  predicate IsLeap(y: int) {
    y % 4 == 0 && (y % 100 != 0 || y % 400 == 0)
  }

  /** The proleptic Gregorian month lengths `datetime` uses. */
  function DaysInMonth(y: int, m: int): (n: int)
    requires 1 <= m <= 12
    ensures 28 <= n <= 31
  {
    if m == 2 then (if IsLeap(y) then 29 else 28)
    else if m == 4 || m == 6 || m == 9 || m == 11 then 30
    else 31
  }

  /** The dates `datetime.date` accepts: years `MINYEAR` 1 to `MAXYEAR` 9999. */
  predicate ValidDate(d: Date) {
    1 <= d.year <= 9999 && 1 <= d.month <= 12 && 1 <= d.day <= DaysInMonth(d.year, d.month)
  }

  /** `a < b` on dates: by year, then month, then day. */
  predicate Before(a: Date, b: Date) {
    a.year < b.year || (a.year == b.year && (a.month < b.month || (a.month == b.month && a.day < b.day)))
  }

  /** `a <= b` on dates. */
  predicate NotAfter(a: Date, b: Date) {
    !Before(b, a)
  }

  lemma BeforeIsStrictOrder(a: Date, b: Date, c: Date)
    ensures !Before(a, a)
    ensures Before(a, b) && Before(b, c) ==> Before(a, c)
    ensures a != b ==> Before(a, b) || Before(b, a)
  {
  }

  // ---------------------------------------------------------------------
  // Digits

  predicate IsDigit(c: char) {
    '0' <= c <= '9'
  }

  function DigitValue(c: char): (n: int)
    requires IsDigit(c)
    ensures 0 <= n <= 9
  {
    c as int - '0' as int
  }

  /** `n` in two digits, zero-padded, as `%m`, `%d`, `%H`, `%M` and `%S` write it. */
  function Pad2(n: int): (s: string)
    requires 0 <= n < 100
    ensures |s| == 2 && IsDigit(s[0]) && IsDigit(s[1])
    ensures DigitValue(s[0]) * 10 + DigitValue(s[1]) == n
  {
    [DigitChar(n / 10), DigitChar(n % 10)]
  }

  /** `n` in four digits, zero-padded, as `%Y` writes it. */
  function Pad4(n: int): (s: string)
    requires 0 <= n < 10000
    ensures |s| == 4 && forall k :: 0 <= k < 4 ==> IsDigit(s[k])
    ensures FourDigitValue(s) == n
  {
    Pad2(n / 100) + Pad2(n % 100)
  }

  function FourDigitValue(s: string): int
    requires |s| >= 4 && forall k :: 0 <= k < 4 ==> IsDigit(s[k])
  {
    DigitValue(s[0]) * 1000 + DigitValue(s[1]) * 100 + DigitValue(s[2]) * 10 + DigitValue(s[3])
  }

  // ---------------------------------------------------------------------
  // strptime(s, '%Y%m%d')

  /**
    The alternatives of `%m`, `1[0-2]|0[1-9]|[1-9]`, in the order the regular
    expression tries them: the month and the characters it takes, when
    alternative `alt` matches at the start of `r`.
   */
  function MonthAlt(r: string, alt: nat): (m: Option<(int, nat)>)
    ensures m.Some? ==> 1 <= m.value.0 <= 12 && 1 <= m.value.1 <= 2 && m.value.1 <= |r|
  {
    if alt == 0 then
      if |r| >= 2 && r[0] == '1' && '0' <= r[1] <= '2' then Some((10 + DigitValue(r[1]), 2)) else None
    else if alt == 1 then
      if |r| >= 2 && r[0] == '0' && '1' <= r[1] <= '9' then Some((DigitValue(r[1]), 2)) else None
    else if alt == 2 then
      if |r| >= 1 && '1' <= r[0] <= '9' then Some((DigitValue(r[0]), 1)) else None
    else None
  }

  /**
    The alternatives of `%d`, `3[01]|[12]\d|0[1-9]|[1-9]| [1-9]`, in the order
    the regular expression tries them.
   */
  function DayAlt(r: string, alt: nat): (d: Option<(int, nat)>)
    ensures d.Some? ==> 1 <= d.value.0 <= 31 && 1 <= d.value.1 <= 2 && d.value.1 <= |r|
  {
    if alt == 0 then
      if |r| >= 2 && r[0] == '3' && '0' <= r[1] <= '1' then Some((30 + DigitValue(r[1]), 2)) else None
    else if alt == 1 then
      if |r| >= 2 && '1' <= r[0] <= '2' && IsDigit(r[1]) then Some((DigitValue(r[0]) * 10 + DigitValue(r[1]), 2)) else None
    else if alt == 2 then
      if |r| >= 2 && r[0] == '0' && '1' <= r[1] <= '9' then Some((DigitValue(r[1]), 2)) else None
    else if alt == 3 then
      if |r| >= 1 && '1' <= r[0] <= '9' then Some((DigitValue(r[0]), 1)) else None
    else if alt == 4 then
      if |r| >= 2 && r[0] == ' ' && '1' <= r[1] <= '9' then Some((DigitValue(r[1]), 2)) else None
    else None
  }

  /** The first day alternative, from `alt` on, that matches at the start of `r`. */
  function FirstDay(r: string, alt: nat): (d: Option<(int, nat)>)
    ensures d.Some? ==> 1 <= d.value.0 <= 31 && 1 <= d.value.1 <= 2 && d.value.1 <= |r|
    decreases 5 - alt
  {
    if alt >= 5 then None
    else match DayAlt(r, alt)
      case Some(x) => Some(x)
      case None => FirstDay(r, alt + 1)
  }

  /**
    What the regular expression matches after the year: the first month
    alternative, from `alt` on, after which some day alternative matches;
    the month, the day and the characters taken.  Once a day matches, the
    match is over: a match that leaves characters unread is not retried.
   */
  function FirstMonthDay(r: string, alt: nat): (md: Option<(int, int, nat)>)
    ensures md.Some? ==> 1 <= md.value.0 <= 12 && 1 <= md.value.1 <= 31 && 2 <= md.value.2 <= |r|
    decreases 3 - alt
  {
    if alt >= 3 then None
    else match MonthAlt(r, alt)
      case None => FirstMonthDay(r, alt + 1)
      case Some((m, k)) =>
        match FirstDay(r[k..], 0)
        case None => FirstMonthDay(r, alt + 1)
        case Some((d, j)) => Some((m, d, k + j))
  }

  /**
    `datetime.datetime.strptime(s, '%Y%m%d').date()`: four digits of year,
    then the month and the day as matched above; the match must take the
    whole of `s`, and the date must exist.  `None` is the `ValueError`.
   */
  function ParseYmd(s: string): (r: Option<Date>)
    ensures r.Some? ==> ValidDate(r.value)
  {
    if |s| < 4 || !(forall k :: 0 <= k < 4 ==> IsDigit(s[k])) then None
    else match FirstMonthDay(s[4..], 0)
      case None => None
      case Some((m, d, n)) =>
        var date := Date(FourDigitValue(s), m, d);
        if 4 + n != |s| || !ValidDate(date) then None else Some(date)
  }

  /** A date in the eight digits `%Y%m%d` writes. */
  function DateDigits(d: Date): (s: string)
    requires ValidDate(d)
    ensures |s| == 8 && forall k :: 0 <= k < 8 ==> IsDigit(s[k])
  {
    Pad4(d.year) + Pad2(d.month) + Pad2(d.day)
  }

  lemma DayOfTwoDigits(r: string, d: int)
    requires 1 <= d <= 31 && |r| >= 2 && r[..2] == Pad2(d)
    ensures FirstDay(r, 0) == Some((d, 2))
  {
    assert r[0] == Pad2(d)[0] && r[1] == Pad2(d)[1];
    if d >= 30 {
      assert DayAlt(r, 0) == Some((d, 2));
    } else if d >= 10 {
      assert DayAlt(r, 0) == None;
      assert DayAlt(r, 1) == Some((d, 2));
    } else {
      assert DayAlt(r, 0) == None && DayAlt(r, 1) == None;
      assert DayAlt(r, 2) == Some((d, 2));
    }
  }

  lemma MonthOfTwoDigits(r: string, m: int)
    requires 1 <= m <= 12 && |r| >= 2 && r[..2] == Pad2(m)
    ensures m >= 10 ==> MonthAlt(r, 0) == Some((m, 2))
    ensures m < 10 ==> MonthAlt(r, 0) == None && MonthAlt(r, 1) == Some((m, 2))
  {
    assert r[0] == Pad2(m)[0] && r[1] == Pad2(m)[1];
  }

  /** The eight digits of a date parse back as that date. */
  lemma ParseDateDigits(d: Date)
    requires ValidDate(d)
    ensures ParseYmd(DateDigits(d)) == Some(d)
  {
    var s := DateDigits(d);
    var r := s[4..];
    assert s[..4] == Pad4(d.year);
    assert FourDigitValue(s) == FourDigitValue(Pad4(d.year));
    assert r == Pad2(d.month) + Pad2(d.day);
    assert r[..2] == Pad2(d.month);
    assert r[2..][..2] == Pad2(d.day);
    MonthOfTwoDigits(r, d.month);
    DayOfTwoDigits(r[2..], d.day);
    if d.month >= 10 {
      assert FirstMonthDay(r, 0) == Some((d.month, d.day, 4));
    } else {
      assert FirstMonthDay(r, 1) == Some((d.month, d.day, 4));
      assert FirstMonthDay(r, 0) == Some((d.month, d.day, 4));
    }
  }

  /** A day alternative that takes two digits reads them as `Pad2` writes the day. */
  lemma TwoDigitDay(r: string, alt: nat)
    requires |r| >= 2 && IsDigit(r[0]) && IsDigit(r[1])
    requires FirstDay(r, alt).Some? && FirstDay(r, alt).value.1 == 2
    ensures r[..2] == Pad2(FirstDay(r, alt).value.0)
    decreases 5 - alt
  {
    if DayAlt(r, alt).None? {
      TwoDigitDay(r, alt + 1);
    }
  }

  /** A month alternative that takes two digits reads them as `Pad2` writes the month. */
  lemma TwoDigitMonth(r: string, alt: nat)
    requires MonthAlt(r, alt).Some? && MonthAlt(r, alt).value.1 == 2
    ensures r[..2] == Pad2(MonthAlt(r, alt).value.0)
  {
  }

  lemma {:induction false} EightDigitsMatch(r: string, alt: nat)
    requires |r| == 4 && forall k :: 0 <= k < 4 ==> IsDigit(r[k])
    requires FirstMonthDay(r, alt).Some? && FirstMonthDay(r, alt).value.2 == 4
    ensures var (m, d, _) := FirstMonthDay(r, alt).value; r == Pad2(m) + Pad2(d)
    decreases 3 - alt
  {
    var mk := MonthAlt(r, alt);
    if mk.None? || FirstDay(r[mk.value.1..], 0).None? {
      EightDigitsMatch(r, alt + 1);
    } else {
      var (m, k) := mk.value;
      var rest := r[k..];
      assert k == 2;
      TwoDigitMonth(r, alt);
      TwoDigitDay(rest, 0);
      assert r == r[..2] + rest[..2];
    }
  }

  /**
    Read on eight ASCII digits, the parse is exactly the inverse of
    `DateDigits`: it succeeds on the digits of a valid date, giving that
    date, and on nothing else.
   */
  lemma ParseEightDigits(s: string, d: Date)
    requires |s| == 8 && forall k :: 0 <= k < 8 ==> IsDigit(s[k])
    ensures ParseYmd(s) == Some(d) <==> ValidDate(d) && s == DateDigits(d)
  {
    if ParseYmd(s) == Some(d) {
      var r := s[4..];
      EightDigitsMatch(r, 0);
      var (m, dd, _) := FirstMonthDay(r, 0).value;
      assert m == d.month && dd == d.day;
      assert s[..4] == Pad4(d.year) by {
        var p := Pad4(d.year);
        assert FourDigitValue(p) == FourDigitValue(s);
        forall k | 0 <= k < 4 ensures s[k] == p[k] {
          DigitsOfFour(s, p, k);
        }
      }
      assert s == s[..4] + r;
    }
    if ValidDate(d) && s == DateDigits(d) {
      ParseDateDigits(d);
    }
  }

  /** Four digits are determined by their value. */
  lemma DigitsOfFour(s: string, p: string, k: nat)
    requires |s| >= 4 && forall i :: 0 <= i < 4 ==> IsDigit(s[i])
    requires |p| >= 4 && forall i :: 0 <= i < 4 ==> IsDigit(p[i])
    requires FourDigitValue(s) == FourDigitValue(p) && k < 4
    ensures s[k] == p[k]
  {
    var a0, a1, a2, a3 := DigitValue(s[0]), DigitValue(s[1]), DigitValue(s[2]), DigitValue(s[3]);
    var b0, b1, b2, b3 := DigitValue(p[0]), DigitValue(p[1]), DigitValue(p[2]), DigitValue(p[3]);
    assert a0 == b0;
    assert a1 == b1;
    assert a2 == b2;
    assert a3 == b3;
  }

  /**
    `%m` and `%d` also take one digit, and `%d` a space and a digit: names
    shorter than eight characters can still carry a date.
   */
  lemma SevenCharacterDate()
    ensures ParseYmd("2024110") == Some(Date(2024, 1, 10))
  {
    assert "110"[2..] == "0";
    assert FirstDay("0", 0) == None;
    assert "110"[1..] == "10";
    assert FirstDay("10", 0) == Some((10, 2));
    assert FirstMonthDay("110", 0) == Some((1, 10, 3));
    assert "2024110"[4..] == "110";
  }

  lemma SpacePaddedDay()
    ensures ParseYmd("20241 5") == Some(Date(2024, 1, 5))
  {
    assert "1 5"[1..] == " 5";
    assert FirstDay(" 5", 0) == Some((5, 2));
    assert FirstMonthDay("1 5", 0) == Some((1, 5, 3));
    assert "20241 5"[4..] == "1 5";
  }

  // ---------------------------------------------------------------------
  // The recording names

  /** `self.records_dir`. */
  const RecordsDir: string := "records"

  /** `os.path.join(self.records_dir, name)` for a name listed in that directory, which holds no separator. */
  function RecordPath(name: string): string {
    RecordsDir + "/" + name
  }

  /** The moment `datetime.datetime.now()` gives the recorder. */
  datatype Moment = Moment(date: Date, hour: int, minute: int, second: int)

  predicate ValidMoment(t: Moment) {
    ValidDate(t.date) && 0 <= t.hour < 24 && 0 <= t.minute < 60 && 0 <= t.second < 60
  }

  /** `now.strftime('%Y%m%d-%H%M%S.wav')`. */
  function RecordingName(t: Moment): string
    requires ValidMoment(t)
  {
    DateDigits(t.date) + "-" + Pad2(t.hour) + Pad2(t.minute) + Pad2(t.second) + ".wav"
  }

  /** `_get_filename()`, for the moment the clock gives. */
  function GetFilename(t: Moment): string
    requires ValidMoment(t)
  {
    RecordPath(RecordingName(t))
  }

  /**
    A name the recorder writes is a `.wav` name whose text before the first
    `-` parses back as the day of the recording.
   */
  lemma RecordingNameDate(t: Moment)
    requires ValidMoment(t)
    ensures var name := RecordingName(t);
      EndsWith(name, ".wav") && ParseYmd(BeforeFirst(name, '-')) == Some(t.date)
      && GetFilename(t) == RecordPath(name)
  {
    var name := RecordingName(t);
    var digits := DateDigits(t.date);
    var rest := "-" + Pad2(t.hour) + Pad2(t.minute) + Pad2(t.second) + ".wav";
    assert name == digits + rest;
    assert name[..8] == digits;
    assert '-' !in digits;
    IndexOfFirst(name, '-', 8);
    ParseDateDigits(t.date);
    assert name[|name| - 4..] == ".wav";
  }

  // ---------------------------------------------------------------------
  // Listing by date

  /** One element of the returned list: `{'filename', 'date', 'path'}`. */
  datatype Entry = Entry(filename: string, date: Date, path: string)

  /** The inclusive window; a missing bound leaves that side open. */
  predicate InWindow(d: Date, start: Option<Date>, end: Option<Date>) {
    (start.None? || !Before(d, start.value)) && (end.None? || !Before(end.value, d))
  }

  /** The entry a listed name contributes, if any. */
  function Admit(name: string, start: Option<Date>, end: Option<Date>): (e: Option<Entry>)
    ensures e.Some? ==>
      && e.value.filename == name && e.value.path == RecordPath(name)
      && EndsWith(name, ".wav") && ParseYmd(BeforeFirst(name, '-')) == Some(e.value.date)
      && InWindow(e.value.date, start, end)
    ensures e.None? ==>
      || !EndsWith(name, ".wav") || ParseYmd(BeforeFirst(name, '-')).None?
      || !InWindow(ParseYmd(BeforeFirst(name, '-')).value, start, end)
  {
    if !EndsWith(name, ".wav") then None
    else match ParseYmd(BeforeFirst(name, '-'))
      case None => None
      case Some(d) => if InWindow(d, start, end) then Some(Entry(name, d, RecordPath(name))) else None
  }

  /** The values `admit` gives for the names it accepts, in listing order. */
  function Collect<T>(names: seq<string>, admit: string -> Option<T>): seq<T>
    decreases |names|
  {
    if names == [] then []
    else
      var last := admit(names[|names| - 1]);
      Collect(names[..|names| - 1], admit) + (if last.Some? then [last.value] else [])
  }

  /** `Admit` with the window fixed. */
  function AdmitIn(start: Option<Date>, end: Option<Date>): string -> Option<Entry> {
    name => Admit(name, start, end)
  }

  /** The entries the loop collects, in listing order. */
  function Collected(names: seq<string>, start: Option<Date>, end: Option<Date>): seq<Entry> {
    Collect(names, AdmitIn(start, end))
  }

  /** The sort key order: `e` may come before `f` when its date is not later. */
  predicate ByDate(e: Entry, f: Entry) {
    NotAfter(e.date, f.date)
  }

  lemma ByDateTotal()
    ensures TotalPreorder(ByDate)
  {
  }

  /**
    `list_recordings_by_date(start_date, end_date)` over the names the
    directory listing gives, in its order; `dirExists` is whether `records`
    exists.  The `.wav` names with a parsable date inside the window are
    collected in listing order and then sorted by date.
   */
  method ListRecordingsByDate(dirExists: bool, names: seq<string>, start: Option<Date>, end: Option<Date>)
    returns (files: seq<Entry>)
    ensures !dirExists ==> files == []
    ensures dirExists ==> files == SortBy(Collected(names, start, end), ByDate)
  {
    if !dirExists {
      return [];
    }
    files := [];
    var i := 0;
    while i < |names|
      invariant 0 <= i <= |names|
      invariant files == Collected(names[..i], start, end)
    {
      var name := names[i];
      assert names[..i + 1][..i] == names[..i];
      assert AdmitIn(start, end)(name) == Admit(name, start, end);
      if EndsWith(name, ".wav") {
        match ParseYmd(BeforeFirst(name, '-')) {
          case None =>
          case Some(fileDate) =>
            if InWindow(fileDate, start, end) {
              files := files + [Entry(name, fileDate, RecordPath(name))];
            }
        }
      }
      i := i + 1;
    }
    assert names[..i] == names;
    files := SortBy(files, ByDate);
  }

  /** Every value `admit` gives for a listed name is collected. */
  lemma {:induction false} CollectHas<T>(names: seq<string>, admit: string -> Option<T>, k: nat)
    requires k < |names| && admit(names[k]).Some?
    ensures admit(names[k]).value in Collect(names, admit)
    decreases |names|
  {
    var init := names[..|names| - 1];
    if k < |init| {
      assert init[k] == names[k];
      CollectHas(init, admit, k);
    }
  }

  /** Every collected value was given for some listed name. */
  lemma {:induction false} CollectFrom<T>(names: seq<string>, admit: string -> Option<T>, e: T)
    returns (k: nat)
    requires e in Collect(names, admit)
    ensures k < |names| && admit(names[k]) == Some(e)
    decreases |names|
  {
    var init := names[..|names| - 1];
    var last := admit(names[|names| - 1]);
    if last == Some(e) {
      k := |names| - 1;
    } else {
      assert e in Collect(init, admit);
      k := CollectFrom(init, admit, e);
      assert init[k] == names[k];
    }
  }

  /** An entry is collected exactly when some listed name admits it. */
  lemma CollectedMembers(names: seq<string>, start: Option<Date>, end: Option<Date>, e: Entry)
    ensures e in Collected(names, start, end) <==> exists k :: 0 <= k < |names| && Admit(names[k], start, end) == Some(e)
  {
    var admit := AdmitIn(start, end);
    if e in Collected(names, start, end) {
      var k := CollectFrom(names, admit, e);
      assert admit(names[k]) == Admit(names[k], start, end);
    }
    if exists k :: 0 <= k < |names| && Admit(names[k], start, end) == Some(e) {
      var k :| 0 <= k < |names| && Admit(names[k], start, end) == Some(e);
      assert admit(names[k]) == Admit(names[k], start, end);
      CollectHas(names, admit, k);
    }
  }

  /**
    What the listing returns: entries sorted by date, exactly the admitted
    ones (each a `.wav` name whose date parses and lies in the window), and
    entries of the same date in listing order.
   */
  lemma ListingSpec(names: seq<string>, start: Option<Date>, end: Option<Date>, e: Entry)
    ensures var files := SortBy(Collected(names, start, end), ByDate);
      && (forall i, j :: 0 <= i < j < |files| ==> NotAfter(files[i].date, files[j].date))
      && (e in files <==> exists k :: 0 <= k < |names| && Admit(names[k], start, end) == Some(e))
      && Filter(files, SameRank(ByDate, e)) == Filter(Collected(names, start, end), SameRank(ByDate, e))
  {
    var c := Collected(names, start, end);
    ByDateTotal();
    SortBySorted(c, ByDate);
    SortByStable(c, ByDate, e);
    CollectedMembers(names, start, end, e);
    assert e in SortBy(c, ByDate) <==> e in multiset(SortBy(c, ByDate));
    assert e in c <==> e in multiset(c);
  }

  /** A recording the recorder made is listed exactly when its day lies in the window. */
  lemma RecordingListed(names: seq<string>, k: nat, t: Moment, start: Option<Date>, end: Option<Date>)
    requires ValidMoment(t) && k < |names| && names[k] == RecordingName(t)
    ensures var e := Entry(names[k], t.date, RecordPath(names[k]));
      e in SortBy(Collected(names, start, end), ByDate) <==> InWindow(t.date, start, end)
  {
    var e := Entry(names[k], t.date, RecordPath(names[k]));
    RecordingNameDate(t);
    ListingSpec(names, start, end, e);
    if InWindow(t.date, start, end) {
      assert Admit(names[k], start, end) == Some(e);
    }
  }

  /** Every listed entry's date lies in the window. */
  lemma ListedInWindow(names: seq<string>, start: Option<Date>, end: Option<Date>, e: Entry)
    requires e in SortBy(Collected(names, start, end), ByDate)
    ensures InWindow(e.date, start, end) && EndsWith(e.filename, ".wav")
  {
    ListingSpec(names, start, end, e);
  }
}
