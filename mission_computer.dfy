/**
  The mission computer's settings file and sensor history.  The settings
  file lists, under the headers `[system_info]` and `[load_info]`, which
  system and load facts to report; a section the file leaves empty falls back
  to its default list, and a missing file is created with the defaults.  The
  history keeps every reading of each sensor until the five-minute average
  clears it.
 */
module MissionComputer {
  import opened Wrappers
  import opened Seqs
  import opened Text

  // ---------------------------------------------------------------------
  // Settings

  datatype Section = SystemInfo | LoadInfo

  /** The two lists of the settings dictionary. */
  datatype Settings = Settings(systemInfo: seq<string>, loadInfo: seq<string>)
  {
    function Get(s: Section): seq<string> {
      if s == SystemInfo then systemInfo else loadInfo
    }

    /** `설정[section].append(item)`. */
    function Add(s: Section, item: string): (r: Settings)
      ensures r.Get(s) == Get(s) + [item]
      ensures forall o :: o != s ==> r.Get(o) == Get(o)
    {
      if s == SystemInfo then this.(systemInfo := systemInfo + [item]) else this.(loadInfo := loadInfo + [item])
    }
  }

  /** `기본_설정`. */
  const Defaults: Settings := Settings(["os", "os_version", "cpu_type", "cpu_cores", "memory_size"], ["cpu_usage", "memory_usage"])
  const Empty: Settings := Settings([], [])

  const SystemHeader: string := "[system_info]"
  const LoadHeader: string := "[load_info]"

  /** What a line of the file is, once stripped. */
  datatype LineKind = Skipped | Header(section: Section) | Item(text: string)

  /** Blank lines and `#` comments are skipped; the two headers switch section; any other line is an item. */
  function Classify(line: string): (k: LineKind)
    ensures k.Item? ==> k.text == Strip(line) && k.text != ""
  {
    var t := Strip(line);
    if t == "" || StartsWith(t, "#") then Skipped
    else if t == SystemHeader then Header(SystemInfo)
    else if t == LoadHeader then Header(LoadInfo)
    else Item(t)
  }

  /** The loop's variables: the current section, `None` before the first header, and the lists so far. */
  datatype Reading = Reading(current: Option<Section>, settings: Settings)

  const Start: Reading := Reading(None, Empty)

  /** One line of the loop, once classified. */
  function ReadLine(r: Reading, k: LineKind): Reading {
    match k
    case Skipped => r
    case Header(s) => r.(current := Some(s))
    case Item(t) => if r.current.None? then r else r.(settings := r.settings.Add(r.current.value, t))
  }

  /** The loop over the classified lines, in file order. */
  function Scan(kinds: seq<LineKind>, r: Reading): Reading
    decreases |kinds|
  {
    if kinds == [] then r else Scan(kinds[1..], ReadLine(r, kinds[0]))
  }

  /** The classification of each line of a file. */
  function Kinds(lines: seq<string>): (ks: seq<LineKind>)
    ensures |ks| == |lines|
    ensures forall k :: 0 <= k < |lines| ==> ks[k] == Classify(lines[k])
  {
    seq(|lines|, k requires 0 <= k < |lines| => Classify(lines[k]))
  }

  /** What the loop leaves for the lines of a file. */
  function Parse(lines: seq<string>): Settings {
    Scan(Kinds(lines), Start).settings
  }

  /** Reading a file in two parts is reading the whole. */
  lemma {:induction false} ScanAppend(a: seq<LineKind>, b: seq<LineKind>, r: Reading)
    ensures Scan(a + b, r) == Scan(b, Scan(a, r))
    decreases |a|
  {
    if a == [] {
      assert a + b == b;
    } else {
      assert (a + b)[1..] == a[1..] + b;
      assert (a + b)[0] == a[0];
      ScanAppend(a[1..], b, ReadLine(r, a[0]));
    }
  }

  /** Reading one more line is one more step. */
  lemma ScanSnoc(a: seq<LineKind>, k: LineKind, r: Reading)
    ensures Scan(a + [k], r) == ReadLine(Scan(a, r), k)
  {
    ScanAppend(a, [k], r);
    assert Scan([k], Scan(a, r)) == Scan([], ReadLine(Scan(a, r), k));
  }

  /** Lines that are neither headers nor before a header change nothing: with no header yet, items are dropped. */
  lemma {:induction false} NoHeaderNoItems(kinds: seq<LineKind>, s: Settings)
    requires forall k :: 0 <= k < |kinds| ==> !kinds[k].Header?
    ensures Scan(kinds, Reading(None, s)) == Reading(None, s)
    decreases |kinds|
  {
    if kinds != [] {
      NoHeaderNoItems(kinds[1..], s);
    }
  }

  /**
    Under a header, item lines are appended to that section in file order
    and the other section is left alone.
   */
  lemma {:induction false} ItemsAppendInOrder(items: seq<string>, sec: Section, s: Settings)
    ensures var r := Scan(ItemKinds(items), Reading(Some(sec), s));
      && r.current == Some(sec)
      && r.settings.Get(sec) == s.Get(sec) + items
      && (forall o :: o != sec ==> r.settings.Get(o) == s.Get(o))
    decreases |items|
  {
    if items != [] {
      var init := items[..|items| - 1];
      var last := items[|items| - 1];
      ItemsAppendInOrder(init, sec, s);
      assert ItemKinds(items) == ItemKinds(init) + [Item(last)];
      ScanSnoc(ItemKinds(init), Item(last), Reading(Some(sec), s));
      assert s.Get(sec) + items == (s.Get(sec) + init) + [last];
    }
  }

  /** The item lines of `items`, classified. */
  function ItemKinds(items: seq<string>): (ks: seq<LineKind>)
    ensures |ks| == |items|
    ensures forall k :: 0 <= k < |items| ==> ks[k] == Item(items[k])
  {
    seq(|items|, k requires 0 <= k < |items| => Item(items[k]))
  }

  /** `if not 설정[section]: 설정[section] = 기본_설정[section]`, for each section on its own. */
  function WithDefaults(s: Settings): (r: Settings)
    ensures r.systemInfo != [] && r.loadInfo != []
    ensures s.systemInfo != [] ==> r.systemInfo == s.systemInfo
    ensures s.loadInfo != [] ==> r.loadInfo == s.loadInfo
    ensures s.systemInfo == [] ==> r.systemInfo == Defaults.systemInfo
    ensures s.loadInfo == [] ==> r.loadInfo == Defaults.loadInfo
  {
    Settings(if s.systemInfo == [] then Defaults.systemInfo else s.systemInfo,
             if s.loadInfo == [] then Defaults.loadInfo else s.loadInfo)
  }

  /** Filling in defaults a second time changes nothing. */
  lemma WithDefaultsIdempotent(s: Settings)
    ensures WithDefaults(WithDefaults(s)) == WithDefaults(s)
  {
  }

  // ---------------------------------------------------------------------
  // The file as text

  /** `file.readlines()`: each line keeps its `\n`; the last may lack one. */
  function Lines(text: string): (ls: seq<string>)
    decreases |text|
  {
    if text == [] then []
    else match IndexOf(text, '\n')
      case None => [text]
      case Some(i) => [text[..i + 1]] + Lines(text[i + 1..])
  }

  /** A complete line: text without a newline, then one. */
  predicate IsLine(l: string) {
    l != [] && l[|l| - 1] == '\n' && '\n' !in l[..|l| - 1]
  }

  /** Lines written one after the other. */
  function Concat(ls: seq<string>): string
    decreases |ls|
  {
    if ls == [] then "" else Concat(ls[..|ls| - 1]) + ls[|ls| - 1]
  }

  lemma {:induction false} ConcatAppend(a: seq<string>, b: seq<string>)
    ensures Concat(a + b) == Concat(a) + Concat(b)
    decreases |b|
  {
    if b == [] {
      assert a + b == a;
    } else {
      var init, last := b[..|b| - 1], b[|b| - 1];
      assert b == init + [last];
      assert a + b == (a + init) + [last];
      ConcatSnoc(a + init, last);
      ConcatSnoc(init, last);
      ConcatAppend(a, init);
    }
  }

  lemma IndexOfAppend(a: string, b: string, c: char)
    requires c in a
    ensures IndexOf(a + b, c) == IndexOf(a, c)
  {
    var i := IndexOf(a, c).value;
    assert (a + b)[..i] == a[..i];
    IndexOfFirst(a + b, c, i);
  }

  /** A complete line in front of more text is read as that line, then the rest. */
  lemma LineThenRest(l: string, b: string)
    requires IsLine(l)
    ensures Lines(l + b) == [l] + Lines(b)
  {
    var s := l + b;
    var n := |l| - 1;
    assert s[..n] == l[..n];
    IndexOfFirst(s, '\n', n);
    assert s[..n + 1] == l;
    assert s[n + 1..] == b;
  }

  /** Complete lines written out read back as those lines. */
  lemma {:induction false} LinesConcat(ls: seq<string>)
    requires forall k :: 0 <= k < |ls| ==> IsLine(ls[k])
    ensures Lines(Concat(ls)) == ls
    decreases |ls|
  {
    if ls != [] {
      var rest := ls[1..];
      assert ls == [ls[0]] + rest;
      ConcatAppend([ls[0]], rest);
      assert Concat([ls[0]]) == ls[0] by {
        assert [ls[0]][..0] == [];
      }
      LineThenRest(ls[0], Concat(rest));
      LinesConcat(rest);
    }
  }

  /** The comment that opens the default file. */
  const Comment: string := "# 미션 컴퓨터 정보 출력 설정"

  /** Each item on a line of its own, as `f'{item}\n'` writes it. */
  function ItemLines(items: seq<string>): (ls: seq<string>)
    ensures |ls| == |items|
    ensures forall k :: 0 <= k < |items| ==> ls[k] == items[k] + "\n"
  {
    seq(|items|, k requires 0 <= k < |items| => items[k] + "\n")
  }

  /** The comment, a blank line, then the system header. */
  const Opening: seq<string> := [Comment + "\n", "\n", SystemHeader + "\n"]
  /** The blank line between the sections, then the load header. */
  const Middle: seq<string> := ["\n", LoadHeader + "\n"]

  /** The lines the writer puts in `setting.txt` for settings `s`. */
  function FileLines(s: Settings): seq<string> {
    Opening + ItemLines(s.systemInfo) + Middle + ItemLines(s.loadInfo)
  }

  function FileText(s: Settings): string {
    Concat(FileLines(s))
  }

  lemma Concat1(a: string)
    ensures Concat([a]) == a
  {
    assert [a][..0] == [];
  }

  lemma Concat2(a: string, b: string)
    ensures Concat([a, b]) == a + b
  {
    ConcatSnoc([a], b);
    assert [a] + [b] == [a, b];
    Concat1(a);
  }

  lemma ConcatSnoc(ls: seq<string>, l: string)
    ensures Concat(ls + [l]) == Concat(ls) + l
  {
    assert (ls + [l])[..|ls|] == ls;
  }

  /** The text of the opening lines, as the first two writes give it. */
  lemma OpeningText()
    ensures Concat(Opening) == Comment + "\n\n" + SystemHeader + "\n"
  {
    var a, b, c := Comment + "\n", "\n", SystemHeader + "\n";
    ConcatSnoc([a, b], c);
    assert [a, b] + [c] == Opening;
    Concat2(a, b);
    assert a + b == Comment + "\n\n";
  }

  /** Writing one more item line. */
  lemma WriteItemStep(before: seq<string>, items: seq<string>, i: nat)
    requires i < |items|
    ensures Concat(before + ItemLines(items[..i + 1])) == Concat(before + ItemLines(items[..i])) + items[i] + "\n"
  {
    assert ItemLines(items[..i + 1]) == ItemLines(items[..i]) + [items[i] + "\n"];
    assert before + ItemLines(items[..i + 1]) == before + ItemLines(items[..i]) + [items[i] + "\n"];
    ConcatSnoc(before + ItemLines(items[..i]), items[i] + "\n");
  }

  /**
    The writer of the default file, for the lists it is given: the comment
    and a blank line, the system header and its items one per line, then a
    blank line, the load header and its items.
   */
  method WriteSettingsFile(s: Settings) returns (text: string)
    ensures text == FileText(s)
  {
    text := Comment + "\n\n";
    text := text + SystemHeader + "\n";
    OpeningText();
    assert Opening + ItemLines(s.systemInfo[..0]) == Opening;
    var i := 0;
    while i < |s.systemInfo|
      invariant 0 <= i <= |s.systemInfo|
      invariant text == Concat(Opening + ItemLines(s.systemInfo[..i]))
    {
      WriteItemStep(Opening, s.systemInfo, i);
      text := text + s.systemInfo[i] + "\n";
      i := i + 1;
    }
    assert s.systemInfo[..i] == s.systemInfo;
    var before := Opening + ItemLines(s.systemInfo);
    text := text + "\n" + LoadHeader + "\n";
    ConcatAppend(before, Middle);
    Concat2("\n", LoadHeader + "\n");
    assert text == Concat(before + Middle);
    assert before + Middle + ItemLines(s.loadInfo[..0]) == before + Middle;
    var j := 0;
    while j < |s.loadInfo|
      invariant 0 <= j <= |s.loadInfo|
      invariant text == Concat(before + Middle + ItemLines(s.loadInfo[..j]))
    {
      WriteItemStep(before + Middle, s.loadInfo, j);
      text := text + s.loadInfo[j] + "\n";
      j := j + 1;
    }
    assert s.loadInfo[..j] == s.loadInfo;
  }

  /** An item that reads back as itself: no surrounding whitespace, no newline, not a comment or a header. */
  predicate CleanItem(w: string) {
    && w != [] && !IsSpace(w[0]) && !IsSpace(w[|w| - 1]) && '\n' !in w
    && w[0] != '#' && w != SystemHeader && w != LoadHeader
  }

  /** A line made of text without surrounding whitespace strips back to that text. */
  lemma StripLine(w: string)
    requires w != [] && !IsSpace(w[0]) && !IsSpace(w[|w| - 1])
    ensures Strip(w + "\n") == w
  {
    var s := w + "\n";
    assert StripStart(s) == s;
    assert s[..|s| - 1] == w;
    assert StripEnd(w) == w;
  }

  lemma StartsWithHash(w: string)
    ensures StartsWith(w, "#") <==> w != [] && w[0] == '#'
  {
    if w != [] {
      assert w[..1][0] == w[0];
    }
  }

  lemma ClassifyItem(w: string)
    requires CleanItem(w)
    ensures Classify(w + "\n") == Item(w)
  {
    StripLine(w);
    StartsWithHash(w);
  }

  lemma ClassifyComment()
    ensures Classify(Comment + "\n") == Skipped
  {
    StripLine(Comment);
    StartsWithHash(Comment);
  }

  lemma ClassifyBlank()
    ensures Classify("\n") == Skipped
  {
    var s := "\n";
    assert s != [] && IsSpace(s[0]);
    assert s[1..] == [];
    assert StripStart(s) == StripStart(s[1..]) == [];
    assert Strip(s) == [];
  }

  lemma ClassifySystemHeader()
    ensures Classify(SystemHeader + "\n") == Header(SystemInfo)
  {
    StripLine(SystemHeader);
  }

  lemma ClassifyLoadHeader()
    ensures Classify(LoadHeader + "\n") == Header(LoadInfo)
  {
    StripLine(LoadHeader);
  }

  lemma Kinds2(a: string, b: string)
    ensures Kinds([a, b]) == [Classify(a), Classify(b)]
  {
  }

  lemma Kinds3(a: string, b: string, c: string)
    ensures Kinds([a, b, c]) == [Classify(a), Classify(b), Classify(c)]
  {
  }

  /** How the opening lines of the file classify. */
  lemma ClassifyOpening()
    ensures Kinds(Opening) == [Skipped, Skipped, Header(SystemInfo)]
  {
    Kinds3(Comment + "\n", "\n", SystemHeader + "\n");
    ClassifyComment();
    ClassifyBlank();
    ClassifySystemHeader();
  }

  /** How the lines between the sections classify. */
  lemma ClassifyMiddle()
    ensures Kinds(Middle) == [Skipped, Header(LoadInfo)]
  {
    Kinds2("\n", LoadHeader + "\n");
    ClassifyBlank();
    ClassifyLoadHeader();
  }

  /** The fixed lines of the file are complete lines. */
  lemma FixedAreLines()
    ensures forall k :: 0 <= k < |Opening| ==> IsLine(Opening[k])
    ensures forall k :: 0 <= k < |Middle| ==> IsLine(Middle[k])
  {
    assert (Comment + "\n")[..|Comment|] == Comment;
    assert (SystemHeader + "\n")[..|SystemHeader|] == SystemHeader;
    assert (LoadHeader + "\n")[..|LoadHeader|] == LoadHeader;
  }

  lemma ItemLinesAreLines(items: seq<string>)
    requires forall k :: 0 <= k < |items| ==> '\n' !in items[k]
    ensures forall k :: 0 <= k < |items| ==> IsLine(ItemLines(items)[k])
  {
    forall k | 0 <= k < |items|
      ensures IsLine(ItemLines(items)[k])
    {
      assert (items[k] + "\n")[..|items[k]|] == items[k];
    }
  }

  /** Clean items classify as themselves. */
  lemma KindsOfItems(items: seq<string>)
    requires forall k :: 0 <= k < |items| ==> CleanItem(items[k])
    ensures Kinds(ItemLines(items)) == ItemKinds(items)
  {
    forall k | 0 <= k < |items|
      ensures Kinds(ItemLines(items))[k] == ItemKinds(items)[k]
    {
      ClassifyItem(items[k]);
    }
  }

  lemma KindsAppend(a: seq<string>, b: seq<string>)
    ensures Kinds(a + b) == Kinds(a) + Kinds(b)
  {
  }

  /** The text the writer produces for items without newlines is read back as its lines. */
  lemma FileTextLines(s: Settings)
    requires forall k :: 0 <= k < |s.systemInfo| ==> '\n' !in s.systemInfo[k]
    requires forall k :: 0 <= k < |s.loadInfo| ==> '\n' !in s.loadInfo[k]
    ensures Lines(FileText(s)) == FileLines(s)
  {
    FixedAreLines();
    ItemLinesAreLines(s.systemInfo);
    ItemLinesAreLines(s.loadInfo);
    var ls := FileLines(s);
    forall k | 0 <= k < |ls|
      ensures IsLine(ls[k])
    {
      var n1, n2, n3 := |Opening|, |Opening| + |s.systemInfo|, |Opening| + |s.systemInfo| + |Middle|;
      if k < n1 {
        assert ls[k] == Opening[k];
      } else if k < n2 {
        assert ls[k] == ItemLines(s.systemInfo)[k - n1];
      } else if k < n3 {
        assert ls[k] == Middle[k - n2];
      } else {
        assert ls[k] == ItemLines(s.loadInfo)[k - n3];
      }
    }
    LinesConcat(ls);
  }

  /** The classified lines of the file the writer produces. */
  lemma FileKinds(s: Settings)
    requires forall k :: 0 <= k < |s.systemInfo| ==> CleanItem(s.systemInfo[k])
    requires forall k :: 0 <= k < |s.loadInfo| ==> CleanItem(s.loadInfo[k])
    ensures Kinds(FileLines(s)) ==
      [Skipped, Skipped, Header(SystemInfo)] + ItemKinds(s.systemInfo) + [Skipped, Header(LoadInfo)] + ItemKinds(s.loadInfo)
  {
    var si, li := ItemLines(s.systemInfo), ItemLines(s.loadInfo);
    ClassifyOpening();
    ClassifyMiddle();
    KindsOfItems(s.systemInfo);
    KindsOfItems(s.loadInfo);
    KindsAppend(Opening + si + Middle, li);
    KindsAppend(Opening + si, Middle);
    KindsAppend(Opening, si);
  }

  /**
    A file the writer produces for lists of clean items reads back as those
    lists, before any default is filled in.
   */
  lemma FileReadsBack(s: Settings)
    requires forall k :: 0 <= k < |s.systemInfo| ==> CleanItem(s.systemInfo[k])
    requires forall k :: 0 <= k < |s.loadInfo| ==> CleanItem(s.loadInfo[k])
    ensures Parse(Lines(FileText(s))) == s
  {
    FileTextLines(s);
    FileKinds(s);
    var a, m := [Skipped, Skipped, Header(SystemInfo)], [Skipped, Header(LoadInfo)];
    var si, li := ItemKinds(s.systemInfo), ItemKinds(s.loadInfo);
    ScanAppend(a + si + m, li, Start);
    ScanAppend(a + si, m, Start);
    ScanAppend(a, si, Start);
    assert Scan(a, Start) == Reading(Some(SystemInfo), Empty);
    ItemsAppendInOrder(s.systemInfo, SystemInfo, Empty);
    var r1 := Scan(si, Reading(Some(SystemInfo), Empty));
    assert Scan(m, r1) == Reading(Some(LoadInfo), r1.settings);
    ItemsAppendInOrder(s.loadInfo, LoadInfo, r1.settings);
  }

  /** The default items are clean. */
  lemma DefaultsClean()
    ensures forall k :: 0 <= k < |Defaults.systemInfo| ==> CleanItem(Defaults.systemInfo[k])
    ensures forall k :: 0 <= k < |Defaults.loadInfo| ==> CleanItem(Defaults.loadInfo[k])
  {
  }

  // ---------------------------------------------------------------------
  // Loading

  /** What opening `setting.txt` finds: no file, a file that fails to read, or its text. */
  datatype SettingsFile = Missing | Unreadable | Contents(text: string)

  /**
    `_설정_파일_로드()`: a file that is read gives its sections, each empty
    one replaced by its default; otherwise the defaults.
   */
  function Loaded(file: SettingsFile): Settings {
    match file
    case Contents(text) => WithDefaults(Parse(Lines(text)))
    case _ => Defaults
  }

  /**
    `_설정_파일_로드()`.  A missing file is created with the default text,
    returned in `written`; nothing is written otherwise.
   */
  method LoadSettings(file: SettingsFile) returns (settings: Settings, written: Option<string>)
    ensures settings == Loaded(file)
    ensures written == if file.Missing? then Some(FileText(Defaults)) else None
  {
    match file {
      case Missing =>
        var text := WriteSettingsFile(Defaults);
        return Defaults, Some(text);
      case Unreadable =>
        return Defaults, None;
      case Contents(text) =>
        var parsed := ParseLines(Lines(text));
        return WithDefaults(parsed), None;
    }
  }

  /** The loop over the lines with its current section. */
  method ParseLines(lines: seq<string>) returns (settings: Settings)
    ensures settings == Parse(lines)
  {
    var current: Option<Section> := None;
    settings := Empty;
    var i := 0;
    while i < |lines|
      invariant 0 <= i <= |lines|
      invariant Reading(current, settings) == Scan(Kinds(lines[..i]), Start)
    {
      ParseStep(lines, i);
      var line := Strip(lines[i]);
      if line == "" || StartsWith(line, "#") {
        i := i + 1;
        continue;
      }
      if line == SystemHeader {
        current := Some(SystemInfo);
      } else if line == LoadHeader {
        current := Some(LoadInfo);
      } else if current.Some? {
        settings := settings.Add(current.value, line);
      }
      i := i + 1;
    }
    assert lines[..i] == lines;
  }

  lemma ParseStep(lines: seq<string>, i: nat)
    requires i < |lines|
    ensures Scan(Kinds(lines[..i + 1]), Start) == ReadLine(Scan(Kinds(lines[..i]), Start), Classify(lines[i]))
  {
    KindsSnoc(lines, i);
    ScanSnoc(Kinds(lines[..i]), Classify(lines[i]), Start);
  }

  lemma KindsSnoc(lines: seq<string>, i: nat)
    requires i < |lines|
    ensures Kinds(lines[..i + 1]) == Kinds(lines[..i]) + [Classify(lines[i])]
  {
  }

  /** The file written for a missing `setting.txt` loads as exactly the default settings. */
  lemma DefaultFileRoundTrip()
    ensures Parse(Lines(FileText(Defaults))) == Defaults
    ensures Loaded(Contents(FileText(Defaults))) == Defaults
  {
    DefaultsClean();
    FileReadsBack(Defaults);
  }

  /** Whatever the file holds, both lists come out non-empty. */
  lemma LoadedNeverEmpty(file: SettingsFile)
    ensures Loaded(file).systemInfo != [] && Loaded(file).loadInfo != []
  {
  }

  // ---------------------------------------------------------------------
  // Sensor history

  /** The six sensors, the keys of `env_values`. */
  const SensorNames: set<string> := {
    "mars_base_internal_temperature", "mars_base_external_temperature", "mars_base_internal_humidity",
    "mars_base_external_illuminance", "mars_base_internal_co2", "mars_base_internal_oxygen"
  }

  /** The history after one tick: each sensor read gets its value appended. */
  function Ticked(history: map<string, seq<real>>, data: map<string, real>): map<string, seq<real>> {
    map s | s in history :: if s in data then history[s] + [data[s]] else history[s]
  }

  /** A tick adds exactly one value to the history of each sensor read, at the end, and touches no other. */
  lemma TickedSpec(history: map<string, seq<real>>, data: map<string, real>, s: string)
    requires s in history
    ensures var h := Ticked(history, data);
      && h.Keys == history.Keys
      && (s in data ==> |h[s]| == |history[s]| + 1 && h[s][..|history[s]|] == history[s] && h[s][|history[s]|] == data[s])
      && (s !in data ==> h[s] == history[s])
  {
  }

  function Sum(xs: seq<real>): real {
    if xs == [] then 0.0 else Sum(xs[..|xs| - 1]) + xs[|xs| - 1]
  }

  /** `sum(values) / len(values)`, or `0.0` for no values. */
  function Mean(xs: seq<real>): real {
    if xs == [] then 0.0 else Sum(xs) / (|xs| as real)
  }

  /** The mean of values within bounds is within the same bounds. */
  lemma {:induction false} SumBounds(xs: seq<real>, lo: real, hi: real)
    requires forall k :: 0 <= k < |xs| ==> lo <= xs[k] <= hi
    ensures (|xs| as real) * lo <= Sum(xs) <= (|xs| as real) * hi
    decreases |xs|
  {
    if xs != [] {
      SumBounds(xs[..|xs| - 1], lo, hi);
    }
  }

  lemma MeanBounds(xs: seq<real>, lo: real, hi: real)
    requires xs != []
    requires forall k :: 0 <= k < |xs| ==> lo <= xs[k] <= hi
    ensures lo <= Mean(xs) <= hi
  {
    SumBounds(xs, lo, hi);
    var n := |xs| as real;
    assert Mean(xs) * n == Sum(xs);
  }

  /** The `MissionComputer` fields the monitoring loop updates. */
  class Monitor {
    var envValues: map<string, real>
    var history: map<string, seq<real>>

    /** Every sensor reads 0.0 and has an empty history. */
    constructor ()
      ensures envValues == map s | s in SensorNames :: 0.0
      ensures history == map s | s in SensorNames :: []
    {
      envValues := map s | s in SensorNames :: 0.0;
      history := map s | s in SensorNames :: [];
    }

    /**
      One tick of `get_sensor_data`: `env_values.update(data)` and one value
      appended to each sensor's history.  A sensor without a history would
      raise `KeyError`.
     */
    method RecordTick(data: map<string, real>)
      requires data.Keys <= history.Keys
      modifies this
      ensures envValues == old(envValues) + data
      ensures history == Ticked(old(history), data)
    {
      envValues := envValues + data;
      var pending := data.Keys;
      ghost var done: set<string> := {};
      while pending != {}
        invariant envValues == old(envValues) + data
        invariant pending + done == data.Keys && pending !! done
        invariant history == map s | s in old(history) :: if s in done then old(history)[s] + [data[s]] else old(history)[s]
        decreases pending
      {
        var s :| s in pending;
        history := history[s := history[s] + [data[s]]];
        pending := pending - {s};
        done := done + {s};
      }
    }

    /**
      `_평균_계산_및_표시`: the mean of each sensor's history, then every
      sensor key of `env_values` starts a new, empty history.
     */
    method AverageAndReset() returns (averages: map<string, real>)
      modifies this
      ensures averages == map s | s in old(history) :: Mean(old(history)[s])
      ensures history == map s | s in envValues :: []
      ensures envValues == old(envValues)
    {
      averages := map[];
      var pending := history.Keys;
      while pending != {}
        invariant pending <= history.Keys
        invariant averages == map s | s in history && s !in pending :: Mean(history[s])
        decreases pending
      {
        var s :| s in pending;
        var values := history[s];
        if values != [] {
          averages := averages[s := Sum(values) / (|values| as real)];
        } else {
          averages := averages[s := 0.0];
        }
        pending := pending - {s};
      }
      history := map s | s in envValues :: [];
    }
  }
}
