/**
  The KBS headline collector: the `KbsHeadlineParser` handlers that capture
  the text of article links, the order-keeping duplicate filter, and the
  first-page-that-yields-headlines loop with its `max_items` cut.  The HTML
  tokenizer of `html.parser`, the regular expressions that recognise an
  article link, `urljoin`, `html.unescape` and the network are parameters:
  the parser receives the tokenizer's events one at a time.  A `urljoin`
  that raises `ValueError` aborts the feed, and the page is skipped like one
  that fails to load.
 */
module Headlines {
  import opened Wrappers
  import opened Seqs
  import opened Text

  /** A headline: its title and the absolute address of the article. */
  type Headline = (string, string)

  /** What the tokenizer reports, in document order. */
  datatype Event =
    | StartTag(tag: string, attrs: seq<(string, Option<string>)>)
    | Data(data: string)
    | EndTag(tag: string)

  /** Library functions the parser relies on. */
  datatype Library = Library(
    isArticle: string -> bool,              // any(pat.search(href) for pat in LINK_PATTERNS)
    urljoin: (string, string) -> Option<string>,  // urllib.parse.urljoin; None where it raises ValueError
    unescape: string -> string)             // html.unescape

  /** The parser's fields: `_capture`, `_buf`, `items`, `_current_href`. */
  datatype ParserState = ParserState(capture: bool, buf: seq<string>, items: seq<Headline>, href: Option<string>)

  const Initial: ParserState := ParserState(false, [], [], None)

  /** Between links nothing is buffered; inside one, the link's address is known; every title is non-empty. */
  ghost predicate Consistent(st: ParserState) {
    && (!st.capture ==> st.buf == [] && st.href.None?)
    && (st.capture ==> st.href.Some?)
    && (forall k :: 0 <= k < |st.items| ==> st.items[k].0 != "")
  }

  /**
    `dict(attrs).get('href')`: the value of the last `href` attribute, the
    dictionary keeping the last of repeated keys; `None` when there is none
    or when it has no value.
   */
  function Href(attrs: seq<(string, Option<string>)>): (r: Option<string>)
    ensures (forall i :: 0 <= i < |attrs| ==> attrs[i].0 != "href") ==> r.None?
  {
    if attrs == [] then None
    else if attrs[|attrs| - 1].0 == "href" then attrs[|attrs| - 1].1
    else Href(attrs[..|attrs| - 1])
  }

  /** The value is the one of the last `href` in the list. */
  lemma {:induction false} HrefIsLast(attrs: seq<(string, Option<string>)>, i: nat)
    requires i < |attrs| && attrs[i].0 == "href"
    requires forall j :: i < j < |attrs| ==> attrs[j].0 != "href"
    ensures Href(attrs) == attrs[i].1
    decreases |attrs|
  {
    if i < |attrs| - 1 {
      HrefIsLast(attrs[..|attrs| - 1], i);
    }
  }

  /** `_looks_like_article(href)`: a present, non-empty address that a link pattern matches. */
  function LooksLikeArticle(href: Option<string>, lib: Library): (b: bool)
    ensures href.None? || href == Some("") ==> !b
    ensures href.Some? && href.value != "" ==> (b <==> lib.isArticle(href.value))
  {
    if href.None? || href.value == "" then false else lib.isArticle(href.value)
  }

  /** `re.sub(r'\s+', ' ', s)`: every run of whitespace becomes one space. */
  function CollapseSpaces(s: string): (r: string)
    ensures |r| <= |s| && (r == [] <==> s == [])
    ensures r != [] ==> (IsSpace(r[0]) <==> IsSpace(s[0]))
    ensures forall i :: 0 <= i < |r| && IsSpace(r[i]) ==> r[i] == ' '
    ensures forall i :: 0 <= i < |r| - 1 ==> !(IsSpace(r[i]) && IsSpace(r[i + 1]))
    decreases |s|
  {
    if s == [] then []
    else if IsSpace(s[0]) then
      var t := StripStart(s);
      assert IsSpace(' ');
      " " + CollapseSpaces(t)
    else [s[0]] + CollapseSpaces(s[1..])
  }

  predicate NotSpace(c: char) {
    !IsSpace(c)
  }

  /** Collapsing keeps every character that is not whitespace, in order. */
  lemma {:induction false} CollapseKeepsText(s: string)
    ensures Filter(CollapseSpaces(s), NotSpace) == Filter(s, NotSpace)
    decreases |s|
  {
    if s == [] {
    } else if IsSpace(s[0]) {
      var t := StripStart(s);
      CollapseKeepsText(t);
      DropSpaces(s);
      CollapseSpaceRun(s);
    } else {
      CollapseKeepsText(s[1..]);
      KeepFirst(s, CollapseSpaces(s[1..]));
    }
  }

  /** The whitespace `lstrip` drops holds no text. */
  lemma DropSpaces(s: string)
    ensures Filter(StripStart(s), NotSpace) == Filter(s, NotSpace)
  {
    var t := StripStart(s);
    var dropped := s[..|s| - |t|];
    assert s == dropped + t;
    FilterAppend(dropped, t, NotSpace);
    FilterNone(dropped, NotSpace);
  }

  /** A run of whitespace becomes one space, which holds no text. */
  lemma CollapseSpaceRun(s: string)
    requires s != [] && IsSpace(s[0])
    ensures Filter(CollapseSpaces(s), NotSpace) == Filter(CollapseSpaces(StripStart(s)), NotSpace)
  {
    var rest := CollapseSpaces(StripStart(s));
    assert CollapseSpaces(s) == [' '] + rest;
    assert IsSpace(' ');
    DropSpaceFirst(' ', rest);
  }

  /** A leading whitespace character holds no text. */
  lemma DropSpaceFirst(c: char, rest: string)
    requires IsSpace(c)
    ensures Filter([c] + rest, NotSpace) == Filter(rest, NotSpace)
  {
    FilterAppend([c], rest, NotSpace);
    FilterNone([c], NotSpace);
  }

  /** A first character that is not whitespace is kept in front. */
  lemma KeepFirst(s: string, rest: string)
    requires s != [] && !IsSpace(s[0])
    requires Filter(rest, NotSpace) == Filter(s[1..], NotSpace)
    ensures Filter([s[0]] + rest, NotSpace) == Filter(s, NotSpace)
  {
    assert s == [s[0]] + s[1..];
    FilterAppend([s[0]], s[1..], NotSpace);
    FilterAppend([s[0]], rest, NotSpace);
    FilterAll([s[0]], NotSpace);
  }

  /** The text of a finished link: joined, stripped, whitespace-collapsed and unescaped. */
  function LinkText(buf: seq<string>, lib: Library): string {
    lib.unescape(CollapseSpaces(Strip(Join(buf, ""))))
  }

  /** `tag.lower() == 'a'`. */
  predicate IsAnchor(tag: string) {
    Lower(tag) == "a"
  }

  /** `self._current_href or ''`. */
  function OrEmpty(h: Option<string>): (r: string)
    ensures h.Some? ==> r == h.value
    ensures h.None? ==> r == ""
  {
    if h.Some? then h.value else ""
  }

  /**
    `handle_starttag`: an `a` tag whose address looks like an article starts
    a capture with an empty buffer and the absolute address; any other start
    tag changes nothing.  `None` when `urljoin` raises on the address.
   */
  function OnStartTag(st: ParserState, base: string, tag: string, attrs: seq<(string, Option<string>)>, lib: Library): (r: Option<ParserState>)
    ensures r.Some? && Consistent(st) ==> Consistent(r.value)
    ensures r.Some? ==> r.value.items == st.items
    ensures r.None? <==> IsAnchor(tag) && LooksLikeArticle(Href(attrs), lib) && lib.urljoin(base, Href(attrs).value).None?
    ensures IsAnchor(tag) && LooksLikeArticle(Href(attrs), lib) && r.Some? ==>
      r.value.capture && r.value.buf == [] && r.value.href == lib.urljoin(base, Href(attrs).value)
    ensures !(IsAnchor(tag) && LooksLikeArticle(Href(attrs), lib)) ==> r == Some(st)
  {
    var href := Href(attrs);
    if IsAnchor(tag) && LooksLikeArticle(href, lib) then
      match lib.urljoin(base, OrEmpty(href))
      case None => None
      case Some(url) => Some(st.(capture := true, buf := [], href := Some(url)))
    else Some(st)
  }

  /** `handle_data`: non-empty text is buffered while capturing, and only then. */
  function OnData(st: ParserState, data: string): (r: ParserState)
    ensures Consistent(st) ==> Consistent(r)
    ensures r.capture == st.capture && r.items == st.items && r.href == st.href
    ensures st.capture && data != "" ==> r.buf == st.buf + [data]
    ensures !st.capture || data == "" ==> r == st
  {
    if st.capture && data != "" then st.(buf := st.buf + [data]) else st
  }

  /**
    `handle_endtag`: the end of a captured `a` appends its text and address
    when the text is non-empty, and always ends the capture with an empty
    buffer and no address; other end tags change nothing.
   */
  function OnEndTag(st: ParserState, tag: string, lib: Library): (r: ParserState)
    ensures Consistent(st) ==> Consistent(r)
    ensures IsPrefix(st.items, r.items) && |r.items| <= |st.items| + 1
    ensures IsAnchor(tag) && st.capture ==>
      && !r.capture && r.buf == [] && r.href.None?
      && (var text := LinkText(st.buf, lib);
          r.items == if text != "" then st.items + [(text, OrEmpty(st.href))] else st.items)
    ensures !(IsAnchor(tag) && st.capture) ==> r == st
  {
    if IsAnchor(tag) && st.capture then
      var text := LinkText(st.buf, lib);
      var items := if text != "" then st.items + [(text, OrEmpty(st.href))] else st.items;
      ParserState(false, [], items, None)
    else st
  }

  /** The state after a captured link closes, as the handler builds it. */
  lemma EndTagCaptured(st: ParserState, tag: string, lib: Library, items: seq<Headline>)
    requires IsAnchor(tag) && st.capture
    requires var text := LinkText(st.buf, lib);
      items == if text != "" then st.items + [(text, OrEmpty(st.href))] else st.items
    ensures OnEndTag(st, tag, lib) == ParserState(false, [], items, None)
  {
  }

  /** One event dispatched to its handler; `None` when the handler raises. */
  function Step(st: ParserState, base: string, e: Event, lib: Library): Option<ParserState> {
    match e
    case StartTag(tag, attrs) => OnStartTag(st, base, tag, attrs, lib)
    case Data(data) => Some(OnData(st, data))
    case EndTag(tag) => Some(OnEndTag(st, tag, lib))
  }

  /** `parser.feed(html)`: the events in document order; `None` once a handler raises. */
  function Run(st: ParserState, base: string, events: seq<Event>, lib: Library): Option<ParserState>
    decreases |events|
  {
    if events == [] then Some(st)
    else match Step(st, base, events[0], lib)
      case None => None
      case Some(next) => Run(next, base, events[1..], lib)
  }

  /**
    Over any event sequence that does not raise, the parser stays consistent
    and only ever appends headlines, each with a non-empty title and at most
    one per event.
   */
  lemma {:induction false} RunSpec(st: ParserState, base: string, events: seq<Event>, lib: Library)
    requires Consistent(st)
    ensures var r := Run(st, base, events, lib);
      r.Some? ==> Consistent(r.value) && IsPrefix(st.items, r.value.items) && |r.value.items| <= |st.items| + |events|
    decreases |events|
  {
    if events != [] && Step(st, base, events[0], lib).Some? {
      var next := Step(st, base, events[0], lib).value;
      assert Consistent(next) && IsPrefix(st.items, next.items) && |next.items| <= |st.items| + 1;
      RunSpec(next, base, events[1..], lib);
      if Run(st, base, events, lib).Some? {
        PrefixTrans(st.items, next.items, Run(st, base, events, lib).value.items);
      }
    }
  }

  /** A start tag that opens an article link whose address `urljoin` rejects. */
  predicate RejectedLink(e: Event, base: string, lib: Library) {
    e.StartTag? && IsAnchor(e.tag) && LooksLikeArticle(Href(e.attrs), lib)
    && lib.urljoin(base, Href(e.attrs).value).None?
  }

  /**
    The feed raises exactly when some start tag opens an article link whose
    address `urljoin` rejects.
   */
  lemma {:induction false} RunRaises(st: ParserState, base: string, events: seq<Event>, lib: Library)
    ensures Run(st, base, events, lib).None? <==>
      exists k :: 0 <= k < |events| && RejectedLink(events[k], base, lib)
    decreases |events|
  {
    if events != [] {
      match Step(st, base, events[0], lib)
      case None =>
        assert RejectedLink(events[0], base, lib);
      case Some(next) =>
        assert !RejectedLink(events[0], base, lib);
        RunRaises(next, base, events[1..], lib);
        if exists k :: 0 <= k < |events| && RejectedLink(events[k], base, lib) {
          var k :| 0 <= k < |events| && RejectedLink(events[k], base, lib);
          assert events[1..][k - 1] == events[k];
        }
        if Run(st, base, events, lib).None? {
          var k :| 0 <= k < |events[1..]| && RejectedLink(events[1..][k], base, lib);
          assert events[k + 1] == events[1..][k];
        }
    }
  }

  /** A `KbsHeadlineParser` fed event by event. */
  class HeadlineParser {
    var capture: bool
    var buf: seq<string>
    var items: seq<Headline>
    var currentHref: Option<string>
    const baseUrl: string
    const lib: Library

    function State(): ParserState
      reads this
    {
      ParserState(capture, buf, items, currentHref)
    }

    constructor (baseUrl: string, lib: Library)
      ensures State() == Initial && this.baseUrl == baseUrl && this.lib == lib
    {
      this.baseUrl := baseUrl;
      this.lib := lib;
      capture := false;
      buf := [];
      items := [];
      currentHref := None;
    }

    /**
      On a raise the capture flag and the emptied buffer are already set,
      and the address keeps its old value.
     */
    method HandleStartTag(tag: string, attrs: seq<(string, Option<string>)>) returns (raised: bool)
      modifies this
      ensures raised <==> OnStartTag(old(State()), baseUrl, tag, attrs, lib).None?
      ensures !raised ==> State() == OnStartTag(old(State()), baseUrl, tag, attrs, lib).value
      ensures raised ==> State() == old(State()).(capture := true, buf := [])
    {
      raised := false;
      if IsAnchor(tag) {
        var href := Href(attrs);
        if LooksLikeArticle(href, lib) {
          capture := true;
          buf := [];
          var url := lib.urljoin(baseUrl, OrEmpty(href));
          if url.None? {
            return true;
          }
          currentHref := url;
        }
      }
    }

    method HandleData(data: string)
      modifies this
      ensures State() == OnData(old(State()), data)
    {
      if capture && data != "" {
        buf := buf + [data];
      }
    }

    method HandleEndTag(tag: string)
      modifies this
      ensures State() == OnEndTag(old(State()), tag, lib)
    {
      ghost var st := State();
      if IsAnchor(tag) && capture {
        var text := LinkText(buf, lib);
        if text != "" {
          items := items + [(text, OrEmpty(currentHref))];
        }
        capture := false;
        buf := [];
        currentHref := None;
        assert State() == ParserState(false, [], items, None);
        EndTagCaptured(st, tag, lib, items);
      }
    }
  }

  // ---------------------------------------------------------------------
  // Duplicates and short titles

  /** Titles shorter than this are dropped. */
  const MinTitle: nat := 6

  predicate LongTitle(h: Headline) {
    |h.0| >= MinTitle
  }

  /** The first occurrence of each element, in order. */
  function Dedup<T(==)>(s: seq<T>): (r: seq<T>)
    ensures forall i :: 0 <= i < |r| ==> r[i] in s
    ensures forall i :: 0 <= i < |s| ==> s[i] in r
    ensures |r| <= |s|
    decreases |s|
  {
    if s == [] then []
    else
      var init := s[..|s| - 1];
      var x := s[|s| - 1];
      assert s == init + [x];
      if x in init then Dedup(init) else Dedup(init) + [x]
  }

  /** The first occurrences keep their order and occur once. */
  lemma {:induction false} DedupSpec<T>(s: seq<T>)
    ensures NoDuplicates(Dedup(s)) && IsSubseq(Dedup(s), s)
    decreases |s|
  {
    if s != [] {
      var init := s[..|s| - 1];
      var x := s[|s| - 1];
      DedupSpec(init);
      assert s[..|s| - 1] == init;
      if x in init {
        SubseqSnocRight(Dedup(init), init, x);
      } else {
        SubseqSnocBoth(Dedup(init), init, x);
      }
    }
  }

  /** Dedup on one more element: it is appended exactly when it is new. */
  lemma DedupSnoc<T>(s: seq<T>, x: T)
    ensures Dedup(s + [x]) == if x in s then Dedup(s) else Dedup(s) + [x]
  {
    assert (s + [x])[..|s|] == s;
  }

  lemma DedupHas<T>(s: seq<T>, x: T)
    ensures x in Dedup(s) <==> x in s
  {
    if x in s {
      var i :| 0 <= i < |s| && s[i] == x;
    }
    if x in Dedup(s) {
      var i :| 0 <= i < |Dedup(s)| && Dedup(s)[i] == x;
    }
  }

  /** One more headline is kept exactly when its title is long enough and it was not kept before. */
  lemma UniqueStep(s: seq<Headline>, i: nat)
    requires i < |s|
    ensures UniqueLong(s[..i + 1]) ==
      if s[i] in UniqueLong(s[..i]) || !LongTitle(s[i]) then UniqueLong(s[..i]) else UniqueLong(s[..i]) + [s[i]]
  {
    var h := s[i];
    var f := Filter(s[..i], LongTitle);
    assert s[..i + 1] == s[..i] + [h];
    FilterSnoc(s[..i], h, LongTitle);
    if LongTitle(h) {
      assert Filter(s[..i + 1], LongTitle) == f + [h];
      DedupSnoc(f, h);
      DedupHas(f, h);
    } else {
      assert Filter(s[..i + 1], LongTitle) == f;
    }
  }

  /** What `unique_keep_order` keeps: the first occurrence of each headline with a long enough title. */
  function UniqueLong(s: seq<Headline>): seq<Headline> {
    Dedup(Filter(s, LongTitle))
  }

  /**
    `unique_keep_order(seq)`: scans the headlines, skipping one already seen
    or with a title under six characters, and remembers each kept one.
   */
  method UniqueKeepOrder(s: seq<Headline>) returns (out: seq<Headline>)
    ensures out == UniqueLong(s)
  {
    var seen: set<Headline> := {};
    out := [];
    var i := 0;
    while i < |s|
      invariant 0 <= i <= |s|
      invariant out == UniqueLong(s[..i])
      invariant forall h :: h in seen <==> h in out
    {
      var h := s[i];
      UniqueStep(s, i);
      if h in seen {
        i := i + 1;
        continue;
      }
      if |h.0| < MinTitle {
        i := i + 1;
        continue;
      }
      seen := seen + {h};
      out := out + [h];
      i := i + 1;
    }
    assert s[..i] == s;
  }

  /**
    The kept headlines: no pair twice, every title at least six characters,
    in input order, and every input headline with a long enough title among
    them.
   */
  lemma UniqueLongSpec(s: seq<Headline>)
    ensures var out := UniqueLong(s);
      && NoDuplicates(out)
      && (forall k :: 0 <= k < |out| ==> |out[k].0| >= MinTitle)
      && IsSubseq(out, s)
      && (forall k :: 0 <= k < |s| && |s[k].0| >= MinTitle ==> s[k] in out)
  {
    var long := Filter(s, LongTitle);
    DedupSpec(long);
    FilterIsSubseq(s, LongTitle);
    SubseqTrans(Dedup(long), long, s);
  }

  // ---------------------------------------------------------------------
  // Collecting headlines

  /** The pages tried, in order. */
  const Candidates: seq<string> := ["https://news.kbs.co.kr/", "https://world.kbs.co.kr/service/news_main.htm?lang=k"]
  const DefaultMaxItems: int := 20

  /** Python's `items[:n]`: a negative `n` counts from the end. */
  function TakePrefix<T>(items: seq<T>, n: int): (r: seq<T>)
    ensures IsPrefix(r, items)
    ensures n >= 0 ==> |r| == if n < |items| then n else |items|
    ensures n < 0 ==> |r| == if -n < |items| then |items| + n else 0
  {
    if n >= 0 then (if n < |items| then items[..n] else items)
    else if -n < |items| then items[..|items| + n] else []
  }

  /**
    What `get_kbs_headlines` returns: for the first page that is fetched,
    parsed without raising, and yields some headline after filtering, its
    headlines cut to `max_items`; `[]` when no page does.  A page that fails
    to load is `None`; one whose parse raises is skipped the same way.
   */
  function HeadlinesFrom(urls: seq<string>, maxItems: int, fetch: string -> Option<seq<Event>>, lib: Library): seq<Headline>
    decreases |urls|
  {
    if urls == [] then []
    else match fetch(urls[0])
      case None => HeadlinesFrom(urls[1..], maxItems, fetch, lib)
      case Some(events) =>
        match Run(Initial, urls[0], events, lib)
        case None => HeadlinesFrom(urls[1..], maxItems, fetch, lib)
        case Some(parsed) =>
          var items := UniqueLong(parsed.items);
          if items != [] then TakePrefix(items, maxItems) else HeadlinesFrom(urls[1..], maxItems, fetch, lib)
  }

  /** `get_kbs_headlines(max_items)`: tries each page in turn and returns at the first that yields headlines. */
  method GetHeadlines(maxItems: int, fetch: string -> Option<seq<Event>>, lib: Library) returns (r: seq<Headline>)
    ensures r == HeadlinesFrom(Candidates, maxItems, fetch, lib)
  {
    var i := 0;
    while i < |Candidates|
      invariant 0 <= i <= |Candidates|
      invariant HeadlinesFrom(Candidates, maxItems, fetch, lib) == HeadlinesFrom(Candidates[i..], maxItems, fetch, lib)
    {
      var url := Candidates[i];
      assert Candidates[i..][1..] == Candidates[i + 1..];
      var page := fetch(url);
      if page.Some? {
        var parsed := Run(Initial, url, page.value, lib);
        if parsed.Some? {
          var items := UniqueKeepOrder(parsed.value.items);
          if items != [] {
            return TakePrefix(items, maxItems);
          }
        }
      }
      i := i + 1;
    }
    return [];
  }

  /**
    The collected headlines: at most `max_items` of them when that is not
    negative, no pair twice, and every title at least six characters long
    and non-empty.
   */
  lemma {:induction false} HeadlinesSpec(urls: seq<string>, maxItems: int, fetch: string -> Option<seq<Event>>, lib: Library)
    ensures var r := HeadlinesFrom(urls, maxItems, fetch, lib);
      && (maxItems >= 0 ==> |r| <= maxItems)
      && NoDuplicates(r)
      && (forall k :: 0 <= k < |r| ==> |r[k].0| >= MinTitle)
    decreases |urls|
  {
    if urls != [] {
      match fetch(urls[0])
      case None =>
        HeadlinesSpec(urls[1..], maxItems, fetch, lib);
      case Some(events) =>
        match Run(Initial, urls[0], events, lib)
        case None =>
          HeadlinesSpec(urls[1..], maxItems, fetch, lib);
        case Some(parsed) =>
          var items := UniqueLong(parsed.items);
          if items != [] {
            UniqueLongSpec(parsed.items);
            var r := TakePrefix(items, maxItems);
            assert forall k :: 0 <= k < |r| ==> r[k] == items[k];
          } else {
            HeadlinesSpec(urls[1..], maxItems, fetch, lib);
          }
    }
  }
}
