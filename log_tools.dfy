/**
  The mission-log tools: the reverse-chronological sort that keeps the CSV
  header on top, and the selection of problem lines that is saved to a
  separate file.  A log is the list of its lines; the timestamp of a line is
  the text before its first comma.
 */
module LogTools {
  import opened Wrappers
  import opened Seqs
  import opened Sorting
  import opened Text

  /**
    The sort key of a line: `x.split(',')[0]` when the line has a comma, the
    empty string otherwise.
   */
  function Key(line: string): (k: string)
    ensures ',' !in line ==> k == ""
    ensures ',' in line ==> StartsWith(line, k) && ',' !in k && line[|k|] == ','
  {
    if ',' in line then BeforeFirst(line, ',') else ""
  }

  /** `a` may come before `b` in a descending sort on the key. */
  predicate KeyGeq(a: string, b: string) {
    !LexLess(Key(a), Key(b))
  }

  /** Descending string order on the keys ranks every pair of lines and is transitive. */
  lemma KeyGeqTotal()
    ensures TotalPreorder(KeyGeq)
  {
    forall a: string, b: string
      ensures KeyGeq(a, b) || KeyGeq(b, a)
    {
      if LexLess(Key(a), Key(b)) && LexLess(Key(b), Key(a)) {
        LexLessTransitive(Key(a), Key(b), Key(a));
        LexLessIrreflexive(Key(a));
      }
    }
    forall a: string, b: string, c: string | KeyGeq(a, b) && KeyGeq(b, c)
      ensures KeyGeq(a, c)
    {
      KeyGeqTrans(Key(a), Key(b), Key(c));
    }
  }

  lemma KeyGeqTrans(ka: string, kb: string, kc: string)
    requires !LexLess(ka, kb) && !LexLess(kb, kc)
    ensures !LexLess(ka, kc)
  {
    LexLessTotal(ka, kb);
    if LexLess(ka, kc) && LexLess(kb, ka) {
      LexLessTransitive(kb, ka, kc);
    }
  }

  /**
    `sort_logs_by_time_reversed(lines)`: an empty log comes back as it is;
    otherwise the header stays first and the data lines follow, sorted by
    descending key, a permutation of the input.
   */
  function SortLogsReversed(lines: seq<string>): (r: seq<string>)
    ensures lines == [] ==> r == lines
    ensures |r| == |lines| && multiset(r) == multiset(lines)
    ensures lines != [] ==> r[0] == lines[0] && multiset(r[1..]) == multiset(lines[1..])
  {
    if lines == [] then lines
    else
      var r := [lines[0]] + SortBy(lines[1..], KeyGeq);
      assert r[1..] == SortBy(lines[1..], KeyGeq);
      assert lines == [lines[0]] + lines[1..];
      r
  }

  /**
    The data lines come out newest first by key, and data lines with equal
    keys keep the order they had in the log.
   */
  lemma SortLogsReversedSpec(lines: seq<string>, e: string)
    requires lines != []
    ensures var r := SortLogsReversed(lines);
      && (forall i, j :: 1 <= i < j < |r| ==> !LexLess(Key(r[i]), Key(r[j])))
      && Filter(r[1..], SameRank(KeyGeq, e)) == Filter(lines[1..], SameRank(KeyGeq, e))
  {
    var r := SortLogsReversed(lines);
    var data := SortBy(lines[1..], KeyGeq);
    assert r[1..] == data;
    KeyGeqTotal();
    SortBySorted(lines[1..], KeyGeq);
    SortByStable(lines[1..], KeyGeq, e);
    forall i, j | 1 <= i < j < |r|
      ensures !LexLess(Key(r[i]), Key(r[j]))
    {
      assert r[i] == data[i - 1] && r[j] == data[j - 1];
    }
  }

  // ---------------------------------------------------------------------
  // Problem lines

  /** `problem_keywords`. */
  const ProblemKeywords: seq<string> := ["UNSTABLE", "EXPLOSION", "ERROR", "CRITICAL", "WARNING", "FAILURE"]

  /** `any(keyword in line.upper() for keyword in problem_keywords)`. */
  predicate IsProblem(line: string) {
    exists k :: 0 <= k < |ProblemKeywords| && Contains(Upper(line), ProblemKeywords[k])
  }

  /** The header is kept when it has a comma. */
  function HeaderPart(lines: seq<string>): (h: seq<string>)
    ensures lines != [] && ',' in lines[0] ==> h == [lines[0]]
    ensures lines == [] || ',' !in lines[0] ==> h == []
  {
    if lines != [] && ',' in lines[0] then [lines[0]] else []
  }

  /** The lines `save_problematic_logs` collects: the header when it has a comma, then the problem lines in order. */
  function Selected(lines: seq<string>): seq<string> {
    HeaderPart(lines) + Filter(if lines == [] then [] else lines[1..], IsProblem)
  }

  /**
    What is selected: the first line leads the selection exactly when it has
    a comma, and a later line is selected exactly when it is a problem line,
    the selected lines keeping the order of the log.
   */
  lemma SelectedSpec(lines: seq<string>)
    requires lines != []
    ensures var s := Selected(lines);
      && (',' in lines[0] ==> s != [] && s[0] == lines[0])
      && (forall k :: 1 <= k < |lines| && IsProblem(lines[k]) ==> lines[k] in s)
      && (forall x :: x in s ==> (x == lines[0] && ',' in x) || (x in lines[1..] && IsProblem(x)))
      && IsSubseq(s, lines)
  {
    SelectedKeepsProblems(lines);
    SelectedOnly(lines);
    FilterIsSubseq(lines[1..], IsProblem);
    SelectionOrder(lines, Filter(lines[1..], IsProblem));
  }

  lemma SelectedKeepsProblems(lines: seq<string>)
    requires lines != []
    ensures forall k :: 1 <= k < |lines| && IsProblem(lines[k]) ==> lines[k] in Selected(lines)
  {
    var rest := Filter(lines[1..], IsProblem);
    forall k | 1 <= k < |lines| && IsProblem(lines[k])
      ensures lines[k] in Selected(lines)
    {
      assert lines[k] == lines[1..][k - 1];
      assert lines[k] in rest;
    }
  }

  lemma SelectedOnly(lines: seq<string>)
    requires lines != []
    ensures forall x :: x in Selected(lines) ==> (x == lines[0] && ',' in x) || (x in lines[1..] && IsProblem(x))
  {
    var rest := Filter(lines[1..], IsProblem);
    forall x | x in Selected(lines)
      ensures (x == lines[0] && ',' in x) || (x in lines[1..] && IsProblem(x))
    {
      if x !in HeaderPart(lines) {
        assert x in rest;
      }
    }
  }

  lemma SelectionOrder(lines: seq<string>, rest: seq<string>)
    requires lines != [] && IsSubseq(rest, lines[1..])
    ensures IsSubseq(HeaderPart(lines) + rest, lines)
  {
    assert lines == [lines[0]] + lines[1..];
    if ',' in lines[0] {
      SubseqConsBoth(rest, lines[1..], lines[0]);
    } else {
      SubseqConsRight(rest, lines[1..], lines[0]);
      assert HeaderPart(lines) + rest == rest;
    }
  }

  /**
    The line selection of `save_problematic_logs(lines, ...)`: the header
    first when it has a comma, then every later line that mentions a
    keyword.  Nothing is written, `None`, when at most one line was
    selected; otherwise the selected lines are what the file receives.
   */
  method SaveProblematicLogs(lines: seq<string>) returns (written: Option<seq<string>>)
    ensures written.None? <==> |Selected(lines)| <= 1
    ensures written.Some? ==> written.value == Selected(lines)
  {
    var problematic: seq<string> := [];
    if lines != [] && ',' in lines[0] {
      problematic := problematic + [lines[0]];
    }
    var rest := if lines != [] then lines[1..] else [];
    var i := 0;
    while i < |rest|
      invariant 0 <= i <= |rest|
      invariant problematic == HeaderPart(lines) + Filter(rest[..i], IsProblem)
    {
      FilterSnoc(rest[..i], rest[i], IsProblem);
      assert rest[..i + 1] == rest[..i] + [rest[i]];
      if IsProblem(rest[i]) {
        problematic := problematic + [rest[i]];
      }
      i := i + 1;
    }
    assert rest[..i] == rest;
    if |problematic| <= 1 {
      return None;
    }
    return Some(problematic);
  }

  /** A log whose only selected line is its header, or that selects nothing, writes no file. */
  lemma NothingToSave(lines: seq<string>)
    requires forall k :: 1 <= k < |lines| ==> !IsProblem(lines[k])
    ensures |Selected(lines)| <= 1
  {
    if lines != [] {
      forall k | 0 <= k < |lines[1..]|
        ensures !IsProblem(lines[1..][k])
      {
        assert lines[1..][k] == lines[k + 1];
      }
      FilterNone(lines[1..], IsProblem);
    }
  }
}
