/**
  The emergency-storage password search.  Every six-character password over
  the digits and the lowercase letters is tried in the order
  `itertools.product` gives them, until the archive accepts one; the
  optimised variant first tries a short list of common patterns.  Whether the
  archive accepts a password is an oracle: the result of setting the password
  and reading the first member.
 */
module DoorHacking {
  import opened Wrappers

  // ---------------------------------------------------------------------
  // The candidates

  /** `string.digits + string.ascii_lowercase`. */
  const Characters: string := "0123456789abcdefghijklmnopqrstuvwxyz"
  const Base: nat := 36
  /** `password_length`. */
  const Length: nat := 6

  /** The symbol at position `i` of the character set. */
  function Symbol(i: int): (c: char)
    requires 0 <= i < Base
    ensures IsSymbol(c) && SymbolIndex(c) == i
  {
    if i < 10 then ('0' as int + i) as char else ('a' as int + i - 10) as char
  }

  predicate IsSymbol(c: char) {
    '0' <= c <= '9' || 'a' <= c <= 'z'
  }

  /** The position of a symbol in the character set. */
  function SymbolIndex(c: char): (i: int)
    requires IsSymbol(c)
    ensures 0 <= i < Base
  {
    if c <= '9' then c as int - '0' as int else c as int - 'a' as int + 10
  }

  lemma SymbolOfIndex(c: char)
    requires IsSymbol(c)
    ensures Symbol(SymbolIndex(c)) == c
  {
  }

  /** The character set is the 36 symbols in order. */
  lemma CharactersInOrder()
    ensures |Characters| == Base
    ensures forall i :: 0 <= i < Base ==> Characters[i] == Symbol(i)
  {
  }

  function Pow(b: nat, n: nat): (p: nat)
    requires b >= 1
    ensures p >= 1
  {
    if n == 0 then 1 else b * Pow(b, n - 1)
  }

  /** `len(characters) ** password_length`. */
  function SpaceSize(): nat {
    Pow(Base, Length)
  }

  lemma SpaceSizeValue()
    ensures SpaceSize() == 2_176_782_336
  {
  }

  /** The `n` base-36 digits of `k`, most significant first. */
  function Numeral(k: nat, n: nat): (s: string)
    ensures |s| == n
    ensures forall i :: 0 <= i < n ==> IsSymbol(s[i])
  {
    if n == 0 then [] else Numeral(k / Base, n - 1) + [Symbol(k % Base)]
  }

  /**
    The password `itertools.product(characters, repeat=6)` yields at
    position `k` (from 0): the last character varies fastest.
   */
  function Candidate(k: nat): (s: string)
    ensures |s| == Length
  {
    Numeral(k, Length)
  }

  /** The value of a base-36 numeral. */
  function Value(s: string): nat
    requires forall i :: 0 <= i < |s| ==> IsSymbol(s[i])
  {
    if s == [] then 0 else Value(s[..|s| - 1]) * Base + SymbolIndex(s[|s| - 1])
  }

  /** A numeral reads back as the number it was written for. */
  lemma {:induction false} ValueOfNumeral(k: nat, n: nat)
    requires k < Pow(Base, n)
    ensures Value(Numeral(k, n)) == k
  {
    if n > 0 {
      var s := Numeral(k, n);
      assert s[..n - 1] == Numeral(k / Base, n - 1);
      ValueOfNumeral(k / Base, n - 1);
    }
  }

  /** Every string over the character set is the numeral of its value, and that value is in range. */
  lemma {:induction false} NumeralOfValue(s: string)
    requires forall i :: 0 <= i < |s| ==> IsSymbol(s[i])
    ensures Value(s) < Pow(Base, |s|)
    ensures Numeral(Value(s), |s|) == s
  {
    if s != [] {
      var init := s[..|s| - 1];
      var c := s[|s| - 1];
      NumeralOfValue(init);
      var v := Value(init);
      assert Value(s) == v * Base + SymbolIndex(c);
      assert Value(s) / Base == v && Value(s) % Base == SymbolIndex(c);
      SymbolOfIndex(c);
      assert s == init + [c];
    }
  }

  /** The enumeration lists every password exactly once: candidates are determined by their position. */
  lemma CandidateUnique(j: nat, k: nat)
    requires j < SpaceSize() && k < SpaceSize() && Candidate(j) == Candidate(k)
    ensures j == k
  {
    ValueOfNumeral(j, Length);
    ValueOfNumeral(k, Length);
  }

  /** Every six-character password over the character set is a candidate, at the position its value gives. */
  lemma EveryPasswordEnumerated(s: string)
    requires |s| == Length && forall i :: 0 <= i < |s| ==> IsSymbol(s[i])
    ensures Value(s) < SpaceSize() && Candidate(Value(s)) == s
  {
    NumeralOfValue(s);
  }

  // ---------------------------------------------------------------------
  // The archive

  /**
    What one password attempt does: the member is read, the password is
    rejected (`RuntimeError` or `BadZipFile`), or some other exception is
    raised.
   */
  datatype Attempt = Accepted | Rejected | Failed

  /** `zipfile.ZipFile(zip_filename)`: it fails to open, or it opens and answers attempts. */
  datatype Archive = Unopenable | Opened(try: string -> Attempt)

  /**
    An attempt as `unlock_zip()` sees it.  `stalled(p)` says that the clock
    read after `p` opens the archive still shows the start time; the
    attempts-per-second report then divides by zero, and the loop's handler
    for any other exception passes over `p` as if it had failed.
   */
  function Timed(try: string -> Attempt, stalled: string -> bool): (t: string -> Attempt)
    ensures forall p :: t(p) == Accepted <==> try(p) == Accepted && !stalled(p)
    ensures forall p :: try(p) != Accepted ==> t(p) == try(p)
  {
    p => if try(p) == Accepted && stalled(p) then Failed else try(p)
  }

  /**
    The first position from `k` on whose candidate the archive accepts.
   */
  function Search(try: string -> Attempt, k: nat): (r: Option<nat>)
    ensures r.Some? ==>
      && k <= r.value < SpaceSize() && try(Candidate(r.value)) == Accepted
      && forall i :: k <= i < r.value ==> try(Candidate(i)) != Accepted
    ensures r.None? ==> forall i :: k <= i < SpaceSize() ==> try(Candidate(i)) != Accepted
    decreases SpaceSize() - k
  {
    if k >= SpaceSize() then None
    else if try(Candidate(k)) == Accepted then Some(k)
    else Search(try, k + 1)
  }

  /** The password `unlock_zip()` returns. */
  function Unlocked(archive: Archive, stalled: string -> bool): Option<string> {
    match archive
    case Unopenable => None
    case Opened(try) =>
      match Search(Timed(try, stalled), 0)
      case None => None
      case Some(k) => Some(Candidate(k))
  }

  /**
    `unlock_zip()`: tries the candidates in order, counting attempts, and
    returns the first one the archive accepts while the clock has moved; an
    attempt that fails otherwise, or whose report divides by zero, is passed
    over.  `None` when the archive cannot be opened or no candidate gets
    through.
   */
  method UnlockZip(archive: Archive, stalled: string -> bool) returns (password: Option<string>, attempts: nat)
    ensures password == Unlocked(archive, stalled)
    ensures password.Some? ==> 1 <= attempts <= SpaceSize() && password.value == Candidate(attempts - 1)
    ensures archive.Opened? && password.None? ==> attempts == SpaceSize()
  {
    if archive.Unopenable? {
      return None, 0;
    }
    var try := archive.try;
    ghost var timed := Timed(try, stalled);
    attempts := 0;
    while attempts < SpaceSize()
      invariant attempts <= SpaceSize()
      invariant Search(timed, 0) == Search(timed, attempts)
    {
      var candidate := Candidate(attempts);
      attempts := attempts + 1;
      if try(candidate) == Accepted && !stalled(candidate) {
        return Some(candidate), attempts;
      }
    }
    return None, attempts;
  }

  /**
    The password found is accepted with the clock moved, and every candidate
    before it is refused or was accepted with the clock stalled.
   */
  lemma UnlockedIsFirst(try: string -> Attempt, stalled: string -> bool)
    ensures var r := Unlocked(Opened(try), stalled);
      && (r.Some? ==>
           && try(r.value) == Accepted && !stalled(r.value)
           && forall i :: 0 <= i < Value(r.value) ==> try(Candidate(i)) != Accepted || stalled(Candidate(i)))
      && (r.None? ==> forall s :: |s| == Length && (forall i :: 0 <= i < |s| ==> IsSymbol(s[i])) ==>
           try(s) != Accepted || stalled(s))
  {
    var timed := Timed(try, stalled);
    match Search(timed, 0)
    case Some(k) =>
      ValueOfNumeral(k, Length);
    case None =>
      forall s | |s| == Length && (forall i :: 0 <= i < |s| ==> IsSymbol(s[i]))
        ensures try(s) != Accepted || stalled(s)
      {
        EveryPasswordEnumerated(s);
      }
  }

  /**
    A password accepted while the clock still shows the start time is
    passed over: when it is the only one, the full search finds nothing.
   */
  lemma StalledPasswordMissed(try: string -> Attempt, stalled: string -> bool, secret: string)
    requires forall s :: try(s) == Accepted <==> s == secret
    requires stalled(secret)
    ensures Unlocked(Opened(try), stalled) == None
  {
    UnlockedIsFirst(try, stalled);
  }

  // ---------------------------------------------------------------------
  // The optimised search

  /** `common_patterns`, in its groups. */
  const CommonPatterns: seq<seq<string>> := [
    ["123456", "000000", "111111", "987654", "654321"],
    ["abc123", "pass12", "123abc", "admin1"],
    ["2024ab", "2025ab", "2023ab"]
  ]

  function Flatten(groups: seq<seq<string>>): seq<string> {
    if groups == [] then [] else Flatten(groups[..|groups| - 1]) + groups[|groups| - 1]
  }

  /** How the pattern phase ends: a password, an unexpected exception, or every pattern rejected. */
  datatype Phase = Found(password: string) | Aborted | Exhausted

  /** The pattern phase over `patterns` in order: only six-character patterns are tried. */
  function PatternPhase(try: string -> Attempt, patterns: seq<string>): (r: Phase)
    ensures r.Found? ==> r.password in patterns && |r.password| == Length && try(r.password) == Accepted
    ensures r.Exhausted? ==> forall i :: 0 <= i < |patterns| && |patterns[i]| == Length ==> try(patterns[i]) == Rejected
    decreases |patterns|
  {
    if patterns == [] then Exhausted
    else if |patterns[0]| != Length then PatternPhase(try, patterns[1..])
    else match try(patterns[0])
      case Accepted => Found(patterns[0])
      case Failed => Aborted
      case Rejected => PatternPhase(try, patterns[1..])
  }

  /** After patterns that are all rejected or skipped, the phase goes on as if they were not there. */
  lemma {:induction false} PatternPhaseAppend(try: string -> Attempt, a: seq<string>, b: seq<string>)
    requires PatternPhase(try, a) == Exhausted
    ensures PatternPhase(try, a + b) == PatternPhase(try, b)
    decreases |a|
  {
    if a == [] {
      assert a + b == b;
    } else {
      assert (a + b)[0] == a[0] && (a + b)[1..] == a[1..] + b;
      PatternPhaseAppend(try, a[1..], b);
    }
  }

  /** A phase that stops within `a` stops at the same place within `a + b`. */
  lemma {:induction false} PatternPhaseStops(try: string -> Attempt, a: seq<string>, b: seq<string>)
    requires PatternPhase(try, a) != Exhausted
    ensures PatternPhase(try, a + b) == PatternPhase(try, a)
    decreases |a|
  {
    assert a != [];
    assert (a + b)[0] == a[0] && (a + b)[1..] == a[1..] + b;
    if |a[0]| != Length || try(a[0]) == Rejected {
      PatternPhaseStops(try, a[1..], b);
    }
  }

  /**
    The result of `unlock_zip_optimized()`; `saved` says whether writing
    the found password to its file succeeds.
   */
  function OptimizedResult(archive: Archive, saved: bool, stalled: string -> bool): Option<string> {
    match archive
    case Unopenable => Unlocked(archive, stalled)
    case Opened(try) =>
      match PatternPhase(try, Flatten(CommonPatterns))
      case Found(p) => if saved then Some(p) else Unlocked(archive, stalled)
      case _ => Unlocked(archive, stalled)
  }

  /**
    `unlock_zip_optimized()`: the common patterns group by group, each
    six-character one counted and tried; the first accepted is saved to its
    file and returned. An unexpected exception, and a failure to write that
    file, leave the phase for the outer handler, which, like an unopenable
    archive and a phase that finds nothing, falls back to `unlock_zip()`.
   */
  method UnlockZipOptimized(archive: Archive, saved: bool, stalled: string -> bool) returns (password: Option<string>, attempts: nat)
    ensures password == OptimizedResult(archive, saved, stalled)
  {
    if archive.Unopenable? {
      password, attempts := UnlockZip(archive, stalled);
      return;
    }
    var try := archive.try;
    attempts := 0;
    var g := 0;
    while g < |CommonPatterns|
      invariant 0 <= g <= |CommonPatterns|
      invariant PatternPhase(try, Flatten(CommonPatterns[..g])) == Exhausted
    {
      var group := CommonPatterns[g];
      assert Flatten(CommonPatterns[..g]) + group[..0] == Flatten(CommonPatterns[..g]);
      var i := 0;
      while i < |group|
        invariant 0 <= i <= |group|
        invariant PatternPhase(try, Flatten(CommonPatterns[..g]) + group[..i]) == Exhausted
      {
        var p := group[i];
        PhaseStep(try, Flatten(CommonPatterns[..g]), group, i);
        if |p| == Length {
          attempts := attempts + 1;
          var outcome := try(p);
          if outcome == Accepted {
            OptimizedStops(try, CommonPatterns, g, i);
            if !saved {
              password, attempts := UnlockZip(archive, stalled);
              return;
            }
            return Some(p), attempts;
          } else if outcome == Failed {
            OptimizedStops(try, CommonPatterns, g, i);
            password, attempts := UnlockZip(archive, stalled);
            return;
          }
        }
        i := i + 1;
      }
      assert group[..i] == group;
      FlattenSnoc(CommonPatterns, g);
      g := g + 1;
    }
    assert CommonPatterns[..g] == CommonPatterns;
    password, attempts := UnlockZip(archive, stalled);
  }

  lemma FlattenSnoc(groups: seq<seq<string>>, g: nat)
    requires g < |groups|
    ensures Flatten(groups[..g + 1]) == Flatten(groups[..g]) + groups[g]
  {
    assert groups[..g + 1][..g] == groups[..g];
  }

  /** One more pattern after an exhausted prefix. */
  lemma PhaseStep(try: string -> Attempt, done: seq<string>, group: seq<string>, i: nat)
    requires i < |group| && PatternPhase(try, done + group[..i]) == Exhausted
    ensures PatternPhase(try, done + group[..i + 1]) == PatternPhase(try, [group[i]])
  {
    assert done + group[..i + 1] == (done + group[..i]) + [group[i]];
    PatternPhaseAppend(try, done + group[..i], [group[i]]);
  }

  /** A pattern that ends the phase ends it for the whole list of groups. */
  lemma OptimizedStops(try: string -> Attempt, groups: seq<seq<string>>, g: nat, i: nat)
    requires g < |groups| && i < |groups[g]|
    requires PatternPhase(try, Flatten(groups[..g]) + groups[g][..i + 1]) != Exhausted
    ensures PatternPhase(try, Flatten(groups)) == PatternPhase(try, Flatten(groups[..g]) + groups[g][..i + 1])
  {
    var pre := Flatten(groups[..g]) + groups[g][..i + 1];
    FlattenSplit(groups, g, i + 1);
    PatternPhaseStops(try, pre, groups[g][i + 1..] + Flatten(groups[g + 1..]));
    assert pre + (groups[g][i + 1..] + Flatten(groups[g + 1..])) == Flatten(groups);
  }

  lemma {:induction false} FlattenAppend(a: seq<seq<string>>, b: seq<seq<string>>)
    ensures Flatten(a + b) == Flatten(a) + Flatten(b)
    decreases |b|
  {
    if b == [] {
      assert a + b == a;
    } else {
      assert (a + b)[..|a + b| - 1] == a + b[..|b| - 1];
      FlattenAppend(a, b[..|b| - 1]);
    }
  }

  /** The flattened groups split around position `i` of group `g`. */
  lemma FlattenSplit(groups: seq<seq<string>>, g: nat, i: nat)
    requires g < |groups| && i <= |groups[g]|
    ensures Flatten(groups) == Flatten(groups[..g]) + groups[g][..i] + (groups[g][i..] + Flatten(groups[g + 1..]))
  {
    var pre, x, post := groups[..g], groups[g], groups[g + 1..];
    assert groups == pre + ([x] + post);
    FlattenAppend(pre, [x] + post);
    FlattenAppend([x], post);
    assert Flatten([x]) == x by {
      assert [x][..0] == groups[..0];
    }
    var a, b := x[..i], x[i..];
    assert x == a + b;
    SplitAssoc(Flatten(pre), a, b, Flatten(post));
  }

  lemma SplitAssoc<T>(p: seq<T>, a: seq<T>, b: seq<T>, q: seq<T>)
    ensures p + ((a + b) + q) == p + a + (b + q)
  {
  }

  /** Both searches only ever return a password the archive accepts. */
  lemma ResultsAccepted(archive: Archive, stalled: string -> bool)
    requires archive.Opened?
    ensures Unlocked(archive, stalled).Some? ==> archive.try(Unlocked(archive, stalled).value) == Accepted
    ensures forall saved :: OptimizedResult(archive, saved, stalled).Some? ==>
      archive.try(OptimizedResult(archive, saved, stalled).value) == Accepted
  {
  }

  /** When the password file cannot be written, the optimised search is the full search. */
  lemma UnsavedFallsBack(archive: Archive, stalled: string -> bool)
    ensures OptimizedResult(archive, false, stalled) == Unlocked(archive, stalled)
  {
  }

  /**
    For an archive that accepts exactly one password, and a clock that has
    moved by the time it is found, the optimised search returns the same
    password as the full search: the patterns only change how soon it is
    found.
   */
  lemma OptimizedAgrees(try: string -> Attempt, stalled: string -> bool, secret: string)
    requires forall s :: try(s) == Accepted <==> s == secret
    requires |secret| == Length && forall i :: 0 <= i < |secret| ==> IsSymbol(secret[i])
    requires !stalled(secret)
    ensures Unlocked(Opened(try), stalled) == Some(secret)
    ensures forall saved :: OptimizedResult(Opened(try), saved, stalled) == Some(secret)
  {
    EveryPasswordEnumerated(secret);
    SearchFinds(Timed(try, stalled), Value(secret));
    assert Unlocked(Opened(try), stalled) == Some(secret);
  }

  lemma SearchFinds(try: string -> Attempt, k: nat)
    requires k < SpaceSize() && try(Candidate(k)) == Accepted
    ensures Search(try, 0).Some?
  {
  }
}
