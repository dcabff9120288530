/** The one regular expression the scraper uses, ` &nbsp.*?(\d{2}:\d{2})`,
    as `re.search` applies it: the leftmost position where ` &nbsp`
    starts a match wins, and from there the lazy `.*?` takes the
    shortest run of non-newline characters after which a `DD:DD` clock
    time follows. The time is the captured group. */
module TimePattern {
  import opened Wrappers
  import opened Text

  /** The literal text the pattern starts with. */
  const Lead: string := " &nbsp"

  /** `\d{2}:\d{2}`. */
  predicate IsClock(t: string) {
    |t| == 5 && IsDigit(t[0]) && IsDigit(t[1]) && t[2] == ':' && IsDigit(t[3]) && IsDigit(t[4])
  }

  /** A successful search: the pattern starts at `start`, its group at `at`. */
  datatype Match = Match(start: nat, at: nat)

  /** `.*?` can stretch from `from` to `at` (no newline in between) and a
      clock time begins at `at`. */
  predicate ClockAfter(s: string, from: int, at: int) {
    0 <= from <= at && at + 5 <= |s| && '\n' !in s[from..at] && IsClock(s[at..at + 5])
  }

  /** The whole pattern matches with its lead at `start` and its group at `at`. */
  predicate MatchAt(s: string, start: int, at: int) {
    0 <= start && start + |Lead| <= |s| && s[start..start + |Lead|] == Lead && ClockAfter(s, start + |Lead|, at)
  }

  /** The lazy `.*?` followed by the group, tried from `k` onwards. */
  function LazyFrom(s: string, k: nat): Option<nat>
    decreases |s| - k
  {
    if k + 5 > |s| then None
    else if IsClock(s[k..k + 5]) then Some(k)
    else if s[k] == '\n' then None
    else LazyFrom(s, k + 1)
  }

  /** `re.search` from position `i` onwards. */
  function SearchFrom(s: string, i: nat): Option<Match>
    decreases |s| - i
  {
    if i + |Lead| > |s| then None
    else if s[i..i + |Lead|] == Lead && LazyFrom(s, i + |Lead|).Some? then
      Some(Match(i, LazyFrom(s, i + |Lead|).value))
    else SearchFrom(s, i + 1)
  }

  /** `time_re.search(text)`. */
  function Search(s: string): Option<Match> {
    SearchFrom(s, 0)
  }

  /** `time_match.group(1)` when the search succeeds. */
  function FindTime(s: string): Option<string> {
    match Search(s)
    case None => None
    case Some(m) => if m.at + 5 <= |s| then Some(s[m.at..m.at + 5]) else None
  }

  /** The lazy part finds exactly the first clock time not preceded by a newline. */
  lemma {:induction false} LazyFromSpec(s: string, from: nat, k: nat)
    requires from <= k <= |s| && '\n' !in s[from..k]
    ensures LazyFrom(s, k).None? <==> forall at :: k <= at ==> !ClockAfter(s, from, at)
    ensures LazyFrom(s, k).Some? ==>
      && ClockAfter(s, from, LazyFrom(s, k).value)
      && forall at :: k <= at < LazyFrom(s, k).value ==> !ClockAfter(s, from, at)
    decreases |s| - k
  {
    if k + 5 > |s| {
    } else if IsClock(s[k..k + 5]) {
      assert ClockAfter(s, from, k);
    } else if s[k] == '\n' {
      forall at | k <= at
        ensures !ClockAfter(s, from, at)
      {
        if at > k && at + 5 <= |s| {
          assert s[from..at][k - from] == '\n';
        }
      }
    } else {
      assert s[from..k + 1] == s[from..k] + [s[k]];
      LazyFromSpec(s, from, k + 1);
    }
  }

  /** What `SearchFrom` returns: the leftmost start, and for it the shortest stretch. */
  lemma {:induction false} SearchFromSpec(s: string, i: nat)
    ensures SearchFrom(s, i).None? <==> forall st, at :: i <= st ==> !MatchAt(s, st, at)
    ensures SearchFrom(s, i).Some? ==>
      var m := SearchFrom(s, i).value;
      && i <= m.start
      && MatchAt(s, m.start, m.at)
      && forall st, at :: i <= st && MatchAt(s, st, at) ==> m.start < st || (m.start == st && m.at <= at)
    decreases |s| - i
  {
    if i + |Lead| > |s| {
    } else {
      var k := i + |Lead|;
      assert s[k..k] == [];
      LazyFromSpec(s, k, k);
      if s[i..k] == Lead && LazyFrom(s, k).Some? {
        assert MatchAt(s, i, LazyFrom(s, k).value);
      } else {
        assert forall at :: !MatchAt(s, i, at);
        SearchFromSpec(s, i + 1);
        assert SearchFrom(s, i) == SearchFrom(s, i + 1);
        forall st, at | i <= st && MatchAt(s, st, at)
          ensures i + 1 <= st
        {
        }
      }
    }
  }

  /** The search finds a match exactly when one exists, and it is the
      leftmost-shortest one: the time reported is a `DD:DD` string. */
  lemma SearchSpec(s: string)
    ensures Search(s).None? <==> forall st, at :: !MatchAt(s, st, at)
    ensures Search(s).Some? ==>
      var m := Search(s).value;
      && MatchAt(s, m.start, m.at)
      && forall st, at :: MatchAt(s, st, at) ==> m.start < st || (m.start == st && m.at <= at)
    ensures FindTime(s).Some? <==> Search(s).Some?
    ensures FindTime(s).Some? ==> IsClock(FindTime(s).value)
  {
    SearchFromSpec(s, 0);
    assert forall st, at :: MatchAt(s, st, at) ==> 0 <= st;
  }

  /** The scanner `re.search` runs: try each start, and from it stretch
      `.*?` one character at a time until a clock time or a newline. */
  method SearchTime(s: string) returns (m: Option<Match>)
    ensures m == Search(s)
  {
    var i := 0;
    while i + |Lead| <= |s|
      invariant SearchFrom(s, 0) == SearchFrom(s, i)
    {
      if s[i..i + |Lead|] == Lead {
        var k := i + |Lead|;
        var stopped := false;
        while !stopped && k + 5 <= |s|
          invariant i + |Lead| <= k <= |s|
          invariant stopped ==> LazyFrom(s, k) == None
          invariant LazyFrom(s, i + |Lead|) == LazyFrom(s, k)
          decreases |s| - k, !stopped
        {
          if IsClock(s[k..k + 5]) {
            return Some(Match(i, k));
          } else if s[k] == '\n' {
            stopped := true;
          } else {
            k := k + 1;
          }
        }
      }
      i := i + 1;
    }
    return None;
  }
}
