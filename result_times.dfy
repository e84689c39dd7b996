/**
 * The race-result time cleanup of app.py: the winner's total time and the
 * other drivers' times, as text, without pandas' "0 days " prefix and with
 * the fraction of a second cut to milliseconds.
 *
 * The reformatting of "+" gaps into seconds or minutes (float parsing and
 * `:06.3f` formatting) is a parameter: it yields the text to show, or
 * nothing when parsing raises and the cleanup falls back to the plain text.
 */
module ResultTimes {
  import opened Common

  /** The text pandas puts before a duration below one day. */
  const ZeroDays: string := "0 days "

  /**
   * `s.replace(pat, "")`: every occurrence of `pat`, scanning from the left
   * and not overlapping, removed.
   */
  function RemoveAll(s: string, pat: string): (r: string)
    requires pat != []
    ensures |r| <= |s|
    decreases |s|
  {
    if |s| < |pat| then s
    else if s[..|pat|] == pat then RemoveAll(s[|pat|..], pat)
    else [s[0]] + RemoveAll(s[1..], pat)
  }

  /** `pat` occurs in `s` at index `i`. */
  predicate MatchesAt(s: string, pat: string, i: nat)
  {
    i + |pat| <= |s| && s[i..i + |pat|] == pat
  }

  /** Whether `pat` occurs in `s` (Python's `pat in s`). */
  ghost predicate Contains(s: string, pat: string)
  {
    exists i: nat :: MatchesAt(s, pat, i)
  }

  /** How many occurrences the left-to-right scan finds. */
  function Occurrences(s: string, pat: string): nat
    requires pat != []
    decreases |s|
  {
    if |s| < |pat| then 0
    else if s[..|pat|] == pat then 1 + Occurrences(s[|pat|..], pat)
    else Occurrences(s[1..], pat)
  }

  /** Removing "0 days " drops its seven characters at each occurrence the scan finds. */
  lemma {:induction false} RemoveZeroDaysLength(s: string)
    ensures |RemoveAll(s, ZeroDays)| + 7 * Occurrences(s, ZeroDays) == |s|
    decreases |s|
  {
    if |s| >= |ZeroDays| {
      if s[..|ZeroDays|] == ZeroDays {
        RemoveZeroDaysLength(s[|ZeroDays|..]);
      } else {
        RemoveZeroDaysLength(s[1..]);
      }
    }
  }

  /** A text without any occurrence is left unchanged. */
  lemma {:induction false} RemoveAllWithoutOccurrence(s: string, pat: string)
    requires pat != [] && !Contains(s, pat)
    ensures RemoveAll(s, pat) == s
    decreases |s|
  {
    if |s| >= |pat| {
      assert !MatchesAt(s, pat, 0);
      assert s[0..|pat|] == s[..|pat|];
      forall i: nat | MatchesAt(s[1..], pat, i)
        ensures MatchesAt(s, pat, i + 1)
      {
        assert s[1..][i..i + |pat|] == s[i + 1..i + 1 + |pat|];
      }
      RemoveAllWithoutOccurrence(s[1..], pat);
      assert [s[0]] + s[1..] == s;
    }
  }

  /** A duration text as pandas writes it below one day loses its day count. */
  lemma RemoveZeroDaysPrefix(t: string)
    requires !Contains(t, ZeroDays)
    ensures RemoveAll(ZeroDays + t, ZeroDays) == t
  {
    assert (ZeroDays + t)[..|ZeroDays|] == ZeroDays;
    assert (ZeroDays + t)[|ZeroDays|..] == t;
    RemoveAllWithoutOccurrence(t, ZeroDays);
  }

  /** The index of the first `c` in `s`, if any (`s.index(c)`). */
  function IndexOf(s: string, c: char): (r: Option<nat>)
    ensures r.Some? ==> r.value < |s| && s[r.value] == c && c !in s[..r.value]
    ensures r.None? <==> c !in s
  {
    if s == [] then None
    else if s[0] == c then Some(0)
    else
      match IndexOf(s[1..], c)
      case None => None
      case Some(i) =>
        assert s[..i + 1] == [s[0]] + s[1..][..i];
        Some(i + 1)
  }

  /** The part after the first '.' up to the next one: a prefix of `rest` without any '.'. */
  function SecondPart(rest: string): (second: string)
    ensures |second| <= |rest| && second == rest[..|second|]
    ensures '.' !in second
  {
    match IndexOf(rest, '.')
    case None => rest
    case Some(j) => rest[..j]
  }

  /**
   * Cutting the fraction of a second to three digits: for text with a
   * '.', `split('.')` gives the part before the first '.' and the part up
   * to the second; when that part is longer than three characters only
   * the first part, a '.', and its first three characters are kept.
   * The cut text is a prefix of the text: unchanged when there is no '.'
   * or at most three characters follow the first one up to the next; and
   * otherwise the text up to the first '.' and exactly three more
   * characters, none of them a '.', with a fourth such character dropped.
   */
  function TruncateFraction(s: string): (r: string)
    ensures |r| <= |s| && r == s[..|r|]
    ensures '.' !in s ==> r == s
    ensures IndexOf(s, '.').Some? && |SecondPart(s[IndexOf(s, '.').value + 1..])| <= 3 ==> r == s
    ensures IndexOf(s, '.').Some? && |SecondPart(s[IndexOf(s, '.').value + 1..])| > 3 ==>
      r == s[..IndexOf(s, '.').value + 4]
    ensures r != s ==>
      && IndexOf(s, '.').Some?
      && var i := IndexOf(s, '.').value;
      && |r| == i + 4
      && '.' !in r[i + 1..]
      && |s| > i + 4 && s[i + 4] != '.'
  {
    match IndexOf(s, '.')
    case None => assert s == s[..|s|]; s
    case Some(i) =>
      var rest := s[i + 1..];
      var second := SecondPart(rest);
      if |second| > 3 then
        SecondPartDigits(rest);
        assert rest[..3] == s[i + 1..i + 4] && rest[3] == s[i + 4];
        DotInPlace(s, i);
        s[..i] + "." + second[..3]
      else
        assert s == s[..|s|];
        s
  }

  lemma DotInPlace(s: string, i: nat)
    requires i + 4 <= |s| && s[i] == '.'
    ensures s[..i] + "." + s[i + 1..i + 4] == s[..i + 4]
  {
    assert s[..i + 4] == s[..i] + [s[i]] + s[i + 1..i + 4];
  }

  /** A second part longer than three characters starts with three characters of the text, none a '.', and a fourth that is no '.'. */
  lemma SecondPartDigits(rest: string)
    requires |SecondPart(rest)| > 3
    ensures SecondPart(rest)[..3] == rest[..3]
    ensures |rest| > 3 && rest[3] != '.' && '.' !in rest[..3]
  {
    var second := SecondPart(rest);
    assert second[..3] == rest[..3];
    assert second[3] == rest[3];
  }

  /** Cutting twice cuts no more than once. */
  lemma {:induction false} TruncateFractionIdempotent(s: string)
    ensures TruncateFraction(TruncateFraction(s)) == TruncateFraction(s)
  {
    var r := TruncateFraction(s);
    if r != s {
      var i := IndexOf(s, '.').value;
      assert r[..i] == s[..i];
      assert '.' !in r[..i];
      assert r[i] == '.';
      assert IndexOf(r, '.') == Some(i);
      var rest := r[i + 1..];
      assert IndexOf(rest, '.').None?;
    }
  }

  /** One row of the race results: its `Position`, the text of its `Time`, and whether that time is truthy (a non-zero duration). */
  datatype ResultRow = ResultRow(position: Option<int>, time: string, timeIsTruthy: bool)

  /**
   * The text shown for one row, given whether a winner with a truthy time
   * has been seen before it: the winner's time and plain times cleaned and
   * cut; a "+" gap after such a winner reformatted, or shown cleaned when
   * reformatting raises.
   */
  function CleanedTime(row: ResultRow, winnerSeen: bool, formatGap: string -> Option<string>): (t: string)
    ensures var cleaned := RemoveAll(row.time, ZeroDays);
      Reformatted(row, winnerSeen) ==> t == (if formatGap(cleaned).Some? then formatGap(cleaned).value else cleaned)
    ensures var cleaned := RemoveAll(row.time, ZeroDays);
      !Reformatted(row, winnerSeen) ==> |t| <= |cleaned| && t == cleaned[..|t|]
    ensures !Reformatted(row, winnerSeen) ==> t == TruncateFraction(RemoveAll(row.time, ZeroDays))
  {
    var cleaned := RemoveAll(row.time, ZeroDays);
    if row.position == Some(1) then TruncateFraction(cleaned)
    else if '+' in cleaned && winnerSeen then
      match formatGap(cleaned)
      case Some(display) => display
      case None => cleaned
    else TruncateFraction(cleaned)
  }

  /** Whether the row's time is a "+" gap to reformat: not the winner's, after a winner with a truthy time. */
  predicate Reformatted(row: ResultRow, winnerSeen: bool)
  {
    row.position != Some(1) && '+' in RemoveAll(row.time, ZeroDays) && winnerSeen
  }

  /**
   * A row whose time is not reformatted shows its time without "0 days ",
   * with the fraction cut: a prefix of that text.
   */
  ghost predicate PlainKept(row: ResultRow, winnerSeen: bool, text: string)
  {
    var cleaned := RemoveAll(row.time, ZeroDays);
    !Reformatted(row, winnerSeen) ==>
      && text == TruncateFraction(cleaned)
      && |text| <= |cleaned| && text == cleaned[..|text|]
  }

  /** Whether the last winner row among `rows` has a truthy time (`winner_time` after them). */
  function WinnerSeen(rows: seq<ResultRow>): bool
  {
    if rows == [] then false
    else if rows[|rows| - 1].position == Some(1) then rows[|rows| - 1].timeIsTruthy
    else WinnerSeen(rows[..|rows| - 1])
  }

  /** The texts of all rows, each given the winner state the rows before it leave. */
  function CleanedTimes(rows: seq<ResultRow>, formatGap: string -> Option<string>): (texts: seq<string>)
    ensures |texts| == |rows|
  {
    if rows == [] then []
    else
      var front := rows[..|rows| - 1];
      CleanedTimes(front, formatGap) + [CleanedTime(rows[|rows| - 1], WinnerSeen(front), formatGap)]
  }

  /** The text of row `k` is its own cleaned time, given the winner state of the rows before it. */
  lemma {:induction false} CleanedTimesAt(rows: seq<ResultRow>, k: nat, formatGap: string -> Option<string>)
    requires k < |rows|
    ensures CleanedTimes(rows, formatGap)[k] == CleanedTime(rows[k], WinnerSeen(rows[..k]), formatGap)
    decreases |rows|
  {
    var front := rows[..|rows| - 1];
    var texts := CleanedTimes(front, formatGap);
    assert CleanedTimes(rows, formatGap) == texts + [CleanedTime(rows[|rows| - 1], WinnerSeen(front), formatGap)];
    if k < |rows| - 1 {
      CleanedTimesAt(front, k, formatGap);
      assert front[..k] == rows[..k];
      assert CleanedTimes(rows, formatGap)[k] == texts[k];
    } else {
      assert front == rows[..k];
    }
  }

  /**
   * Every row whose time is not a reformatted "+" gap shows its time
   * without "0 days " and with the fraction cut, a prefix of that text; a
   * reformatted gap shows what the reformatting gives, or the cleaned text
   * when it fails.
   */
  lemma CleanedTimesShow(rows: seq<ResultRow>, formatGap: string -> Option<string>)
    ensures var texts := CleanedTimes(rows, formatGap);
      forall k :: 0 <= k < |rows| ==> PlainKept(rows[k], WinnerSeen(rows[..k]), texts[k])
    ensures var texts := CleanedTimes(rows, formatGap);
      forall k :: 0 <= k < |rows| && Reformatted(rows[k], WinnerSeen(rows[..k])) ==>
        var cleaned := RemoveAll(rows[k].time, ZeroDays);
        texts[k] == if formatGap(cleaned).Some? then formatGap(cleaned).value else cleaned
  {
    var texts := CleanedTimes(rows, formatGap);
    forall k | 0 <= k < |rows|
      ensures texts[k] == CleanedTime(rows[k], WinnerSeen(rows[..k]), formatGap)
    {
      CleanedTimesAt(rows, k, formatGap);
    }
  }

  lemma CleanedTimesStep(rows: seq<ResultRow>, k: nat, formatGap: string -> Option<string>)
    requires k < |rows|
    ensures CleanedTimes(rows[..k + 1], formatGap) ==
      CleanedTimes(rows[..k], formatGap) + [CleanedTime(rows[k], WinnerSeen(rows[..k]), formatGap)]
    ensures WinnerSeen(rows[..k + 1]) ==
      if rows[k].position == Some(1) then rows[k].timeIsTruthy else WinnerSeen(rows[..k])
  {
    assert rows[..k + 1][..k] == rows[..k];
  }

  /**
   * The loop that fills `total_times`, when the results have a `Time`
   * column (nothing is rewritten otherwise): one text per row, in order.
   */
  method CleanResultTimes(rows: seq<ResultRow>, hasTimeColumn: bool, formatGap: string -> Option<string>)
    returns (totalTimes: Option<seq<string>>)
    ensures !hasTimeColumn <==> totalTimes.None?
    ensures hasTimeColumn ==> totalTimes == Some(CleanedTimes(rows, formatGap))
  {
    if !hasTimeColumn {
      return None;
    }
    var winnerTime := false;
    var times: seq<string> := [];
    for k := 0 to |rows|
      invariant winnerTime == WinnerSeen(rows[..k])
      invariant times == CleanedTimes(rows[..k], formatGap)
    {
      CleanedTimesStep(rows, k, formatGap);
      var row := rows[k];
      var text := RemoveAll(row.time, ZeroDays);
      if row.position == Some(1) {
        winnerTime := row.timeIsTruthy;
        times := times + [TruncateFraction(text)];
      } else if '+' in text && winnerTime {
        match formatGap(text) {
          case Some(display) => times := times + [display];
          case None => times := times + [text];
        }
      } else {
        times := times + [TruncateFraction(text)];
      }
    }
    assert rows[..|rows|] == rows;
    return Some(times);
  }

  /**
   * Before the first winner row no gap is reformatted: every such row
   * shows its own time, cleaned and cut, a prefix of the cleaned text.
   */
  lemma {:induction false} NoGapBeforeWinner(rows: seq<ResultRow>, k: nat, formatGap: string -> Option<string>)
    requires k < |rows|
    requires forall j :: 0 <= j <= k ==> rows[j].position != Some(1)
    ensures !WinnerSeen(rows[..k])
    ensures CleanedTime(rows[k], WinnerSeen(rows[..k]), formatGap) == TruncateFraction(RemoveAll(rows[k].time, ZeroDays))
  {
    if k > 0 {
      NoGapBeforeWinner(rows, k - 1, formatGap);
      assert rows[..k][..k - 1] == rows[..k - 1];
    }
  }
}
