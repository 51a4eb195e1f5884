/** The snippet extractor of main.go (`scanFileForTerm`) and the list membership test
    (`contains`) that the directory walk uses to skip ignored names. */
module Search {
  import MathUtil
  import Strings

  /** One matching line: a window of its bytes around the first occurrence of the term,
      and its 0-based position among the lines of the file. */
  datatype Match = Match(line: string, number: nat)

  /** `contains(arr, target)`: scans the list and returns at the first equal element. */
  method Contains(arr: seq<string>, target: string) returns (found: bool)
    ensures found <==> target in arr
    ensures found <==> exists i :: 0 <= i < |arr| && arr[i] == target
  {
    for i := 0 to |arr|
      invariant forall j :: 0 <= j < i ==> arr[j] != target
    {
      if arr[i] == target {
        return true;
      }
    }
    return false;
  }

  /** Start of the snippet window: `Max(idx-len(term)-10, 0)`. */
  function LowerBound(idx: int, termLen: nat): int
  {
    MathUtil.MaxOf([idx - termLen - 10, 0])
  }

  /** End of the snippet window: `Min(idx+len(term)+10, len(line))`. */
  function UpperBound(idx: int, termLen: nat, lineLen: nat): int
  {
    MathUtil.MinOf([idx + termLen + 10, lineLen])
  }

  /** The clamped window always lies inside the line and covers the first occurrence of
      the term, even for a match at the start or the end of the line; it is at most
      `2 * len(term) + 20` bytes wide. */
  lemma WindowBounds(line: string, term: string)
    requires Strings.Contains(line, term)
    ensures var idx := Strings.Index(line, term);
      var lo := LowerBound(idx, |term|);
      var hi := UpperBound(idx, |term|, |line|);
      0 <= lo <= idx && idx + |term| <= hi <= |line| && hi - lo <= 2 * |term| + 20
  {
    var idx := Strings.Index(line, term);
    MathUtil.PairExtremes(idx - |term| - 10, 0);
    MathUtil.PairExtremes(idx + |term| + 10, |line|);
  }

  /** The snippet reported for a line that contains the term: `line[lower:upper]`. */
  function Snippet(line: string, term: string): (r: string)
    requires Strings.Contains(line, term)
    ensures |term| <= |r| <= |line|
    ensures |r| <= 2 * |term| + 20
  {
    WindowBounds(line, term);
    var idx := Strings.Index(line, term);
    line[LowerBound(idx, |term|)..UpperBound(idx, |term|, |line|)]
  }

  /** The snippet is the contiguous window `line[lower:upper]` of the line, holds the term
      at offset `idx - lower` where `idx` is its first occurrence in the line, and is at
      most `2 * len(term) + 20` bytes long. */
  lemma SnippetWindow(line: string, term: string)
    requires Strings.Contains(line, term)
    ensures var idx := Strings.Index(line, term);
      var lo := LowerBound(idx, |term|);
      var hi := UpperBound(idx, |term|, |line|);
      0 <= lo <= idx && idx + |term| <= hi <= |line| &&
      Snippet(line, term) == line[lo..hi] &&
      Strings.OccursAt(line, term, idx) &&
      Strings.OccursAt(Snippet(line, term), term, idx - lo)
    ensures |Snippet(line, term)| <= 2 * |term| + 20
  {
    WindowBounds(line, term);
    Strings.IndexIsFirstOccurrence(line, term);
    var idx := Strings.Index(line, term);
    var lo := LowerBound(idx, |term|);
    var hi := UpperBound(idx, |term|, |line|);
    var snippet := line[lo..hi];
    assert snippet[idx - lo..idx - lo + |term|] == line[idx..idx + |term|] by {
      forall k | idx - lo <= k < idx - lo + |term|
        ensures snippet[k] == line[lo + k]
      {
      }
    }
  }

  /** The matches among the first `n` lines, in line order. */
  function ScanLines(lines: seq<string>, term: string, n: nat): seq<Match>
    requires n <= |lines|
  {
    if n == 0 then []
    else
      var earlier := ScanLines(lines, term, n - 1);
      if Strings.Contains(lines[n - 1], term)
      then earlier + [Match(Snippet(lines[n - 1], term), n - 1)]
      else earlier
  }

  /** What `scanFileForTerm(contents, term)` returns. */
  function Scan(contents: string, term: string): seq<Match>
  {
    var lines := Strings.Split(contents, '\n');
    ScanLines(lines, term, |lines|)
  }

  /** `scanFileForTerm`: split the contents into lines and, for every line containing the
      term, append the window around its first occurrence together with the line number. */
  method ScanFileForTerm(contents: string, term: string) returns (matches: seq<Match>)
    ensures matches == Scan(contents, term)
  {
    var lines := Strings.Split(contents, '\n');
    matches := [];
    for i := 0 to |lines|
      invariant matches == ScanLines(lines, term, i)
    {
      var line := lines[i];
      if !Strings.Contains(line, term) {
        continue;
      }
      var idx := Strings.Index(line, term);
      var lowerBound := MathUtil.Max([idx - |term| - 10, 0]);
      var upperBound := MathUtil.Min([idx + |term| + 10, |line|]);
      assert lowerBound == LowerBound(idx, |term|) && upperBound == UpperBound(idx, |term|, |line|);
      WindowBounds(line, term);
      var substr := line[lowerBound..upperBound];
      assert substr == Snippet(line, term);
      matches := matches + [Match(substr, i)];
    }
  }

  /** Line numbers strictly ascend. */
  predicate Ascending(r: seq<Match>)
  {
    forall j, k :: 0 <= j < k < |r| ==> r[j].number < r[k].number
  }

  /** Each entry names one of the first `n` lines, that line contains the term, and the
      entry carries that line's snippet. */
  predicate EntriesSound(lines: seq<string>, term: string, n: nat, r: seq<Match>)
    requires n <= |lines|
  {
    forall k :: 0 <= k < |r| ==>
      r[k].number < n && Strings.Contains(lines[r[k].number], term) &&
      r[k].line == Snippet(lines[r[k].number], term)
  }

  /** Line `i` has an entry in `r`. */
  predicate HasEntry(r: seq<Match>, i: nat)
  {
    exists k :: 0 <= k < |r| && r[k].number == i
  }

  /** Every entry among the first `n` lines is sound. */
  lemma {:induction false} ScanLinesSound(lines: seq<string>, term: string, n: nat)
    requires n <= |lines|
    ensures EntriesSound(lines, term, n, ScanLines(lines, term, n))
  {
    if n > 0 {
      ScanLinesSound(lines, term, n - 1);
    }
  }

  /** The line numbers among the first `n` lines strictly ascend. */
  lemma {:induction false} ScanLinesAscending(lines: seq<string>, term: string, n: nat)
    requires n <= |lines|
    ensures Ascending(ScanLines(lines, term, n))
  {
    if n > 0 {
      ScanLinesAscending(lines, term, n - 1);
      ScanLinesSound(lines, term, n - 1);
      var earlier := ScanLines(lines, term, n - 1);
      var r := ScanLines(lines, term, n);
      if Strings.Contains(lines[n - 1], term) {
        forall j, k | 0 <= j < k < |r|
          ensures r[j].number < r[k].number
        {
          assert r[j] == earlier[j];
          if k < |earlier| {
            assert r[k] == earlier[k];
          }
        }
      }
    }
  }

  /** Every line below `n` that contains the term has an entry. */
  lemma {:induction false} ScanLinesComplete(lines: seq<string>, term: string, n: nat, i: nat)
    requires i < n <= |lines|
    requires Strings.Contains(lines[i], term)
    ensures HasEntry(ScanLines(lines, term, n), i)
  {
    var r := ScanLines(lines, term, n);
    if i == n - 1 {
      assert r[|r| - 1].number == i;
    } else {
      var earlier := ScanLines(lines, term, n - 1);
      ScanLinesComplete(lines, term, n - 1, i);
      var k :| 0 <= k < |earlier| && earlier[k].number == i;
      assert r[k] == earlier[k];
    }
  }

  /** The result of the scan, line by line, where the lines are the pieces of the file's
      split on newlines (`Strings.SplitPieces`, `Strings.JoinSplit`): line `i` has an entry
      exactly when it contains the term; each entry names a line of the file and carries
      the window around the first occurrence in it; line numbers strictly ascend. */
  lemma ScanCorrect(contents: string, term: string)
    ensures forall i :: 0 <= i < |Strings.Split(contents, '\n')| ==>
      (Strings.Contains(Strings.Split(contents, '\n')[i], term) <==> HasEntry(Scan(contents, term), i))
    ensures EntriesSound(Strings.Split(contents, '\n'), term, |Strings.Split(contents, '\n')|, Scan(contents, term))
    ensures Ascending(Scan(contents, term))
  {
    var lines := Strings.Split(contents, '\n');
    ScanLinesSound(lines, term, |lines|);
    ScanLinesAscending(lines, term, |lines|);
    forall i | 0 <= i < |lines| && Strings.Contains(lines[i], term)
      ensures HasEntry(Scan(contents, term), i)
    {
      ScanLinesComplete(lines, term, |lines|, i);
    }
  }

  /** No line containing the term means an empty result (not an error), and the
      converse; the caller then emits nothing for the file. */
  lemma {:induction false} ScanEmptyIffNoMatch(lines: seq<string>, term: string, n: nat)
    requires n <= |lines|
    ensures ScanLines(lines, term, n) == [] <==>
      forall i :: 0 <= i < n ==> !Strings.Contains(lines[i], term)
  {
    if n > 0 {
      ScanEmptyIffNoMatch(lines, term, n - 1);
    }
  }

  /** With the empty term every line matches, so the result has one entry per line:
      this is why the caller refuses an empty term before searching. */
  lemma {:induction false} EmptyTermMatchesEveryLine(lines: seq<string>, n: nat)
    requires n <= |lines|
    ensures |ScanLines(lines, "", n)| == n
    ensures forall k :: 0 <= k < n ==> ScanLines(lines, "", n)[k].number == k
  {
    if n > 0 {
      EmptyTermMatchesEveryLine(lines, n - 1);
      var earlier := ScanLines(lines, "", n - 1);
      assert Strings.OccursAt(lines[n - 1], "", 0);
      var r := earlier + [Match(Snippet(lines[n - 1], ""), n - 1)];
      assert ScanLines(lines, "", n) == r;
      forall k | 0 <= k < n
        ensures r[k].number == k
      {
        if k < n - 1 {
          assert r[k] == earlier[k];
        }
      }
    }
  }

  /** In line 0 of the two-line input of main_test.go the term first occurs at offset 26:
      the only earlier 'f' (in "of") does not start it. The line is passed in rather than
      written inline so that the solver does not try to evaluate the search on it. */
  lemma FirstTestLineIndex(line: string, term: string)
    requires line == "this is the contents of a file" && term == "file"
    ensures Strings.Index(line, term) == 26
  {
    var p1, p2 := "this is the contents o", "f a ";
    assert "this is the contents of a file" == p1 + p2 + "file";
    assert line[..22] == p1 && line[22..26] == p2 && line[26..] == term;
    Strings.IndexFromSkip(line, term, 0, 22);
    assert line[23..26] == p2[1..];
    Strings.IndexFromSkip(line, term, 23, 26);
  }

  /** Line 0 of the same input: the window starts at 26 - 4 - 10 = 12 and is clamped at
      the end of the line. */
  lemma FirstTestLine(line: string, term: string)
    requires line == "this is the contents of a file" && term == "file"
    ensures Strings.Contains(line, term) && Snippet(line, term) == "contents of a file"
  {
    FirstTestLineIndex(line, term);
    MathUtil.PairExtremes(12, 0);
    MathUtil.PairExtremes(40, 30);
    assert line[12..30] == "contents of a file";
  }

  /** In line 1 of the same input the term first occurs at offset 5. */
  lemma SecondTestLineIndex(line: string, term: string)
    requires line == "this file also contains a second line" && term == "file"
    ensures Strings.Index(line, term) == 5
  {
    var p, q := "this ", " also contains a second line";
    assert "this file also contains a second line" == p + "file" + q;
    Strings.IndexAfterPrefix(p, term, q);
  }

  /** Line 1 of the same input: the window is clamped to [0, 19). */
  lemma SecondTestLine(line: string, term: string)
    requires line == "this file also contains a second line" && term == "file"
    ensures Strings.Contains(line, term) && Snippet(line, term) == "this file also cont"
  {
    SecondTestLineIndex(line, term);
    MathUtil.PairExtremes(-9, 0);
    MathUtil.PairExtremes(19, 37);
    assert line[0..19] == "this file also cont";
  }

  /** The one-line input of main_test.go, as the code computes it. */
  lemma ScanOneLineExample(l0: string, term: string)
    requires l0 == "this is the contents of a file"
    requires term == "file"
    ensures Scan(l0, term) == [Match("contents of a file", 0)]
  {
    assert ScanLines([l0], term, 1) == [Match("contents of a file", 0)] by {
      FirstTestLine(l0, term);
    }
    Strings.SplitNoSeparator(l0, '\n');
  }

  /** The whole two-line input of main_test.go, as the code computes it. */
  lemma ScanTwoLineExample(l0: string, l1: string, term: string)
    requires l0 == "this is the contents of a file"
    requires l1 == "this file also contains a second line"
    requires term == "file"
    ensures Scan(l0 + "\n" + l1, term) == [Match("contents of a file", 0), Match("this file also cont", 1)]
  {
    assert ScanLines([l0, l1], term, 2) == [Match("contents of a file", 0), Match("this file also cont", 1)] by {
      FirstTestLine(l0, term);
      SecondTestLine(l1, term);
      assert ScanLines([l0, l1], term, 1) == [Match("contents of a file", 0)];
    }
    SplitTwoLines(l0, l1);
  }

  /** Two newline-free lines joined by a newline split back into those two lines. */
  lemma SplitTwoLines(l0: string, l1: string)
    requires '\n' !in l0 && '\n' !in l1
    ensures Strings.Split(l0 + "\n" + l1, '\n') == [l0, l1]
  {
    assert Strings.Join([l0, l1], '\n') == l0 + "\n" + l1;
    Strings.SplitJoin([l0, l1], '\n');
  }
}
