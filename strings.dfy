/** The functions of Go's `strings` package that the snippet extractor calls: `Split`,
    `Index` and `Contains`, plus `Join`, used only as the inverse of `Split`. A Go string
    is a sequence of bytes; here each `char` stands for one byte, so lengths and offsets
    are byte counts. */
module Strings {

  /** `strings.Split(s, string(sep))` for a one-byte separator: the pieces between
      separators, the empty string giving `[""]`. */
  function Split(s: string, sep: char): (r: seq<string>)
    ensures |r| > 0
    decreases |s|
  {
    if s == [] then [""]
    else
      var rest := Split(s[1..], sep);
      if s[0] == sep then [""] + rest
      else [[s[0]] + rest[0]] + rest[1..]
  }

  /** k separators give k + 1 pieces, and no piece holds a separator. */
  lemma {:induction false} SplitPieces(s: string, sep: char)
    ensures |Split(s, sep)| == multiset(s)[sep] + 1
    ensures forall k :: 0 <= k < |Split(s, sep)| ==> sep !in Split(s, sep)[k]
    decreases |s|
  {
    if s != [] {
      SplitPieces(s[1..], sep);
      assert s == [s[0]] + s[1..];
      var rest := Split(s[1..], sep);
      var r := Split(s, sep);
      if s[0] == sep {
        assert forall k :: 1 <= k < |r| ==> r[k] == rest[k - 1];
      } else {
        assert forall k :: 1 <= k < |r| ==> r[k] == rest[k];
        assert sep !in rest[0];
      }
    }
  }

  /** `strings.Join(pieces, string(sep))`. */
  function Join(pieces: seq<string>, sep: char): string
    decreases |pieces|
  {
    if |pieces| == 0 then ""
    else if |pieces| == 1 then pieces[0]
    else pieces[0] + [sep] + Join(pieces[1..], sep)
  }

  /** Joining the pieces of a split gives back the input. */
  lemma {:induction false} JoinSplit(s: string, sep: char)
    ensures Join(Split(s, sep), sep) == s
    decreases |s|
  {
    if s != [] {
      var rest := Split(s[1..], sep);
      JoinSplit(s[1..], sep);
      if s[0] == sep {
        assert ([""] + rest)[1..] == rest;
      } else {
        assert Join([[s[0]] + rest[0]] + rest[1..], sep) == [s[0]] + Join(rest, sep);
      }
      assert s == [s[0]] + s[1..];
    }
  }

  /** A string without the separator splits into itself alone. */
  lemma {:induction false} SplitNoSeparator(p: string, sep: char)
    requires sep !in p
    ensures Split(p, sep) == [p]
    decreases |p|
  {
    if p != [] {
      SplitNoSeparator(p[1..], sep);
      assert p == [p[0]] + p[1..];
    }
  }

  /** A separator-free piece followed by a separator splits off as the first piece. */
  lemma {:induction false} SplitAfterPiece(p: string, sep: char, tail: string)
    requires sep !in p
    ensures Split(p + [sep] + tail, sep) == [p] + Split(tail, sep)
    decreases |p|
  {
    var s := p + [sep] + tail;
    if p == [] {
      assert s[1..] == tail;
    } else {
      assert s[1..] == p[1..] + [sep] + tail;
      SplitAfterPiece(p[1..], sep, tail);
      assert p == [p[0]] + p[1..];
    }
  }

  /** Splitting a join of a non-empty list of separator-free pieces gives back the
      pieces: with `JoinSplit`, `Split` and `Join` are inverses between strings and such
      lists (the empty list joins to `""`, which splits into `[""]`). */
  lemma {:induction false} SplitJoin(pieces: seq<string>, sep: char)
    requires |pieces| > 0
    requires forall k :: 0 <= k < |pieces| ==> sep !in pieces[k]
    ensures Split(Join(pieces, sep), sep) == pieces
    decreases |pieces|
  {
    if |pieces| == 1 {
      SplitNoSeparator(pieces[0], sep);
    } else {
      SplitJoin(pieces[1..], sep);
      SplitAfterPiece(pieces[0], sep, Join(pieces[1..], sep));
      assert pieces == [pieces[0]] + pieces[1..];
    }
  }

  /** `t` occurs in `s` starting at byte offset `i`. */
  predicate OccursAt(s: string, t: string, i: int)
  {
    0 <= i && i + |t| <= |s| && s[i..i + |t|] == t
  }

  /** The first occurrence of `t` in `s` at or after `from`, or -1. */
  function IndexFrom(s: string, t: string, from: nat): (r: int)
    ensures r == -1 || from <= r <= |s| - |t|
    decreases |s| - from
  {
    if from + |t| > |s| then -1
    else if s[from..from + |t|] == t then from
    else IndexFrom(s, t, from + 1)
  }

  /** The search from `from` finds the first occurrence at or after `from`, and gives -1
      only when there is none there. */
  lemma {:induction false} IndexFromFindsFirst(s: string, t: string, from: nat)
    ensures IndexFrom(s, t, from) != -1 ==> OccursAt(s, t, IndexFrom(s, t, from))
    ensures forall j :: from <= j && (IndexFrom(s, t, from) == -1 || j < IndexFrom(s, t, from)) ==>
      !OccursAt(s, t, j)
    decreases |s| - from
  {
    if from + |t| <= |s| && s[from..from + |t|] != t {
      IndexFromFindsFirst(s, t, from + 1);
    }
  }

  /** The search passes over any stretch of `s` that lacks the first byte of `t`. */
  lemma {:induction false} IndexFromSkip(s: string, t: string, from: nat, stop: nat)
    requires |t| > 0 && from <= stop <= |s|
    requires t[0] !in s[from..stop]
    ensures IndexFrom(s, t, from) == IndexFrom(s, t, stop)
    decreases stop
  {
    if from < stop {
      assert s[from..stop - 1] == s[from..stop][..stop - 1 - from];
      IndexFromSkip(s, t, from, stop - 1);
      assert s[stop - 1] == s[from..stop][stop - 1 - from];
      if stop - 1 + |t| <= |s| {
        assert s[stop - 1..stop - 1 + |t|][0] != t[0];
      }
    }
  }

  /** `strings.Index(s, t)`: the least offset at which `t` occurs in `s`, or -1 when it
      occurs nowhere (`IndexIsFirstOccurrence`). The empty string occurs at offset 0. */
  function Index(s: string, t: string): (r: int)
    ensures r == -1 || 0 <= r <= |s| - |t|
  {
    IndexFrom(s, t, 0)
  }

  /** `Index` gives -1 exactly when `t` occurs nowhere in `s`, and otherwise an offset
      where `t` occurs with no occurrence before it. */
  lemma IndexIsFirstOccurrence(s: string, t: string)
    ensures Index(s, t) == -1 <==> forall j :: !OccursAt(s, t, j)
    ensures Index(s, t) != -1 ==>
      OccursAt(s, t, Index(s, t)) && forall j :: 0 <= j < Index(s, t) ==> !OccursAt(s, t, j)
  {
    IndexFromFindsFirst(s, t, 0);
  }

  /** When the first byte of `t` does not occur in `p`, the first occurrence of `t` in
      `p + t + q` is right after `p`. */
  lemma IndexAfterPrefix(p: string, t: string, q: string)
    requires |t| > 0 && t[0] !in p
    ensures Index(p + t + q, t) == |p|
  {
    var s := p + t + q;
    assert s[0..|p|] == p;
    IndexFromSkip(s, t, 0, |p|);
    assert s[|p|..|p| + |t|] == t;
  }

  /** `strings.Contains(s, t)`, which Go defines as `Index(s, t) >= 0`. */
  function Contains(s: string, t: string): (r: bool)
    ensures t == [] ==> r
    ensures r ==> |t| <= |s|
  {
    Index(s, t) >= 0
  }

  /** `Contains` holds exactly when `t` occurs somewhere in `s`. */
  lemma ContainsIffOccurs(s: string, t: string)
    ensures Contains(s, t) <==> exists i :: OccursAt(s, t, i)
  {
    IndexIsFirstOccurrence(s, t);
  }
}
