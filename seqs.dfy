/** Python's `find`, `in`, `split`, `join` and `startswith` on `bytes` and `str`, over any
    sequence. `split` is the form with an explicit, non-empty separator. */
module Seqs {

  /** `sub` occurs in `s` starting at index `i`. */
  predicate OccursAt<T(==)>(s: seq<T>, sub: seq<T>, i: int) {
    0 <= i && i + |sub| <= |s| && s[i..i + |sub|] == sub
  }

  /** Python `sub in s`. */
  predicate Contains<T(==)>(s: seq<T>, sub: seq<T>) {
    exists i :: 0 <= i <= |s| && OccursAt(s, sub, i)
  }

  predicate StartsWith<T(==)>(s: seq<T>, prefix: seq<T>) {
    |prefix| <= |s| && s[..|prefix|] == prefix
  }

  function FindFrom<T(==)>(s: seq<T>, sub: seq<T>, i: nat): (r: int)
    requires i <= |s|
    decreases |s| - i
    ensures r == -1 || (i <= r && OccursAt(s, sub, r))
    ensures r == -1 ==> forall j :: i <= j ==> !OccursAt(s, sub, j)
    ensures r != -1 ==> forall j :: i <= j < r ==> !OccursAt(s, sub, j)
  {
    if i + |sub| > |s| then -1
    else if OccursAt(s, sub, i) then i
    else FindFrom(s, sub, i + 1)
  }

  /** Python `s.find(sub)`: the first index where `sub` occurs, or -1. */
  function Find<T(==)>(s: seq<T>, sub: seq<T>): (r: int)
    ensures r == -1 <==> !Contains(s, sub)
    ensures r != -1 ==> OccursAt(s, sub, r) && forall j :: 0 <= j < r ==> !OccursAt(s, sub, j)
  {
    FindFrom(s, sub, 0)
  }

  /** Python `sep.join(parts)`. */
  function Join<T>(parts: seq<seq<T>>, sep: seq<T>): seq<T>
    decreases |parts|
  {
    if |parts| == 0 then []
    else if |parts| == 1 then parts[0]
    else parts[0] + sep + Join(parts[1..], sep)
  }

  /** Python `s.split(sep)` for a non-empty separator: the pieces between the occurrences of
      `sep` found left to right. Joining the pieces with `sep` gives `s` back; that the first
      piece ends at the first occurrence is `SplitFirstPiece`, and that no piece contains `sep`
      is `SplitPiecesFree`. */
  function Split<T(==)>(s: seq<T>, sep: seq<T>): (r: seq<seq<T>>)
    requires |sep| > 0
    decreases |s|
    ensures |r| >= 1
    ensures Join(r, sep) == s
  {
    var i := Find(s, sep);
    if i == -1 then [s]
    else
      var head := s[..i];
      NoOccurrenceInPrefix(s, sep, i);
      [head] + Split(s[i + |sep|..], sep)
  }

  /** A split has a single piece exactly when `sep` does not occur; otherwise the first piece
      ends at the first occurrence, and the rest is the split of what follows it. */
  lemma SplitFirstPiece<T>(s: seq<T>, sep: seq<T>)
    requires |sep| > 0
    ensures |Split(s, sep)| == 1 <==> Find(s, sep) == -1
    ensures |Split(s, sep)| > 1 ==>
      && Find(s, sep) == |Split(s, sep)[0]|
      && Split(s, sep)[1..] == Split(s[Find(s, sep) + |sep|..], sep)
  {
    var i := Find(s, sep);
    if i != -1 {
      assert Split(s, sep) == [s[..i]] + Split(s[i + |sep|..], sep);
    }
  }

  /** No piece of a split contains the separator: each piece ends at the first occurrence
      after its start, and the last piece has none. */
  lemma {:induction false} SplitPiecesFree<T>(s: seq<T>, sep: seq<T>)
    requires |sep| > 0
    decreases |s|
    ensures forall k :: 0 <= k < |Split(s, sep)| ==> !Contains(Split(s, sep)[k], sep)
  {
    var i := Find(s, sep);
    if i != -1 {
      var rest := s[i + |sep|..];
      NoOccurrenceInPrefix(s, sep, i);
      SplitPiecesFree(rest, sep);
      var r := Split(s, sep);
      assert r == [s[..i]] + Split(rest, sep);
      forall k | 0 <= k < |r|
        ensures !Contains(r[k], sep)
      {
        if k > 0 {
          assert r[k] == Split(rest, sep)[k - 1];
        }
      }
    }
  }

  /** No occurrence in `s[..i]` when none starts in `s` before `i`. */
  lemma NoOccurrenceInPrefix<T>(s: seq<T>, sep: seq<T>, i: int)
    requires 0 <= i <= |s|
    requires |sep| > 0
    requires forall j :: 0 <= j < i ==> !OccursAt(s, sep, j)
    ensures !Contains(s[..i], sep)
  {
    forall j | 0 <= j <= i && j + |sep| <= i
      ensures !OccursAt(s[..i], sep, j)
    {
      assert !OccursAt(s, sep, j);
      assert s[..i][j..j + |sep|] == s[j..j + |sep|];
    }
  }

  /** When the first occurrence of `sep` in `a + sep + b` is the one after `a`, splitting
      yields `a` and then the pieces of `b`. */
  lemma SplitAfter<T>(a: seq<T>, sep: seq<T>, b: seq<T>)
    requires |sep| > 0
    requires forall j :: 0 <= j < |a| ==> !OccursAt(a + sep + b, sep, j)
    ensures Split(a + sep + b, sep) == [a] + Split(b, sep)
  {
    var s := a + sep + b;
    assert s[|a|..|a| + |sep|] == sep;
    assert OccursAt(s, sep, |a|);
    assert Find(s, sep) == |a|;
    assert s[..|a|] == a;
    assert s[|a| + |sep|..] == b;
  }

  /** An occurrence of `sep` that starts inside `a` cannot run into the `sep` that follows
      `a` when the first element of `sep` appears nowhere else in it; so if `a` itself does
      not contain `sep`, the first occurrence in `a + sep + b` is right after `a`. */
  lemma NoStraddle<T>(a: seq<T>, sep: seq<T>, b: seq<T>)
    requires |sep| > 0
    requires !Contains(a, sep)
    requires forall d :: 1 <= d < |sep| ==> sep[d] != sep[0]
    ensures forall j :: 0 <= j < |a| ==> !OccursAt(a + sep + b, sep, j)
  {
    var s := a + sep + b;
    forall j | 0 <= j < |a|
      ensures !OccursAt(s, sep, j)
    {
      if j + |sep| <= |a| {
        assert s[j..j + |sep|] == a[j..j + |sep|];
        assert !OccursAt(a, sep, j);
      } else {
        var d := |a| - j;
        assert s[j + d] == sep[0];
        assert s[j..j + |sep|][d] != sep[d];
      }
    }
  }

  /** A separator that is a single element not in `a` is first found right after `a`. */
  lemma SplitAfterSingle<T>(a: seq<T>, c: T, b: seq<T>)
    requires c !in a
    ensures Split(a + [c] + b, [c]) == [a] + Split(b, [c])
  {
    forall j | 0 <= j <= |a|
      ensures !OccursAt(a, [c], j)
    {
      if j + 1 <= |a| {
        assert a[j..j + 1] == [a[j]];
      }
    }
    NoStraddle(a, [c], b);
    SplitAfter(a, [c], b);
  }

  /** A first piece free of a separator that cannot overlap itself is split off whole. */
  lemma SplitAfterFree<T>(a: seq<T>, sep: seq<T>, b: seq<T>)
    requires |sep| > 0 && !Contains(a, sep)
    requires forall d :: 1 <= d < |sep| ==> sep[d] != sep[0]
    ensures Split(a + sep + b, sep) == [a] + Split(b, sep)
  {
    NoStraddle(a, sep, b);
    SplitAfter(a, sep, b);
  }

  /** A sequence that does not contain a single element `c` splits on `[c]` into itself. */
  lemma SplitNone<T>(a: seq<T>, c: T)
    requires c !in a
    ensures Split(a, [c]) == [a]
  {
    forall j | 0 <= j <= |a|
      ensures !OccursAt(a, [c], j)
    {
      if j + 1 <= |a| {
        assert a[j..j + 1] == [a[j]];
      }
    }
  }

  lemma ConcatAssoc<T>(x: seq<T>, y: seq<T>, z: seq<T>)
    ensures x + (y + z) == (x + y) + z
  {
  }

  /** Each piece followed by `sep`. */
  function Terminated<T>(pieces: seq<seq<T>>, sep: seq<T>): seq<T>
    decreases |pieces|
  {
    if pieces == [] then [] else pieces[0] + sep + Terminated(pieces[1..], sep)
  }

  /** When the first element of `sep` occurs nowhere else in it and no piece contains `sep`,
      splitting pieces that are each followed by `sep` gives the pieces back. */
  lemma {:induction false} SplitTerminated<T>(pieces: seq<seq<T>>, sep: seq<T>, tail: seq<T>)
    requires |sep| > 0
    requires forall d :: 1 <= d < |sep| ==> sep[d] != sep[0]
    requires forall k :: 0 <= k < |pieces| ==> !Contains(pieces[k], sep)
    ensures Split(Terminated(pieces, sep) + tail, sep) == pieces + Split(tail, sep)
  {
    if pieces == [] {
      assert Terminated(pieces, sep) + tail == tail;
    } else {
      var a := pieces[0];
      var rest := Terminated(pieces[1..], sep) + tail;
      var whole := Terminated(pieces, sep) + tail;
      assert whole == a + sep + rest;
      SplitAfterFree(a, sep, rest);
      assert forall k :: 0 <= k < |pieces[1..]| ==> pieces[1..][k] == pieces[k + 1];
      SplitTerminated(pieces[1..], sep, tail);
      ConcatAssoc([a], pieces[1..], Split(tail, sep));
      assert [a] + pieces[1..] == pieces;
    }
  }

  /** A sequence that does not contain `sep` is its own single piece. */
  lemma SplitAbsent<T>(s: seq<T>, sep: seq<T>)
    requires |sep| > 0 && !Contains(s, sep)
    ensures Split(s, sep) == [s]
  {
  }

  /** As `SplitTerminated`, with a tail that does not contain `sep` either. */
  lemma SplitTerminatedLast<T>(pieces: seq<seq<T>>, sep: seq<T>, tail: seq<T>)
    requires |sep| > 0
    requires forall d :: 1 <= d < |sep| ==> sep[d] != sep[0]
    requires forall k :: 0 <= k < |pieces| ==> !Contains(pieces[k], sep)
    requires !Contains(tail, sep)
    ensures Split(Terminated(pieces, sep) + tail, sep) == pieces + [tail]
  {
    SplitTerminated(pieces, sep, tail);
    SplitAbsent(tail, sep);
  }

  /** `Join` is `Terminated` on all pieces but the last, then the last. */
  lemma {:induction false} JoinTerminated<T>(pieces: seq<seq<T>>, sep: seq<T>)
    requires |pieces| >= 1
    ensures Join(pieces, sep) == Terminated(pieces[..|pieces| - 1], sep) + pieces[|pieces| - 1]
  {
    if |pieces| > 1 {
      JoinTerminated(pieces[1..], sep);
      assert pieces[1..][..|pieces[1..]| - 1] == pieces[..|pieces| - 1][1..];
    }
  }

  /** Splitting a join gives the pieces back, under the conditions of `SplitTerminated`
      and with the last piece free of `sep` as well. */
  lemma SplitJoin<T>(pieces: seq<seq<T>>, sep: seq<T>)
    requires |pieces| >= 1 && |sep| > 0
    requires forall d :: 1 <= d < |sep| ==> sep[d] != sep[0]
    requires forall k :: 0 <= k < |pieces| ==> !Contains(pieces[k], sep)
    ensures Split(Join(pieces, sep), sep) == pieces
  {
    var init := pieces[..|pieces| - 1];
    var last := pieces[|pieces| - 1];
    assert Join(pieces, sep) == Terminated(init, sep) + last by {
      JoinTerminated(pieces, sep);
    }
    assert Split(Terminated(init, sep) + last, sep) == init + [last] by {
      assert forall k :: 0 <= k < |init| ==> init[k] == pieces[k];
      SplitTerminated(init, sep, last);
      SplitAbsent(last, sep);
    }
    assert init + [last] == pieces;
  }

  /** A sequence without the element `c` does not contain any separator that starts with `c`. */
  lemma NotContainsFirst<T>(s: seq<T>, sep: seq<T>)
    requires |sep| > 0 && sep[0] !in s
    ensures !Contains(s, sep)
  {
    forall j | 0 <= j <= |s|
      ensures !OccursAt(s, sep, j)
    {
      if j + |sep| <= |s| {
        assert s[j..j + |sep|][0] == s[j];
      }
    }
  }

  /** Splitting a join gives the pieces back when the separator's first element occurs in no
      piece (the separator may then end with that element, as `" OR "` does). */
  lemma {:induction false} SplitJoinHeadFree<T>(pieces: seq<seq<T>>, sep: seq<T>)
    requires |pieces| >= 1 && |sep| > 0
    requires forall k :: 0 <= k < |pieces| ==> sep[0] !in pieces[k]
    ensures Split(Join(pieces, sep), sep) == pieces
  {
    var a := pieces[0];
    if |pieces| == 1 {
      NotContainsFirst(a, sep);
      SplitAbsent(a, sep);
    } else {
      var rest := Join(pieces[1..], sep);
      forall j | 0 <= j < |a|
        ensures !OccursAt(a + sep + rest, sep, j)
      {
        if j + |sep| <= |a + sep + rest| {
          assert (a + sep + rest)[j..j + |sep|][0] == a[j];
        }
      }
      SplitAfter(a, sep, rest);
      assert forall k :: 0 <= k < |pieces[1..]| ==> pieces[1..][k] == pieces[k + 1];
      SplitJoinHeadFree(pieces[1..], sep);
      assert [a] + pieces[1..] == pieces;
    }
  }
}
