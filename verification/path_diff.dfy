/**
 * The line-set difference at the heart of CompareFileSystems
 * (src/ex02/compareFS.go:17-56). The two snapshot files arrive as their
 * sequences of lines; the ADDED lines come out in the order they are
 * printed, the REMOVED lines in one of the orders a Go map may yield.
 */
module PathListDiff {

  predicate Distinct(s: seq<string>) {
    forall i, j :: 0 <= i < j < |s| ==> s[i] != s[j]
  }

  /** The line at position i of the new snapshot is reported ADDED: it is
      not an old line, or it has already been seen earlier in the new file. */
  predicate ReportedAdded(olds: seq<string>, news: seq<string>, i: nat)
    requires i < |news|
  {
    news[i] !in olds || news[i] in news[..i]
  }

  /** The ADDED lines, in new-file order. */
  function AddedLines(olds: seq<string>, news: seq<string>): (r: seq<string>)
    ensures |r| <= |news|
    ensures forall k :: 0 <= k < |r| ==> r[k] in news
  {
    if news == [] then []
    else
      var n := |news| - 1;
      AddedLines(olds, news[..n]) + (if ReportedAdded(olds, news, n) then [news[n]] else [])
  }

  /** The REMOVED lines: old lines that never occur in the new file. */
  ghost function RemovedLines(olds: seq<string>, news: seq<string>): set<string> {
    set x | x in olds && x !in news
  }

  method CompareFileSystems(olds: seq<string>, news: seq<string>)
      returns (added: seq<string>, removed: seq<string>)
    ensures added == AddedLines(olds, news)
    ensures Distinct(removed)
    ensures (set x | x in removed) == RemovedLines(olds, news)
  {
    var remaining: set<string> := {};
    var i := 0;
    while i < |olds|
      invariant 0 <= i <= |olds|
      invariant forall x :: x in remaining <==> x in olds[..i]
    {
      assert olds[..i + 1] == olds[..i] + [olds[i]];
      remaining := remaining + {olds[i]};
      i := i + 1;
    }
    assert olds[..|olds|] == olds;

    added := [];
    var j := 0;
    while j < |news|
      invariant 0 <= j <= |news|
      invariant forall x :: x in remaining <==> x in olds && x !in news[..j]
      invariant added == AddedLines(olds, news[..j])
    {
      var line := news[j];
      assert news[..j + 1] == news[..j] + [line];
      assert news[..j + 1][..j] == news[..j];
      if line !in remaining {
        added := added + [line];
      }
      remaining := remaining - {line};
      j := j + 1;
    }
    assert news[..|news|] == news;

    removed := [];
    while remaining != {}
      invariant Distinct(removed)
      invariant forall x :: x in removed ==> x !in remaining
      invariant forall x :: x in removed || x in remaining <==> x in olds && x !in news
      decreases |remaining|
    {
      var x :| x in remaining;
      removed := removed + [x];
      remaining := remaining - {x};
    }
  }

  /** How often a line is reported ADDED: every occurrence in the new file,
      except the first one when the line was already an old line. */
  lemma {:induction false} AddedCount(olds: seq<string>, news: seq<string>, x: string)
    ensures multiset(AddedLines(olds, news))[x] ==
      if x in olds && x in news then multiset(news)[x] - 1 else multiset(news)[x]
  {
    if news != [] {
      var n := |news| - 1;
      var init := news[..n];
      assert news == init + [news[n]];
      AddedCount(olds, init, x);
      assert x in news <==> x in init || x == news[n];
    }
  }

  /** A line is reported ADDED exactly when it is new, or repeated in the
      new file. */
  lemma AddedIff(olds: seq<string>, news: seq<string>, x: string)
    ensures x in AddedLines(olds, news) <==>
      x in news && (x !in olds || multiset(news)[x] >= 2)
  {
    AddedCount(olds, news, x);
  }

  /** No line is reported both ADDED and REMOVED. */
  lemma AddedNotRemoved(olds: seq<string>, news: seq<string>, x: string)
    requires x in AddedLines(olds, news)
    ensures x !in RemovedLines(olds, news)
  {
  }

  /** Comparing a snapshot without repeated lines to itself reports nothing. */
  lemma SameSnapshot(lines: seq<string>)
    requires Distinct(lines)
    ensures AddedLines(lines, lines) == []
    ensures RemovedLines(lines, lines) == {}
  {
    if AddedLines(lines, lines) != [] {
      var x := AddedLines(lines, lines)[0];
      AddedIff(lines, lines, x);
      DistinctOnce(lines, x);
      assert false;
    }
  }

  /** In a sequence without repeats a line occurs at most once. */
  lemma {:induction false} DistinctOnce(s: seq<string>, x: string)
    requires Distinct(s)
    ensures multiset(s)[x] <= 1
  {
    if s != [] {
      var n := |s| - 1;
      assert s == s[..n] + [s[n]];
      DistinctOnce(s[..n], x);
      assert s[n] !in s[..n];
    }
  }

  /** A line kept from the old snapshot but written twice in the new one is
      reported ADDED on its second occurrence: the difference is not
      symmetric. */
  lemma RepeatedLine()
    ensures AddedLines(["a"], ["a", "a"]) == ["a"]
    ensures RemovedLines(["a"], ["a", "a"]) == {}
  {
    var news := ["a", "a"];
    assert news[..1] == ["a"];
    assert ["a"][..0] == [];
    assert ReportedAdded(["a"], news, 1);
  }

  /** One file dropped, one file created. */
  lemma OneInOneOut()
    ensures AddedLines(["a", "b", "c"], ["b", "c", "d"]) == ["d"]
    ensures RemovedLines(["a", "b", "c"], ["b", "c", "d"]) == {"a"}
  {
    var olds, news := ["a", "b", "c"], ["b", "c", "d"];
    assert news[..2] == ["b", "c"];
    assert news[..2][..1] == ["b"];
    assert news[..2][..1][..0] == [];
    assert AddedLines(olds, ["b"]) == [];
    assert AddedLines(olds, ["b", "c"]) == [];
    assert !ReportedAdded(olds, news, 0) && !ReportedAdded(olds, news, 1);
    assert ReportedAdded(olds, news, 2);
    assert "a" in RemovedLines(olds, news);
  }
}
