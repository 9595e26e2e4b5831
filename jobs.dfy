/**
 * The `/jobs` body: one quoted line per query result, the lines sorted as Python
 * sorts strings (code point by code point, a proper prefix first) and concatenated.
 */
module Jobs {
  import opened Wrappers

  /** Python's `a <= b` on strings. */
  predicate LexLe(a: string, b: string)
    decreases |a|
  {
    |a| == 0 || (|b| > 0 && (a[0] < b[0] || (a[0] == b[0] && LexLe(a[1..], b[1..]))))
  }

  lemma {:induction false} LexLeReflexive(a: string)
    ensures LexLe(a, a)
    decreases |a|
  {
    if |a| > 0 { LexLeReflexive(a[1..]); }
  }

  lemma {:induction false} LexLeTotal(a: string, b: string)
    ensures LexLe(a, b) || LexLe(b, a)
    decreases |a|
  {
    if |a| > 0 && |b| > 0 && a[0] == b[0] { LexLeTotal(a[1..], b[1..]); }
  }

  lemma {:induction false} LexLeAntisymmetric(a: string, b: string)
    requires LexLe(a, b) && LexLe(b, a)
    ensures a == b
    decreases |a|
  {
    if |a| > 0 {
      LexLeAntisymmetric(a[1..], b[1..]);
      assert a == [a[0]] + a[1..] && b == [b[0]] + b[1..];
    }
  }

  lemma {:induction false} LexLeTransitive(a: string, b: string, c: string)
    requires LexLe(a, b) && LexLe(b, c)
    ensures LexLe(a, c)
    decreases |a|
  {
    if |a| > 0 && a[0] == b[0] && b[0] == c[0] { LexLeTransitive(a[1..], b[1..], c[1..]); }
  }

  predicate Sorted(s: seq<string>) {
    forall i, j :: 0 <= i < j < |s| ==> LexLe(s[i], s[j])
  }

  /** The line written for one query result: its `job` label in single quotes, `''` when the label is missing. */
  function FormatJob(job: Option<string>): (line: string)
    ensures |line| == |job.GetOr("")| + 3 && line[0] == '\'' && line[|line| - 2..] == "'\n"
    ensures line[1..|line| - 2] == job.GetOr("")
  {
    "'" + job.GetOr("") + "'\n"
  }

  /** The label is read back from its line, but a missing label and an empty one give the same line. */
  lemma FormatJobRecoversLabel(a: Option<string>, b: Option<string>)
    ensures FormatJob(a) == FormatJob(b) <==> a.GetOr("") == b.GetOr("")
    ensures FormatJob(None) == FormatJob(Some(""))
  {
    if FormatJob(a) == FormatJob(b) {
      var line := FormatJob(a);
      assert line[1..|line| - 2] == a.GetOr("") == b.GetOr("");
    }
  }

  function FormatAll(jobs: seq<Option<string>>): (lines: seq<string>)
    ensures |lines| == |jobs|
    ensures forall i :: 0 <= i < |jobs| ==> lines[i] == FormatJob(jobs[i])
  {
    if |jobs| == 0 then [] else [FormatJob(jobs[0])] + FormatAll(jobs[1..])
  }

  /** Python's `''.join(lines)`. */
  function Concat(lines: seq<string>): (s: string)
    ensures |lines| > 0 ==> |s| >= |lines[0]| && s[..|lines[0]|] == lines[0]
  {
    if |lines| == 0 then "" else lines[0] + Concat(lines[1..])
  }

  /** A lower bound of every element of `s` and of `x` bounds every element of a rearrangement of `s` plus `x`. */
  lemma LowerBoundKept(y: string, s: seq<string>, x: string, t: seq<string>)
    requires LexLe(y, x) && forall j :: 0 <= j < |s| ==> LexLe(y, s[j])
    requires multiset(t) == multiset(s) + multiset{x}
    ensures forall k :: 0 <= k < |t| ==> LexLe(y, t[k])
  {
    forall k | 0 <= k < |t| ensures LexLe(y, t[k]) {
      assert t[k] in multiset(t);
      if t[k] != x {
        assert t[k] in multiset(s);
        var j :| 0 <= j < |s| && s[j] == t[k];
      }
    }
  }

  /** Inserts `x` into a sorted sequence in front of the first element that is not below it. */
  function Insert(x: string, s: seq<string>): (r: seq<string>)
    requires Sorted(s)
    ensures Sorted(r) && multiset(r) == multiset(s) + multiset{x}
  {
    if |s| == 0 then [x]
    else if LexLe(x, s[0]) then
      assert forall j :: 0 < j < |s| ==> LexLe(x, s[j]) by {
        forall j | 0 < j < |s| ensures LexLe(x, s[j]) { LexLeTransitive(x, s[0], s[j]); }
      }
      [x] + s
    else
      LexLeTotal(x, s[0]);
      var t := Insert(x, s[1..]);
      assert s == [s[0]] + s[1..];
      LowerBoundKept(s[0], s[1..], x, t);
      [s[0]] + t
  }

  /** The reference order of the `/jobs` lines: an insertion sort of the formatted lines. */
  function SortedLines(lines: seq<string>): (r: seq<string>)
    ensures Sorted(r) && multiset(r) == multiset(lines)
  {
    if |lines| == 0 then []
    else
      assert lines == [lines[0]] + lines[1..];
      Insert(lines[0], SortedLines(lines[1..]))
  }

  /** The first line of a sorted sequence is below every line in it. */
  lemma SortedHeadIsLeast(s: seq<string>, x: string)
    requires Sorted(s) && x in multiset(s)
    ensures LexLe(s[0], x)
  {
    var i :| 0 <= i < |s| && s[i] == x;
    if i == 0 { LexLeReflexive(x); }
  }

  lemma SortedTail(s: seq<string>)
    requires Sorted(s) && |s| > 0
    ensures Sorted(s[1..])
  {
  }

  /** Two sorted arrangements of the same lines are the same sequence. */
  lemma {:induction false} SortedPermutationUnique(a: seq<string>, b: seq<string>)
    requires Sorted(a) && Sorted(b) && multiset(a) == multiset(b)
    ensures a == b
    decreases |a|
  {
    assert |a| == |b| by { assert |b| == |multiset(b)| == |multiset(a)| == |a|; }
    if |a| > 0 {
      assert a[0] == b[0] by {
        assert a[0] in multiset(b) && b[0] in multiset(a);
        SortedHeadIsLeast(b, a[0]);
        SortedHeadIsLeast(a, b[0]);
        LexLeAntisymmetric(a[0], b[0]);
      }
      assert multiset(a[1..]) == multiset(b[1..]) by {
        assert a == [a[0]] + a[1..] && b == [b[0]] + b[1..];
        assert multiset(a[1..]) == multiset(a) - multiset{a[0]};
        assert multiset(b[1..]) == multiset(b) - multiset{b[0]};
      }
      SortedTail(a);
      SortedTail(b);
      SortedPermutationUnique(a[1..], b[1..]);
      assert a == [a[0]] + a[1..];
      assert b == [b[0]] + b[1..];
    }
  }

  /** `s[..hi + 1]` is in order apart from the line at `j`. */
  predicate SortedExcept(s: seq<string>, j: nat, hi: nat)
    requires hi < |s|
  {
    forall p, q :: 0 <= p < q <= hi && p != j && q != j ==> LexLe(s[p], s[q])
  }

  /** The line at `j` is below every line after it up to `hi`. */
  predicate BelowRest(s: seq<string>, j: nat, hi: nat)
    requires j <= hi < |s|
  {
    forall q :: j < q <= hi ==> LexLe(s[j], s[q])
  }

  /** Swapping the line at `j` with a larger one before it moves the gap one place left. */
  lemma SwapStep(s: seq<string>, j: nat, hi: nat)
    requires 0 < j <= hi < |s|
    requires SortedExcept(s, j, hi) && BelowRest(s, j, hi) && !LexLe(s[j - 1], s[j])
    ensures SortedExcept(s[j - 1 := s[j]][j := s[j - 1]], j - 1, hi)
    ensures BelowRest(s[j - 1 := s[j]][j := s[j - 1]], j - 1, hi)
  {
    LexLeTotal(s[j - 1], s[j]);
  }

  /** Once the line at `j` is not below its predecessor, the prefix is in order. */
  lemma InsertDone(s: seq<string>, j: nat, hi: nat)
    requires j <= hi < |s|
    requires SortedExcept(s, j, hi) && BelowRest(s, j, hi)
    requires j == 0 || LexLe(s[j - 1], s[j])
    ensures Sorted(s[..hi + 1])
  {
    forall p, q | 0 <= p < q <= hi ensures LexLe(s[p], s[q]) {
      if q == j && p < j - 1 { LexLeTransitive(s[p], s[j - 1], s[j]); }
    }
  }

  /** Moves `a[i]` left past the larger lines before it, so that `a[..i + 1]` is sorted. */
  method InsertLast(a: array<string>, i: nat)
    requires i < a.Length && Sorted(a[..i])
    modifies a
    ensures Sorted(a[..i + 1])
    ensures multiset(a[..]) == multiset(old(a[..]))
    ensures a[i + 1..] == old(a[i + 1..])
  {
    var j := i;
    assert SortedExcept(a[..], j, i) by {
      forall p, q | 0 <= p < q <= i && p != j && q != j ensures LexLe(a[p], a[q]) {
        assert a[..i][p] == a[p] && a[..i][q] == a[q];
      }
    }
    while j > 0 && !LexLe(a[j - 1], a[j])
      invariant 0 <= j <= i
      invariant SortedExcept(a[..], j, i) && BelowRest(a[..], j, i)
      invariant multiset(a[..]) == multiset(old(a[..]))
      invariant a[i + 1..] == old(a[i + 1..])
    {
      SwapStep(a[..], j, i);
      a[j - 1], a[j] := a[j], a[j - 1];
      j := j - 1;
    }
    InsertDone(a[..], j, i);
  }

  /** `list.sort()` on the formatted lines, in place: ascending order, same lines. */
  method SortInPlace(a: array<string>)
    modifies a
    ensures Sorted(a[..])
    ensures multiset(a[..]) == multiset(old(a[..]))
  {
    var i := 0;
    while i < a.Length
      invariant 0 <= i <= a.Length
      invariant Sorted(a[..i])
      invariant multiset(a[..]) == multiset(old(a[..]))
    {
      InsertLast(a, i);
      i := i + 1;
    }
    assert a[..a.Length] == a[..];
  }

  /** Builds the `/jobs` body from the result labels: format each, sort the lines in place, concatenate. */
  method RenderJobs(jobs: seq<Option<string>>) returns (body: string)
    ensures body == Concat(SortedLines(FormatAll(jobs)))
  {
    var lines := FormatAll(jobs);
    var a := new string[|lines|](i requires 0 <= i < |lines| => lines[i]);
    assert a[..] == lines;
    SortInPlace(a);
    SortedPermutationUnique(a[..], SortedLines(lines));
    body := Concat(a[..]);
  }

  /** The number of newline characters in `s`. */
  function Newlines(s: string): nat {
    if |s| == 0 then 0 else (if s[0] == '\n' then 1 else 0) + Newlines(s[1..])
  }

  lemma {:induction false} NewlinesAppend(s: string, t: string)
    ensures Newlines(s + t) == Newlines(s) + Newlines(t)
    decreases |s|
  {
    if |s| > 0 {
      assert (s + t)[0] == s[0] && (s + t)[1..] == s[1..] + t;
      NewlinesAppend(s[1..], t);
    } else {
      assert s + t == t;
    }
  }

  lemma {:induction false} NewlinesNone(s: string)
    requires '\n' !in s
    ensures Newlines(s) == 0
    decreases |s|
  {
    if |s| > 0 { NewlinesNone(s[1..]); }
  }

  /** The body has one line per query result when no label contains a newline. */
  lemma {:induction false} OneLinePerResult(lines: seq<string>)
    requires forall i :: 0 <= i < |lines| ==> Newlines(lines[i]) == 1
    ensures Newlines(Concat(lines)) == |lines|
    decreases |lines|
  {
    if |lines| > 0 {
      NewlinesAppend(lines[0], Concat(lines[1..]));
      OneLinePerResult(lines[1..]);
    }
  }

  /** A formatted line holds exactly one newline, at its end, when the label has none. */
  lemma FormattedLineHasOneNewline(job: Option<string>)
    requires '\n' !in job.GetOr("")
    ensures Newlines(FormatJob(job)) == 1
  {
    var name := job.GetOr("");
    NewlinesAppend("'" + name, "'\n");
    NewlinesAppend("'", name);
    NewlinesNone(name);
  }

  lemma PermutedLinesKeepOneNewline(lines: seq<string>, sorted: seq<string>)
    requires multiset(sorted) == multiset(lines)
    requires forall i :: 0 <= i < |lines| ==> Newlines(lines[i]) == 1
    ensures forall i :: 0 <= i < |sorted| ==> Newlines(sorted[i]) == 1
  {
    forall i | 0 <= i < |sorted| ensures Newlines(sorted[i]) == 1 {
      assert sorted[i] in multiset(lines);
    }
  }

  /** `/jobs` writes exactly one line per query result when no label contains a newline. */
  lemma JobsBodyLineCount(jobs: seq<Option<string>>)
    requires forall i :: 0 <= i < |jobs| ==> '\n' !in jobs[i].GetOr("")
    ensures Newlines(Concat(SortedLines(FormatAll(jobs)))) == |jobs|
  {
    var lines := FormatAll(jobs);
    forall i | 0 <= i < |lines| ensures Newlines(lines[i]) == 1 {
      FormattedLineHasOneNewline(jobs[i]);
    }
    var sorted := SortedLines(lines);
    PermutedLinesKeepOneNewline(lines, sorted);
    assert |sorted| == |multiset(sorted)| == |multiset(lines)| == |lines|;
    OneLinePerResult(sorted);
  }

  /** Every character is at least the quote character. */
  predicate QuoteFree(s: string) {
    forall i :: 0 <= i < |s| ==> s[i] >= '\''
  }

  lemma {:induction false} QuotedTailOrder(a: string, b: string)
    requires QuoteFree(a) && QuoteFree(b)
    ensures LexLe(a + "'\n", b + "'\n") <==> LexLe(a, b)
    decreases |a|
  {
    var fa, fb := a + "'\n", b + "'\n";
    if |a| > 0 && |b| > 0 {
      assert fa[0] == a[0] && fb[0] == b[0];
      assert fa[1..] == a[1..] + "'\n" && fb[1..] == b[1..] + "'\n";
      QuotedTailOrder(a[1..], b[1..]);
    } else if |a| == 0 && |b| > 0 {
      if b[0] == '\'' {
        assert fa[1..] == "\n" && fb[1..] == b[1..] + "'\n";
        assert fb[1..][0] >= '\'';
      }
    } else if |a| > 0 && |b| == 0 {
      if a[0] == '\'' {
        assert fb[1..] == "\n" && fa[1..] == a[1..] + "'\n";
        assert fa[1..][0] >= '\'';
      }
    } else {
      LexLeReflexive(fa);
    }
  }

  /**
   * Sorting the formatted lines orders them as their labels would be ordered,
   * provided no label holds a character below the quote (space, `!`, `"`, `#`,
   * `$`, `%`, `&` or a control character).
   */
  lemma FormattedOrderIsLabelOrder(a: string, b: string)
    requires QuoteFree(a) && QuoteFree(b)
    ensures LexLe(FormatJob(Some(a)), FormatJob(Some(b))) <==> LexLe(a, b)
  {
    var fa, fb := FormatJob(Some(a)), FormatJob(Some(b));
    assert fa[1..] == a + "'\n" && fb[1..] == b + "'\n";
    QuotedTailOrder(a, b);
  }

  /** Labels with a character below the quote are ordered differently: `a b` sorts before `a`. */
  lemma FormattedOrderDiffersFromLabelOrder()
    ensures LexLe("a", "a b") && !LexLe(FormatJob(Some("a")), FormatJob(Some("a b")))
  {
    assert FormatJob(Some("a"))[1..] == "a'\n";
  }

  lemma ExampleLines()
    ensures FormatAll([Some("b"), Some("a"), None]) == ["'b'\n", "'a'\n", "''\n"]
  {
    var lines := FormatAll([Some("b"), Some("a"), None]);
    assert lines[0] == "'b'\n" && lines[1] == "'a'\n" && lines[2] == "''\n";
  }

  lemma ExampleSorted()
    ensures Sorted(["''\n", "'a'\n", "'b'\n"])
  {
    var expected := ["''\n", "'a'\n", "'b'\n"];
    assert LexLe(expected[0], expected[1]) by { assert expected[1][1..] == "a'\n"; }
    assert LexLe(expected[1], expected[2]) by {
      assert expected[1][1..] == "a'\n" && expected[2][1..] == "b'\n";
    }
    LexLeTransitive(expected[0], expected[1], expected[2]);
  }

  lemma ExampleConcat()
    ensures Concat(["''\n", "'a'\n", "'b'\n"]) == "''\n'a'\n'b'\n"
  {
    var expected := ["''\n", "'a'\n", "'b'\n"];
    var last := expected[1..][1..];
    assert last == ["'b'\n"] && last[1..] == [];
    assert Concat(last) == "'b'\n";
    assert Concat(expected[1..]) == "'a'\n" + "'b'\n";
    assert Concat(expected) == "''\n" + ("'a'\n" + "'b'\n");
  }

  /** Results labelled `b`, `a` and one with no label render as `''`, `'a'`, `'b'`, one per line. */
  lemma JobsExample()
    ensures Concat(SortedLines(FormatAll([Some("b"), Some("a"), None]))) == "''\n'a'\n'b'\n"
  {
    var expected := ["''\n", "'a'\n", "'b'\n"];
    ExampleLines();
    ExampleSorted();
    ExampleConcat();
    var lines := ["'b'\n", "'a'\n", "''\n"];
    assert multiset(expected) == multiset(lines);
    SortedPermutationUnique(SortedLines(lines), expected);
  }
}
