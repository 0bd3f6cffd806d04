/** Strings as the edit engine sees them: splitting into lines, joining, and a
    lexicographic order (the order `sort.Strings` uses). */
module Text {

  /** `strings.Join(parts, "")`. */
  function Join(parts: seq<string>): string
  {
    if parts == [] then "" else parts[0] + Join(parts[1..])
  }

  lemma {:induction false} JoinAppend(a: seq<string>, b: seq<string>)
    ensures Join(a + b) == Join(a) + Join(b)
  {
    if a == [] {
      assert a + b == b;
    } else {
      assert (a + b)[1..] == a[1..] + b;
      JoinAppend(a[1..], b);
    }
  }

  lemma JoinSnoc(a: seq<string>, x: string)
    ensures Join(a + [x]) == Join(a) + x
  {
    JoinAppend(a, [x]);
    assert Join([x]) == x + Join([]);
  }

  /** The part of a sequence a loop at index `i` has not seen yet. */
  lemma SuffixStep<T>(s: seq<T>, i: nat)
    requires i < |s|
    ensures s[i..] != [] && s[i..][0] == s[i] && s[i..][1..] == s[i + 1..]
  {
  }

  /** `strings.Split(s, "\n")`: the pieces between newlines. */
  function Split(s: string): (lines: seq<string>)
    ensures |lines| > 0
    ensures forall l <- lines :: '\n' !in l
  {
    if s == "" then [""]
    else
      var rest := Split(s[1..]);
      if s[0] == '\n' then [""] + rest else [[s[0]] + rest[0]] + rest[1..]
  }

  /** `strings.SplitAfter(s, "\n")`: the same pieces, each but the last keeping its newline. */
  function SplitAfter(s: string): (lines: seq<string>)
    ensures |lines| > 0
  {
    if s == "" then [""]
    else
      var rest := SplitAfter(s[1..]);
      if s[0] == '\n' then ["\n"] + rest else [[s[0]] + rest[0]] + rest[1..]
  }

  /** A newline after every line but the last. */
  function Terminate(lines: seq<string>): (t: seq<string>)
    ensures |t| == |lines|
  {
    seq(|lines|, i requires 0 <= i < |lines| => if i < |lines| - 1 then lines[i] + "\n" else lines[i])
  }

  lemma TerminateCons(x: string, rest: seq<string>)
    requires rest != []
    ensures Terminate([x] + rest) == [x + "\n"] + Terminate(rest)
  {
    var l, r := Terminate([x] + rest), [x + "\n"] + Terminate(rest);
    forall i | 0 <= i < |l| ensures l[i] == r[i] {
      if i > 0 { assert ([x] + rest)[i] == rest[i - 1]; }
    }
  }

  lemma TerminatePrefix(c: char, rest: seq<string>)
    requires rest != []
    ensures Terminate([[c] + rest[0]] + rest[1..]) == [[c] + Terminate(rest)[0]] + Terminate(rest)[1..]
  {
    var l, r := Terminate([[c] + rest[0]] + rest[1..]), [[c] + Terminate(rest)[0]] + Terminate(rest)[1..];
    assert ([c] + rest[0]) + "\n" == [c] + (rest[0] + "\n");
    forall i | 0 <= i < |l| ensures l[i] == r[i] {
      if i > 0 { assert ([[c] + rest[0]] + rest[1..])[i] == rest[i]; }
    }
  }

  lemma {:induction false} SplitAfterIsTerminatedSplit(s: string)
    ensures SplitAfter(s) == Terminate(Split(s))
  {
    if s != "" {
      SplitAfterIsTerminatedSplit(s[1..]);
      var rest := Split(s[1..]);
      if s[0] == '\n' {
        TerminateCons("", rest);
        assert "" + "\n" == "\n";
      } else {
        TerminatePrefix(s[0], rest);
      }
    }
  }

  lemma {:induction false} JoinSplitAfter(s: string)
    ensures Join(SplitAfter(s)) == s
  {
    if s != "" {
      JoinSplitAfter(s[1..]);
      var rest := SplitAfter(s[1..]);
      if s[0] == '\n' {
        assert (["\n"] + rest)[1..] == rest;
      } else {
        assert ([[s[0]] + rest[0]] + rest[1..])[1..] == rest[1..];
      }
    }
  }

  /** Splitting loses nothing: the pieces, newline-separated, are the string. */
  lemma JoinTerminateSplit(s: string)
    ensures Join(Terminate(Split(s))) == s
  {
    SplitAfterIsTerminatedSplit(s);
    JoinSplitAfter(s);
  }

  lemma SplitIsInjective(a: string, b: string)
    requires Split(a) == Split(b)
    ensures a == b
  {
    JoinTerminateSplit(a);
    JoinTerminateSplit(b);
  }

  /** One physical line: a newline at the end and nowhere else. */
  predicate IsLine(l: string)
  {
    |l| > 0 && l[|l| - 1] == '\n' && '\n' !in l[..|l| - 1]
  }

  lemma {:induction false} SplitAfterLine(l: string, rest: string)
    requires IsLine(l)
    ensures SplitAfter(l + rest) == [l] + SplitAfter(rest)
  {
    var s := l + rest;
    assert s[1..] == l[1..] + rest;
    if |l| == 1 {
      assert l == "\n";
      assert s[1..] == rest;
    } else {
      assert l[0] in l[..|l| - 1];
      assert l[1..][..|l[1..]| - 1] == l[..|l| - 1][1..];
      SplitAfterLine(l[1..], rest);
      assert [l[0]] + l[1..] == l;
      assert ([l[1..]] + SplitAfter(rest))[1..] == SplitAfter(rest);
    }
  }

  /** Re-splitting printed lines gives them back, plus the empty piece after the last newline. */
  lemma {:induction false} SplitAfterJoin(ls: seq<string>)
    requires forall l <- ls :: IsLine(l)
    ensures SplitAfter(Join(ls)) == ls + [""]
  {
    if ls != [] {
      SplitAfterJoin(ls[1..]);
      SplitAfterLine(ls[0], Join(ls[1..]));
      assert ls == [ls[0]] + ls[1..];
    }
  }

  /** `TrimRight(s, "\r\n")`: without the carriage returns and newlines at the end. */
  function TrimRight(s: string): (t: string)
    ensures t <= s
    ensures t != "" ==> t[|t| - 1] != '\r' && t[|t| - 1] != '\n'
    ensures forall k :: |t| <= k < |s| ==> s[k] == '\r' || s[k] == '\n'
  {
    if s != "" && (s[|s| - 1] == '\r' || s[|s| - 1] == '\n') then TrimRight(s[..|s| - 1]) else s
  }

  // ---- reading up to a separator ----

  /** `strings.Cut`: what comes before the first `c`, and what comes after it. */
  function Cut(s: string, c: char): (string, string)
  {
    if s == "" then ("", "")
    else if s[0] == c then ("", s[1..])
    else
      var (before, after) := Cut(s[1..], c);
      ([s[0]] + before, after)
  }

  lemma {:induction false} CutAt(before: string, c: char, after: string)
    requires c !in before
    ensures Cut(before + [c] + after, c) == (before, after)
  {
    var s := before + [c] + after;
    if before == "" {
      assert s == [c] + after;
    } else {
      CutAt(before[1..], c, after);
      assert s[1..] == before[1..] + [c] + after;
      assert before == [before[0]] + before[1..];
    }
  }

  // ---- keys with a separator ----

  lemma SeparatorNotLater(sep: char, m: string, k: string, n: string, l: string)
    requires m + [sep] + k == n + [sep] + l && sep !in l
    ensures |k| >= |l|
  {
    var w := n + [sep] + l;
    assert (m + [sep] + k)[|m|] == sep;
    assert forall q :: |n| < q < |w| ==> w[q] == l[q - |n| - 1];
  }

  /** When the part after a separator cannot contain it, the key determines both parts. */
  lemma SeparatorSplits(sep: char, m: string, k: string, n: string, l: string)
    requires m + [sep] + k == n + [sep] + l && sep !in k && sep !in l
    ensures m == n && k == l
  {
    SeparatorNotLater(sep, m, k, n, l);
    SeparatorNotLater(sep, n, l, m, k);
    var whole := m + [sep] + k;
    assert m == whole[..|m|] && n == whole[..|m|];
    assert k == whole[|m| + 1..] && l == whole[|m| + 1..];
  }

  // ---- lexicographic order ----

  predicate Less(a: string, b: string)
  {
    b != "" && (a == "" || a[0] < b[0] || (a[0] == b[0] && Less(a[1..], b[1..])))
  }

  lemma {:induction false} LessIrreflexive(a: string)
    ensures !Less(a, a)
  {
    if a != "" { LessIrreflexive(a[1..]); }
  }

  lemma {:induction false} LessTransitive(a: string, b: string, c: string)
    requires Less(a, b) && Less(b, c)
    ensures Less(a, c)
  {
    if a != "" && a[0] == b[0] && b[0] == c[0] {
      LessTransitive(a[1..], b[1..], c[1..]);
    }
  }

  lemma {:induction false} LessTotal(a: string, b: string)
    ensures a == b || Less(a, b) || Less(b, a)
  {
    if a != "" && b != "" && a[0] == b[0] {
      LessTotal(a[1..], b[1..]);
      assert a == [a[0]] + a[1..] && b == [b[0]] + b[1..];
    }
  }

  predicate StrictlySorted(s: seq<string>)
  {
    forall i, j :: 0 <= i < j < |s| ==> Less(s[i], s[j])
  }

  /** Insert into a strictly sorted sequence; an element already there stays single. */
  function Insert(x: string, s: seq<string>): (r: seq<string>)
    ensures forall y :: y in r <==> y == x || y in s
    ensures |r| <= |s| + 1
  {
    if s == [] then [x]
    else if x == s[0] then s
    else if Less(x, s[0]) then [x] + s
    else [s[0]] + Insert(x, s[1..])
  }

  lemma {:induction false} InsertSorted(x: string, s: seq<string>)
    requires StrictlySorted(s)
    ensures StrictlySorted(Insert(x, s))
  {
    if s == [] || x == s[0] {
    } else if Less(x, s[0]) {
      forall j | 0 < j < |s| + 1 ensures Less(x, ([x] + s)[j]) {
        if j > 1 { LessTransitive(x, s[0], s[j - 1]); }
      }
    } else {
      LessTotal(x, s[0]);
      InsertSorted(x, s[1..]);
      var r := Insert(x, s[1..]);
      forall j | 0 <= j < |r| ensures Less(s[0], r[j]) {
        assert r[j] in r;
        if r[j] != x {
          var k :| 0 <= k < |s[1..]| && s[1..][k] == r[j];
          assert Less(s[0], s[k + 1]);
        }
      }
    }
  }

  /** The distinct elements of `s`, sorted. */
  function SortDistinct(s: seq<string>): (r: seq<string>)
    ensures StrictlySorted(r)
    ensures forall y :: y in r <==> y in s
    ensures |r| <= |s|
  {
    if s == [] then []
    else
      var rest := SortDistinct(s[1..]);
      InsertSorted(s[0], rest);
      assert forall y :: y in s <==> y == s[0] || y in s[1..];
      Insert(s[0], rest)
  }

  /** A strictly sorted sequence is determined by its elements. */
  lemma {:induction false} SortedUnique(a: seq<string>, b: seq<string>)
    requires StrictlySorted(a) && StrictlySorted(b) && forall x :: x in a <==> x in b
    ensures a == b
  {
    HasElement(a);
    HasElement(b);
    if a != [] {
      assert a[0] in a && b[0] in b;
      FirstIsLeast(a, b[0]);
      FirstIsLeast(b, a[0]);
      if a[0] != b[0] {
        LessTransitive(a[0], b[0], a[0]);
        LessIrreflexive(a[0]);
      }
      RestExcludesFirst(a);
      RestExcludesFirst(b);
      SortedUnique(a[1..], b[1..]);
    }
  }

  lemma HasElement(s: seq<string>)
    ensures s == [] || exists x :: x in s
  {
    if s != [] { assert s[0] in s; }
  }

  lemma FirstIsLeast(a: seq<string>, x: string)
    requires StrictlySorted(a) && x in a
    ensures x == a[0] || Less(a[0], x)
  {
    var k :| 0 <= k < |a| && a[k] == x;
  }

  lemma RestExcludesFirst(a: seq<string>)
    requires StrictlySorted(a) && a != []
    ensures StrictlySorted(a[1..]) && forall x :: x in a[1..] <==> x in a && x != a[0]
  {
    LessIrreflexive(a[0]);
    forall x ensures x in a[1..] <==> x in a && x != a[0] {
      if x in a[1..] {
        var k :| 0 <= k < |a[1..]| && a[1..][k] == x;
        assert Less(a[0], a[k + 1]);
      }
      if x in a && x != a[0] {
        var k :| 0 <= k < |a| && a[k] == x;
        assert a[1..][k - 1] == x;
      }
    }
  }
}
