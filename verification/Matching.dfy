/** The "unique string match" test of the edit engine: `strings.Count(existing, old) == 1`,
    followed by `strings.Replace(existing, old, new, 1)`. */
module Matching {

  predicate OccursAt(s: string, sub: string, i: int)
  {
    0 <= i <= |s| - |sub| && s[i..i + |sub|] == sub
  }

  /** `old` occurs in `s` at one place only: what the engine's documentation promises. */
  ghost predicate Unique(s: string, sub: string)
  {
    exists i :: OccursAt(s, sub, i) && forall j :: OccursAt(s, sub, j) ==> j == i
  }

  /** The first occurrence at or after `i`, or -1. */
  function FindFrom(s: string, sub: string, i: nat): (r: int)
    requires i <= |s|
    ensures r == -1 ==> forall j :: i <= j ==> !OccursAt(s, sub, j)
    ensures r != -1 ==> i <= r && OccursAt(s, sub, r) && forall j :: i <= j < r ==> !OccursAt(s, sub, j)
    decreases |s| - i
  {
    if |s| - i < |sub| then -1
    else if s[i..i + |sub|] == sub then i
    else if i == |s| then -1
    else FindFrom(s, sub, i + 1)
  }

  /** Occurrences found left to right, each search starting after the previous match. */
  function CountFrom(s: string, sub: string, i: nat): nat
    requires sub != "" && i <= |s|
    decreases |s| - i
  {
    var k := FindFrom(s, sub, i);
    if k == -1 then 0 else 1 + CountFrom(s, sub, k + |sub|)
  }

  /** `strings.Count`: matches do not overlap, and the empty string matches around every character. */
  function Count(s: string, sub: string): nat
  {
    if sub == "" then |s| + 1 else CountFrom(s, sub, 0)
  }

  /** `strings.Replace(s, old, new, 1)`. */
  function ReplaceFirst(s: string, old_: string, new_: string): string
  {
    var k := FindFrom(s, old_, 0);
    if k == -1 then s else s[..k] + new_ + s[k + |old_|..]
  }

  /** The first occurrence is at `i` and none begins at or after its end. */
  ghost predicate SoleMatch(s: string, sub: string, i: int)
  {
    OccursAt(s, sub, i) && forall j :: OccursAt(s, sub, j) ==> j == i || i < j < i + |sub|
  }

  /** What the test really establishes: a match, and none beginning after its end. */
  lemma CountOneMeans(s: string, sub: string)
    ensures Count(s, sub) == 1 <==> exists i :: SoleMatch(s, sub, i)
  {
    if sub == "" {
      if s != "" { assert OccursAt(s, sub, 0) && OccursAt(s, sub, |s|); }
      else { assert SoleMatch(s, sub, 0); }
    } else {
      var k := FindFrom(s, sub, 0);
      if k != -1 {
        CountFromZero(s, sub, k + |sub|);
        if CountFrom(s, sub, k + |sub|) == 0 {
          assert SoleMatch(s, sub, k);
        } else {
          var m := FindFrom(s, sub, k + |sub|);
          assert OccursAt(s, sub, k) && OccursAt(s, sub, m);
        }
      }
    }
  }

  lemma CountFromZero(s: string, sub: string, i: nat)
    requires sub != "" && i <= |s|
    ensures CountFrom(s, sub, i) == 0 <==> forall j :: i <= j ==> !OccursAt(s, sub, j)
  {
    var k := FindFrom(s, sub, i);
  }

  /** `sub` has a proper border: shifted by some `k` it agrees with itself. */
  ghost predicate SelfOverlaps(sub: string)
  {
    exists k :: ShiftAgrees(sub, k)
  }

  predicate ShiftAgrees(sub: string, k: int)
  {
    0 < k < |sub| && sub[k..] == sub[..|sub| - k]
  }

  /** A match accepted by the engine need not be unique: "aa" is counted once in "aaa". */
  lemma CountOneNotUnique()
    ensures Count("aaa", "aa") == 1 && !Unique("aaa", "aa")
  {
    assert OccursAt("aaa", "aa", 0) && OccursAt("aaa", "aa", 1);
    assert FindFrom("aaa", "aa", 0) == 0;
    assert FindFrom("aaa", "aa", 2) == -1;
  }

  lemma UniqueCountsOne(s: string, sub: string)
    requires Unique(s, sub)
    ensures Count(s, sub) == 1
  {
    CountOneMeans(s, sub);
    var i :| OccursAt(s, sub, i) && forall j :: OccursAt(s, sub, j) ==> j == i;
    assert SoleMatch(s, sub, i);
  }

  lemma OverlapIsBorder(s: string, sub: string, i: int, j: int)
    requires OccursAt(s, sub, i) && OccursAt(s, sub, j) && i < j < i + |sub|
    ensures ShiftAgrees(sub, j - i)
  {
    var k := j - i;
    assert sub[k..] == s[j..i + |sub|] by {
      assert s[i..i + |sub|][k..] == s[j..i + |sub|];
    }
    assert s[j..j + |sub|][..|sub| - k] == s[j..i + |sub|];
  }

  lemma BorderMakesCollision(sub: string, k: int)
    requires ShiftAgrees(sub, k)
    ensures Count(sub[..k] + sub, sub) == 1 && !Unique(sub[..k] + sub, sub)
  {
    var s := sub[..k] + sub;
    assert OccursAt(s, sub, k);
    assert s[..|sub|] == sub by {
      assert s[..|sub|] == sub[..k] + sub[..|sub| - k];
      assert sub == sub[..k] + sub[k..];
    }
    assert OccursAt(s, sub, 0);
    CountOneMeans(s, sub);
    assert SoleMatch(s, sub, 0);
  }

  /** For which search texts the test means uniqueness, whatever the file: exactly those that do
      not overlap a shifted copy of themselves. */
  lemma CountOneIffUniqueExactly(sub: string)
    ensures (forall s :: Count(s, sub) == 1 ==> Unique(s, sub)) <==> !SelfOverlaps(sub)
  {
    if SelfOverlaps(sub) {
      var k :| ShiftAgrees(sub, k);
      BorderMakesCollision(sub, k);
    } else {
      forall s | Count(s, sub) == 1 ensures Unique(s, sub) {
        CountOneMeans(s, sub);
        var i :| SoleMatch(s, sub, i);
        forall j | OccursAt(s, sub, j) ensures j == i {
          if i < j { OverlapIsBorder(s, sub, i, j); }
        }
      }
    }
  }

  /** The replacement changes only the matched text. */
  lemma ReplaceFirstSplits(s: string, old_: string, new_: string)
    requires Count(s, old_) == 1
    ensures exists p, q :: s == p + old_ + q && ReplaceFirst(s, old_, new_) == p + new_ + q
  {
    CountOneMeans(s, old_);
    var k := FindFrom(s, old_, 0);
    assert s == s[..k] + old_ + s[k + |old_|..];
  }

  /** The replacement is made at the first match. */
  lemma ReplaceFirstAt(s: string, old_: string, new_: string, i: int)
    requires OccursAt(s, old_, i) && forall j :: OccursAt(s, old_, j) ==> i <= j
    ensures ReplaceFirst(s, old_, new_) == s[..i] + new_ + s[i + |old_|..]
  {
  }

  // ---- what is counted ----

  /** Matches one after the other, none overlapping the next. */
  ghost predicate Matches(s: string, sub: string, ps: seq<int>, from: int)
  {
    && (forall i :: 0 <= i < |ps| ==> from <= ps[i] && OccursAt(s, sub, ps[i]))
    && forall i, j :: 0 <= i < j < |ps| ==> ps[i] < ps[j] && ps[i] + |sub| <= ps[j]
  }

  /** As many matches as there can be side by side. */
  ghost predicate Most(s: string, sub: string, k: nat)
  {
    && (exists ps :: Matches(s, sub, ps, 0) && |ps| == k)
    && forall ps :: Matches(s, sub, ps, 0) ==> |ps| <= k
  }

  lemma {:induction false} GreedyMatches(s: string, sub: string, i: nat) returns (ps: seq<int>)
    requires sub != "" && i <= |s|
    ensures Matches(s, sub, ps, i) && |ps| == CountFrom(s, sub, i)
    decreases |s| - i
  {
    var k := FindFrom(s, sub, i);
    if k == -1 {
      ps := [];
    } else {
      var rest := GreedyMatches(s, sub, k + |sub|);
      ps := [k] + rest;
    }
  }

  /** Taking the first match each time loses none. */
  lemma {:induction false} NoMoreThanGreedy(s: string, sub: string, i: nat, ps: seq<int>)
    requires sub != "" && i <= |s| && Matches(s, sub, ps, i)
    ensures |ps| <= CountFrom(s, sub, i)
    decreases |s| - i
  {
    if ps != [] {
      var k := FindFrom(s, sub, i);
      assert OccursAt(s, sub, ps[0]);
      NoMoreThanGreedy(s, sub, k + |sub|, ps[1..]);
    }
  }

  lemma {:induction false} IncreasingFrom(ps: seq<int>, i: nat)
    requires i < |ps| && forall j :: 0 <= j < |ps| ==> 0 <= ps[j]
    requires forall j, k :: 0 <= j < k < |ps| ==> ps[j] < ps[k]
    ensures ps[i] >= i
  {
    if i > 0 { IncreasingFrom(ps, i - 1); }
  }

  /** The count is the largest number of matches that do not overlap; the empty text matches at every place. */
  lemma CountIsMost(s: string, sub: string)
    ensures Most(s, sub, Count(s, sub))
  {
    if sub == "" {
      var all := seq(|s| + 1, i => i);
      assert Matches(s, sub, all, 0);
      forall ps | Matches(s, sub, ps, 0) ensures |ps| <= |s| + 1 {
        if ps != [] {
          IncreasingFrom(ps, |ps| - 1);
          assert OccursAt(s, sub, ps[|ps| - 1]);
        }
      }
    } else {
      var ps := GreedyMatches(s, sub, 0);
      forall qs | Matches(s, sub, qs, 0) ensures |qs| <= Count(s, sub) { NoMoreThanGreedy(s, sub, 0, qs); }
    }
  }

  lemma MostIsOne(s: string, sub: string, j: nat, k: nat)
    requires Most(s, sub, j) && Most(s, sub, k)
    ensures j == k
  {
  }
}
