/** Shuffling the options of a choice question when it is snapshotted, and grading a selection
    against the snapshot. `indices[i]` is the original position of the option shown at i.
 */
module OptionShuffle {
  import opened Wrappers

  // ---------------------------------------------------------------- grading

  datatype Grade = Grade(correct: bool, points: int)

  function GradeOf(correct: bool, points: nat): Grade {
    Grade(correct, if correct then points else 0)
  }

  /** SINGLE_CHOICE; a selection that is not a number is wrong. */
  function GradeSingle(key: int, selected: Option<int>, points: nat): Grade {
    GradeOf(selected == Some(key), points)
  }

  function Insert(x: int, s: seq<int>): seq<int> {
    if s == [] || x <= s[0] then [x] + s else [s[0]] + Insert(x, s[1..])
  }

  function Sort(s: seq<int>): seq<int> {
    if s == [] then [] else Insert(s[0], Sort(s[1..]))
  }

  /** MULTIPLE_CHOICE: the two lists are compared sorted. */
  function GradeMultiple(key: seq<int>, selected: seq<int>, points: nat): Grade {
    GradeOf(Sort(selected) == Sort(key), points)
  }

  // ---------------------------------------------------------------- shuffling

  function Range(n: nat): seq<int> {
    seq(n, i => i)
  }

  /** What random.shuffle leaves of list(range(n)). */
  ghost predicate IsPermutation(indices: seq<int>) {
    multiset(indices) == multiset(Range(|indices|))
  }

  /** `indices.index(correct)`; None is the ValueError of a key that names no option. */
  function IndexOf(indices: seq<int>, x: int): (r: Option<nat>)
    ensures r.Some? ==> r.value < |indices| && indices[r.value] == x
    ensures r.None? <==> x !in indices
  {
    if indices == [] then None
    else if indices[0] == x then Some(0)
    else match IndexOf(indices[1..], x) case None => None case Some(i) => Some(i + 1)
  }

  /** The positions, in order, whose original option is in the key. */
  function Remap(indices: seq<int>, key: seq<int>): seq<int> {
    if indices == [] then [] else
    var last := |indices| - 1;
    Remap(indices[..last], key) + if indices[last] in key then [last] else []
  }

  function ShuffledKey(indices: seq<int>, key: seq<int>): seq<int> {
    Sort(Remap(indices, key))
  }

  /** The original option behind a selected one; a number that names no option stays itself. */
  function Unpermute(indices: seq<int>, x: int): int {
    if 0 <= x < |indices| then indices[x] else x
  }

  function UnpermuteAll(indices: seq<int>, selected: seq<int>): seq<int> {
    if selected == [] then [] else
    UnpermuteAll(indices, selected[..|selected| - 1]) + [Unpermute(indices, selected[|selected| - 1])]
  }

  // ---------------------------------------------------------------- sorting compares multisets

  ghost predicate Ascending(s: seq<int>) {
    forall i, j :: 0 <= i < j < |s| ==> s[i] <= s[j]
  }

  lemma {:induction false} InsertAbove(x: int, s: seq<int>, low: int)
    requires low <= x && forall i :: 0 <= i < |s| ==> low <= s[i]
    ensures forall i :: 0 <= i < |Insert(x, s)| ==> low <= Insert(x, s)[i]
  {
    if s != [] && x > s[0] { InsertAbove(x, s[1..], low); }
  }

  lemma {:induction false} InsertAscends(x: int, s: seq<int>)
    requires Ascending(s)
    ensures Ascending(Insert(x, s))
  {
    if s != [] && x > s[0] {
      InsertAscends(x, s[1..]);
      InsertAbove(x, s[1..], s[0]);
    }
  }

  lemma {:induction false} InsertMeans(x: int, s: seq<int>)
    ensures multiset(Insert(x, s)) == multiset(s) + multiset{x}
  {
    if s != [] && x > s[0] {
      InsertMeans(x, s[1..]);
      assert s == [s[0]] + s[1..];
    }
  }

  lemma {:induction false} SortAscends(s: seq<int>)
    ensures Ascending(Sort(s))
  {
    if s != [] {
      SortAscends(s[1..]);
      InsertAscends(s[0], Sort(s[1..]));
    }
  }

  lemma {:induction false} SortPermutes(s: seq<int>)
    ensures multiset(Sort(s)) == multiset(s)
  {
    if s != [] {
      SortPermutes(s[1..]);
      InsertMeans(s[0], Sort(s[1..]));
      TailOf(s);
    }
  }

  lemma SortMeans(s: seq<int>)
    ensures Ascending(Sort(s)) && multiset(Sort(s)) == multiset(s)
  {
    SortAscends(s);
    SortPermutes(s);
  }

  lemma FirstIsLeast(a: seq<int>, x: int)
    requires Ascending(a) && x in multiset(a)
    ensures a != [] && a[0] <= x
  {
    assert x in a;
  }

  lemma TailOf(a: seq<int>)
    requires a != []
    ensures multiset(a[1..]) == multiset(a) - multiset{a[0]} && multiset(a) == multiset(a[1..]) + multiset{a[0]}
  {
    assert a == [a[0]] + a[1..];
  }

  lemma SameLength(a: seq<int>, b: seq<int>)
    requires multiset(a) == multiset(b)
    ensures |a| == |b|
  {
    assert |a| == |multiset(a)| && |b| == |multiset(b)|;
  }

  lemma SameFirst(a: seq<int>, b: seq<int>)
    requires Ascending(a) && Ascending(b) && multiset(a) == multiset(b) && a != []
    ensures b != [] && a[0] == b[0] && multiset(a[1..]) == multiset(b[1..])
  {
    FirstIsLeast(b, a[0]);
    FirstIsLeast(a, b[0]);
    TailOf(a);
    TailOf(b);
  }

  lemma {:induction false} AscendingUnique(a: seq<int>, b: seq<int>)
    requires Ascending(a) && Ascending(b) && multiset(a) == multiset(b)
    ensures a == b
  {
    SameLength(a, b);
    if a != [] {
      SameFirst(a, b);
      AscendingUnique(a[1..], b[1..]);
      assert a == [a[0]] + a[1..] && b == [b[0]] + b[1..];
    }
  }

  lemma SortedEqual(a: seq<int>, b: seq<int>)
    ensures Sort(a) == Sort(b) <==> multiset(a) == multiset(b)
  {
    SortMeans(a);
    SortMeans(b);
    if multiset(a) == multiset(b) { AscendingUnique(Sort(a), Sort(b)); }
  }

  // ---------------------------------------------------------------- permutations

  lemma {:induction false} RangeCounts(n: nat, x: int)
    ensures multiset(Range(n))[x] == if 0 <= x < n then 1 else 0
  {
    if n > 0 {
      assert Range(n) == Range(n - 1) + [n - 1];
      RangeCounts(n - 1, x);
    }
  }

  lemma {:induction false} AtLeastTwo(s: seq<int>, i: nat, j: nat)
    requires i < j < |s| && s[i] == s[j]
    ensures multiset(s)[s[i]] >= 2
  {
    assert s == s[..i] + [s[i]] + s[i + 1..j] + [s[j]] + s[j + 1..];
  }

  /** A permutation of range(n) names every position once. */
  lemma PermutationMeans(indices: seq<int>)
    requires IsPermutation(indices)
    ensures forall x :: x in indices <==> 0 <= x < |indices|
    ensures forall i, j :: 0 <= i < |indices| && 0 <= j < |indices| && indices[i] == indices[j] ==> i == j
  {
    forall x ensures x in indices <==> 0 <= x < |indices| {
      RangeCounts(|indices|, x);
      assert x in indices <==> x in multiset(indices);
    }
    forall i, j | 0 <= i < |indices| && 0 <= j < |indices| && indices[i] == indices[j] ensures i == j {
      RangeCounts(|indices|, indices[i]);
      if i < j { AtLeastTwo(indices, i, j); } else if j < i { AtLeastTwo(indices, j, i); }
    }
  }

  lemma UnpermuteOneToOne(indices: seq<int>, x: int, y: int)
    requires IsPermutation(indices)
    ensures Unpermute(indices, x) == Unpermute(indices, y) <==> x == y
  {
    PermutationMeans(indices);
    assert 0 <= x < |indices| ==> Unpermute(indices, x) in indices;
    assert 0 <= y < |indices| ==> Unpermute(indices, y) in indices;
  }

  /** Un-permuting is one-to-one on all numbers, so it keeps counts. */
  lemma {:induction false} UnpermuteCounts(indices: seq<int>, selected: seq<int>, x: int)
    requires IsPermutation(indices)
    ensures multiset(UnpermuteAll(indices, selected))[Unpermute(indices, x)] == multiset(selected)[x]
  {
    if selected != [] {
      var front, last := selected[..|selected| - 1], selected[|selected| - 1];
      UnpermuteCounts(indices, front, x);
      assert selected == front + [last];
      UnpermuteOneToOne(indices, last, x);
    }
  }

  lemma Preimage(indices: seq<int>, y: int) returns (x: int)
    requires IsPermutation(indices)
    ensures Unpermute(indices, x) == y
  {
    PermutationMeans(indices);
    if 0 <= y < |indices| { assert y in indices; x :| 0 <= x < |indices| && indices[x] == y; } else { x := y; }
  }

  lemma UnpermuteInjective(indices: seq<int>, a: seq<int>, b: seq<int>)
    requires IsPermutation(indices)
    ensures multiset(UnpermuteAll(indices, a)) == multiset(UnpermuteAll(indices, b)) <==> multiset(a) == multiset(b)
  {
    var ua, ub := multiset(UnpermuteAll(indices, a)), multiset(UnpermuteAll(indices, b));
    if ua == ub {
      forall x ensures multiset(a)[x] == multiset(b)[x] {
        UnpermuteCounts(indices, a, x);
        UnpermuteCounts(indices, b, x);
      }
    }
    if multiset(a) == multiset(b) {
      forall y ensures ua[y] == ub[y] {
        var x := Preimage(indices, y);
        UnpermuteCounts(indices, a, x);
        UnpermuteCounts(indices, b, x);
      }
    }
  }

  lemma {:induction false} RemapCounts(indices: seq<int>, key: seq<int>, i: int)
    ensures multiset(Remap(indices, key))[i] == if 0 <= i < |indices| && indices[i] in key then 1 else 0
  {
    if indices != [] {
      var last := |indices| - 1;
      RemapCounts(indices[..last], key, i);
      assert 0 <= i < last ==> indices[..last][i] == indices[i];
    }
  }

  // ---------------------------------------------------------------- main results

  /** Shuffling succeeds exactly for a key that names an option, and then grading a selection
      against the snapshot is grading the option behind it against the original. */
  lemma SingleChoiceLaw(indices: seq<int>, key: int, selected: Option<int>, points: nat)
    requires IsPermutation(indices)
    ensures IndexOf(indices, key).Some? <==> 0 <= key < |indices|
    ensures IndexOf(indices, key).Some? ==>
              GradeSingle(IndexOf(indices, key).value, selected, points)
              == GradeSingle(key, if selected.Some? then Some(Unpermute(indices, selected.value)) else None, points)
  {
    PermutationMeans(indices);
  }

  /** A key that names options of the question, each once. */
  ghost predicate SoundKey(n: nat, key: seq<int>) {
    forall x :: multiset(key)[x] <= if 0 <= x < n then 1 else 0
  }

  ghost predicate GradesAlike(indices: seq<int>, key: seq<int>, selected: seq<int>, points: nat) {
    GradeMultiple(ShuffledKey(indices, key), selected, points)
    == GradeMultiple(key, UnpermuteAll(indices, selected), points)
  }

  /** Un-permuting the remapped key names each option of the key once, and nothing else. */
  lemma BackCounts(indices: seq<int>, key: seq<int>, y: int)
    requires IsPermutation(indices)
    ensures multiset(UnpermuteAll(indices, Remap(indices, key)))[y] == if 0 <= y < |indices| && y in key then 1 else 0
  {
    var x := Preimage(indices, y);
    PermutationMeans(indices);
    assert 0 <= x < |indices| ==> y in indices;
    UnpermuteCounts(indices, Remap(indices, key), x);
    RemapCounts(indices, key, x);
  }

  lemma CountsMatch(back: multiset<int>, key: seq<int>, n: nat)
    requires forall y :: back[y] == if 0 <= y < n && y in key then 1 else 0
    ensures back == multiset(key) <==> SoundKey(n, key)
  {
    if SoundKey(n, key) {
      forall y ensures back[y] == multiset(key)[y] {
        assert y in key <==> multiset(key)[y] > 0;
      }
    }
  }

  /** Un-permuting the remapped key gives the key back exactly when the key is sound. */
  lemma RemapRoundTrip(indices: seq<int>, key: seq<int>)
    requires IsPermutation(indices)
    ensures multiset(UnpermuteAll(indices, Remap(indices, key))) == multiset(key) <==> SoundKey(|indices|, key)
  {
    var back := multiset(UnpermuteAll(indices, Remap(indices, key)));
    forall y ensures back[y] == if 0 <= y < |indices| && y in key then 1 else 0 {
      BackCounts(indices, key, y);
    }
    CountsMatch(back, key, |indices|);
  }

  lemma MultipleChoiceStep(indices: seq<int>, key: seq<int>, selected: seq<int>)
    requires IsPermutation(indices)
    ensures Sort(selected) == Sort(ShuffledKey(indices, key))
            <==> multiset(UnpermuteAll(indices, selected)) == multiset(UnpermuteAll(indices, Remap(indices, key)))
  {
    var remapped := Remap(indices, key);
    SortMeans(remapped);
    SortedEqual(selected, Sort(remapped));
    UnpermuteInjective(indices, selected, remapped);
  }

  /** For a sound key every selection, duplicates and stray numbers included, is graded alike. */
  lemma MultipleChoiceLaw(indices: seq<int>, key: seq<int>, selected: seq<int>, points: nat)
    requires IsPermutation(indices) && SoundKey(|indices|, key)
    ensures GradesAlike(indices, key, selected, points)
  {
    MultipleChoiceStep(indices, key, selected);
    RemapRoundTrip(indices, key);
    SortedEqual(UnpermuteAll(indices, selected), key);
  }

  /** And only for a sound key: with a repeated or stray entry the remapped key itself is
      graded correct on the snapshot and wrong on the original. */
  lemma UnsoundKeyBreaksLaw(indices: seq<int>, key: seq<int>, points: nat)
    requires IsPermutation(indices) && !SoundKey(|indices|, key)
    ensures !GradesAlike(indices, key, Remap(indices, key), points)
  {
    var remapped := Remap(indices, key);
    MultipleChoiceStep(indices, key, remapped);
    RemapRoundTrip(indices, key);
    SortedEqual(UnpermuteAll(indices, remapped), key);
  }

  // ---------------------------------------------------------------- what a grade is

  /** A single choice is correct exactly for the key; a multiple choice exactly for the key's entries,
      in whatever order; correct is worth all points and anything else none. */
  lemma GradesMean(key: int, selected: Option<int>, keys: seq<int>, all: seq<int>, points: nat)
    ensures GradeSingle(key, selected, points).correct <==> selected == Some(key)
    ensures GradeSingle(key, selected, points).points == if selected == Some(key) then points else 0
    ensures GradeMultiple(keys, all, points).correct <==> multiset(all) == multiset(keys)
    ensures GradeMultiple(keys, all, points).points == if multiset(all) == multiset(keys) then points else 0
  {
    SortedEqual(all, keys);
  }
}
