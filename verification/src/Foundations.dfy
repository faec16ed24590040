/** Vocabulary every other module shares: optional values, text, searching and sorting. */
module Foundations {

  datatype Option<+T> = None | Some(value: T)

  /** A string, as ECMAScript holds it: any sequence of UTF-16 code units. */
  type CodeUnit = unit: int | 0 <= unit < 0x1_0000
  type Text = seq<CodeUnit>

  /** A source literal of ASCII characters as text. */
  function Ascii(literal: string): (text: Text)
    requires forall i :: 0 <= i < |literal| ==> literal[i] < 128 as char
    ensures |text| == |literal|
    ensures forall i :: 0 <= i < |literal| ==> text[i] == literal[i] as int
  {
    seq(|literal|, i requires 0 <= i < |literal| => literal[i] as int)
  }

  /** Index of the first element satisfying `p`, or the length when there is none. */
  function FirstIndex<T>(p: T -> bool, s: seq<T>): (index: nat)
    ensures index <= |s|
    ensures index < |s| ==> p(s[index])
    ensures forall i :: 0 <= i < index ==> !p(s[i])
  {
    if s == [] then 0
    else if p(s[0]) then 0
    else
      var rest := FirstIndex(p, s[1..]);
      assert forall i :: 1 <= i < |s| ==> s[i] == s[1..][i - 1];
      1 + rest
  }

  function Max(a: int, b: int): int { if a < b then b else a }

  // ----- Orderings

  /** Code-unit order: what `<` and an argument-less `sort` compare strings by. */
  predicate TextBefore(a: Text, b: Text) {
    if b == [] then false
    else if a == [] then true
    else a[0] < b[0] || (a[0] == b[0] && TextBefore(a[1..], b[1..]))
  }

  /** A consistent comparison: elements it does not separate are tied with the same others. */
  ghost predicate IsWeakOrder<T(!new)>(before: (T, T) -> bool) {
    && (forall x, y :: before(x, y) ==> !before(y, x))
    && (forall x, y, z :: before(x, z) ==> before(x, y) || before(y, z))
  }

  ghost predicate Separates<T(!new)>(before: (T, T) -> bool, s: seq<T>) {
    forall x, y :: x in s && y in s && x != y ==> before(x, y) || before(y, x)
  }

  ghost predicate IsTotalOrder<T(!new)>(before: (T, T) -> bool) {
    IsWeakOrder(before) && forall x, y :: x != y ==> before(x, y) || before(y, x)
  }

  lemma {:induction false} TextBeforeAsymmetric(a: Text, b: Text)
    ensures TextBefore(a, b) ==> !TextBefore(b, a)
    ensures a != b ==> TextBefore(a, b) || TextBefore(b, a)
  {
    if a != [] && b != [] && a[0] == b[0] {
      TextBeforeAsymmetric(a[1..], b[1..]);
      assert a == [a[0]] + a[1..] && b == [b[0]] + b[1..];
    }
  }

  lemma {:induction false} TextBeforeSplits(a: Text, b: Text, c: Text)
    ensures TextBefore(a, c) ==> TextBefore(a, b) || TextBefore(b, c)
  {
    if a != [] && b != [] && c != [] && a[0] == b[0] == c[0] {
      TextBeforeSplits(a[1..], b[1..], c[1..]);
    }
  }

  lemma TextBeforeIsTotalOrder()
    ensures IsTotalOrder(TextBefore)
  {
    forall a, b ensures TextBefore(a, b) ==> !TextBefore(b, a)
    { TextBeforeAsymmetric(a, b); }
    forall a, b | a != b ensures TextBefore(a, b) || TextBefore(b, a)
    { TextBeforeAsymmetric(a, b); }
    forall a, b, c ensures TextBefore(a, c) ==> TextBefore(a, b) || TextBefore(b, c)
    { TextBeforeSplits(a, b, c); }
  }

  // ----- Stable sorting

  ghost predicate Sorted<T>(before: (T, T) -> bool, s: seq<T>) {
    forall i, j :: 0 <= i < j < |s| ==> !before(s[j], s[i])
  }

  function Insert<T>(before: (T, T) -> bool, x: T, s: seq<T>): (r: seq<T>)
    ensures multiset(r) == multiset([x]) + multiset(s)
  {
    if s == [] || !before(s[0], x) then [x] + s
    else
      assert s == [s[0]] + s[1..];
      [s[0]] + Insert(before, x, s[1..])
  }

  /** The stable sort `Array.prototype.sort` performs under a consistent comparison. */
  function Sort<T>(before: (T, T) -> bool, s: seq<T>): (r: seq<T>)
    ensures multiset(r) == multiset(s)
    ensures |r| == |s|
  {
    if s == [] then []
    else
      assert s == [s[0]] + s[1..];
      var r := Insert(before, s[0], Sort(before, s[1..]));
      assert |multiset(r)| == |r| && |multiset(s)| == |s|;
      r
  }

  lemma SameMembers<T>(s: seq<T>, t: seq<T>, x: T)
    requires multiset(s) == multiset(t)
    ensures x in s <==> x in t
  {
    assert x in s <==> x in multiset(s);
    assert x in t <==> x in multiset(t);
  }

  lemma OccursTwice<T>(s: seq<T>, i: nat, j: nat)
    requires i < j < |s|
    ensures s[i] == s[j] ==> multiset(s)[s[i]] >= 2
  {
    assert s == s[..i] + [s[i]] + s[i + 1..j] + [s[j]] + s[j + 1..];
  }

  ghost predicate NoneTwice<T>(s: seq<T>) {
    forall i, j :: 0 <= i < j < |s| ==> s[i] != s[j]
  }

  lemma {:induction false} CountedOnce<T>(s: seq<T>, x: T)
    requires NoneTwice(s)
    ensures multiset(s)[x] == if x in s then 1 else 0
  {
    if s != [] {
      CountedOnce(s[1..], x);
      assert s == [s[0]] + s[1..];
      assert s[0] !in s[1..];
    }
  }

  lemma SameSetSameMultiset<T(!new)>(s: seq<T>, t: seq<T>)
    requires NoneTwice(s) && NoneTwice(t)
    requires forall x :: x in s <==> x in t
    ensures multiset(s) == multiset(t)
  {
    forall x ensures multiset(s)[x] == multiset(t)[x] {
      CountedOnce(s, x);
      CountedOnce(t, x);
    }
  }

  /** Each index below `n` once, in some order. */
  ghost predicate IsPermutation(order: seq<nat>, n: nat) {
    |order| == n && NoneTwice(order) && forall i :: 0 <= i < n ==> order[i] < n
  }

  ghost predicate IsPairing<T(!new)>(s: seq<T>, t: seq<T>, order: seq<nat>) {
    |s| == |t| && IsPermutation(order, |s|) && forall i :: 0 <= i < |s| ==> s[i] == t[order[i]]
  }

  lemma Without<T>(t: seq<T>, j: nat)
    requires j < |t|
    ensures multiset(t[..j] + t[j + 1..]) == multiset(t) - multiset{t[j]}
  {
    assert t == t[..j] + [t[j]] + t[j + 1..];
  }

  /** Two lists with the same members, equally often, can be paired off. */
  lemma {:induction false} PairOff<T(!new)>(s: seq<T>, t: seq<T>) returns (order: seq<nat>)
    requires multiset(s) == multiset(t)
    ensures IsPairing(s, t, order)
  {
    hide IsPairing;
    assert |multiset(s)| == |s| && |multiset(t)| == |t|;
    if s == [] { order := PairNone(s, t); return; }
    var n := |s| - 1;
    SameMembers(s, t, s[n]);
    var j :| 0 <= j < |t| && t[j] == s[n];
    TakenFromBoth(s, t, j);
    var shorter := PairOff(s[..n], t[..j] + t[j + 1..]);
    order := PairOneMore(s, t, j, shorter);
  }

  lemma PairNone<T(!new)>(s: seq<T>, t: seq<T>) returns (order: seq<nat>)
    requires s == t == []
    ensures IsPairing(s, t, order)
  {
    order := [];
  }

  lemma TakenFromBoth<T>(s: seq<T>, t: seq<T>, j: nat)
    requires multiset(s) == multiset(t) && s != [] && j < |t| && t[j] == s[|s| - 1]
    ensures multiset(s[..|s| - 1]) == multiset(t[..j] + t[j + 1..])
  {
    Without(t, j);
    Without(s, |s| - 1);
    assert s[..|s| - 1] + s[|s|..] == s[..|s| - 1];
  }

  lemma PairOneMore<T(!new)>(s: seq<T>, t: seq<T>, j: nat, shorter: seq<nat>) returns (order: seq<nat>)
    requires |s| == |t| > 0 && j < |t| && t[j] == s[|s| - 1]
    requires IsPairing(s[..|s| - 1], t[..j] + t[j + 1..], shorter)
    ensures IsPairing(s, t, order)
  {
    var n := |s| - 1;
    order := seq(n, i requires 0 <= i < n => if shorter[i] < j then shorter[i] else shorter[i] + 1) + [j];
    var rest := t[..j] + t[j + 1..];
    assert forall k :: 0 <= k < |rest| ==> rest[k] == if k < j then t[k] else t[k + 1];
    assert forall i :: 0 <= i < n ==> s[i] == s[..n][i];
  }

  lemma {:induction false} PairedHaveSameMembers<T(!new)>(s: seq<T>, t: seq<T>, order: seq<nat>)
    requires IsPairing(s, t, order)
    ensures multiset(s) == multiset(t)
  {
    if s != [] {
      var n, j := |s| - 1, order[|s| - 1];
      assert s == s[..n] + [s[n]];
      Without(t, j);
      var shorter := seq(n, i requires 0 <= i < n => if order[i] < j then order[i] else order[i] - 1);
      PairedBefore(s, t, j, shorter, order);
      PairedHaveSameMembers(s[..n], t[..j] + t[j + 1..], shorter);
      assert multiset(s) == multiset(s[..n]) + multiset{s[n]};
      assert t[j] in multiset(t);
    }
  }

  lemma PairedBefore<T(!new)>(s: seq<T>, t: seq<T>, j: nat, shorter: seq<nat>, order: seq<nat>)
    requires |s| > 0 && IsPairing(s, t, order) && order[|s| - 1] == j
    requires |shorter| == |s| - 1
    requires forall i :: 0 <= i < |s| - 1 ==> order[i] != j && shorter[i] == if order[i] < j then order[i] else order[i] - 1
    ensures IsPairing(s[..|s| - 1], t[..j] + t[j + 1..], shorter)
  {
    var rest := t[..j] + t[j + 1..];
    assert forall k :: 0 <= k < |rest| ==> rest[k] == if k < j then t[k] else t[k + 1];
  }

  lemma {:induction false} InsertSorted<T(!new)>(before: (T, T) -> bool, x: T, s: seq<T>)
    requires IsWeakOrder(before)
    requires Sorted(before, s)
    ensures Sorted(before, Insert(before, x, s))
  {
    var r := Insert(before, x, s);
    if s == [] {
    } else if !before(s[0], x) {
      forall i, j | 0 <= i < j < |r| ensures !before(r[j], r[i])
      {
        if i == 0 {
          // Were s[j-1] before x, it would be before s[0], or s[0] before x.
          assert r[j] == s[j - 1];
          var first := s[0];
          assert !before(s[j - 1], first) && !before(first, x);
        }
      }
    } else {
      var rest := Insert(before, x, s[1..]);
      InsertSorted(before, x, s[1..]);
      forall i, j | 0 <= i < j < |r| ensures !before(r[j], r[i])
      {
        if i == 0 {
          assert r[j] == rest[j - 1] && rest[j - 1] in multiset(rest);
          assert rest[j - 1] == x || rest[j - 1] in s[1..];
        } else {
          assert r[i] == rest[i - 1] && r[j] == rest[j - 1];
        }
      }
    }
  }

  lemma {:induction false} SortSorts<T(!new)>(before: (T, T) -> bool, s: seq<T>)
    requires IsWeakOrder(before)
    ensures Sorted(before, Sort(before, s))
  {
    if s != [] {
      SortSorts(before, s[1..]);
      InsertSorted(before, s[0], Sort(before, s[1..]));
    }
  }

  /** Two sorted arrangements of one multiset agree once the order separates its members. */
  lemma {:induction false} SortedArrangementsAgree<T(!new)>(before: (T, T) -> bool, s: seq<T>, t: seq<T>)
    requires Sorted(before, s) && Sorted(before, t)
    requires multiset(s) == multiset(t)
    requires Separates(before, s)
    ensures s == t
  {
    hide Sorted, Separates;
    assert |s| == |multiset(s)| && |t| == |multiset(t)|;
    if s != [] {
      SortedStartsAgree(before, s, t);
      SortedRest(before, s);
      SortedRest(before, t);
      SortedArrangementsAgree(before, s[1..], t[1..]);
      assert s == [s[0]] + s[1..] && t == [t[0]] + t[1..];
    }
  }

  lemma SortedStartsAgree<T(!new)>(before: (T, T) -> bool, s: seq<T>, t: seq<T>)
    requires Sorted(before, s) && Sorted(before, t)
    requires multiset(s) == multiset(t) && s != [] && t != []
    requires Separates(before, s)
    ensures s[0] == t[0]
  {
    SameMembers(s, t, s[0]);
    SameMembers(s, t, t[0]);
    var i :| 0 <= i < |s| && s[i] == t[0];
    var j :| 0 <= j < |t| && t[j] == s[0];
    if i > 0 { assert !before(s[i], s[0]); }
    if j > 0 { assert !before(t[j], t[0]); }
  }

  lemma SortedRest<T(!new)>(before: (T, T) -> bool, s: seq<T>)
    requires s != []
    ensures multiset(s[1..]) == multiset(s) - multiset{s[0]}
    ensures Sorted(before, s) ==> Sorted(before, s[1..])
    ensures Separates(before, s) ==> Separates(before, s[1..])
  {
    assert s == [s[0]] + s[1..];
  }

  /** Sorting forgets the order it was given exactly when the comparison separates the members. */
  lemma SortForgetsOrder<T(!new)>(before: (T, T) -> bool, s: seq<T>, t: seq<T>)
    requires IsWeakOrder(before)
    requires multiset(s) == multiset(t)
    requires Separates(before, s)
    ensures Sort(before, s) == Sort(before, t)
  {
    SortSorts(before, s);
    SortSorts(before, t);
    forall x, y | x in Sort(before, s) && y in Sort(before, s) && x != y
      ensures before(x, y) || before(y, x)
    {
      SameMembers(s, Sort(before, s), x);
      SameMembers(s, Sort(before, s), y);
    }
    SortedArrangementsAgree(before, Sort(before, s), Sort(before, t));
  }
}
