/** `ORDER BY <key> <direction>` over objectives, and a sort that meets it. */
module Ordering {
  import opened Objectives

  datatype SortKey = Title | CreatedAt | NotifyAt
  datatype SortOrder = Asc | Desc

  /** Code-point lexicographic order on strings. */
  predicate LexLe(a: string, b: string) {
    if a == [] then true
    else if b == [] then false
    else if a[0] != b[0] then a[0] < b[0]
    else LexLe(a[1..], b[1..])
  }

  lemma {:induction false} LexLeTotal(a: string, b: string)
    ensures LexLe(a, b) || LexLe(b, a)
  {
    if a != [] && b != [] && a[0] == b[0] {
      LexLeTotal(a[1..], b[1..]);
    }
  }

  lemma {:induction false} LexLeTransitive(a: string, b: string, c: string)
    requires LexLe(a, b) && LexLe(b, c)
    ensures LexLe(a, c)
  {
    if a != [] && b != [] && c != [] && a[0] == b[0] == c[0] {
      LexLeTransitive(a[1..], b[1..], c[1..]);
    }
  }

  /** Ascending order on the column `key`; a missing `notifyAt` (NULL) sorts
      after every timestamp, so it comes last ascending and first descending. */
  predicate KeyLe(key: SortKey, a: Objective, b: Objective) {
    match key
    case Title => LexLe(a.title, b.title)
    case CreatedAt => a.createdAt <= b.createdAt
    case NotifyAt =>
      match (a.notifyAt, b.notifyAt)
      case (Some(x), Some(y)) => x <= y
      case (_, None) => true
      case (None, Some(_)) => false
  }

  /** `a` may come before `b` in a result ordered by `key` in direction `order`. */
  predicate Precedes(key: SortKey, order: SortOrder, a: Objective, b: Objective) {
    match order
    case Asc => KeyLe(key, a, b)
    case Desc => KeyLe(key, b, a)
  }

  lemma PrecedesTotal(key: SortKey, order: SortOrder, a: Objective, b: Objective)
    ensures Precedes(key, order, a, b) || Precedes(key, order, b, a)
  {
    if key == Title {
      LexLeTotal(a.title, b.title);
    }
  }

  lemma PrecedesTransitive(key: SortKey, order: SortOrder, a: Objective, b: Objective, c: Objective)
    requires Precedes(key, order, a, b) && Precedes(key, order, b, c)
    ensures Precedes(key, order, a, c)
  {
    if key == Title {
      if order == Asc {
        LexLeTransitive(a.title, b.title, c.title);
      } else {
        LexLeTransitive(c.title, b.title, a.title);
      }
    }
  }

  ghost predicate Sorted(key: SortKey, order: SortOrder, s: seq<Objective>) {
    forall i, j :: 0 <= i < j < |s| ==> Precedes(key, order, s[i], s[j])
  }

  /** Inserts `x` into `s` before the first element it precedes. */
  function InsertOrdered(key: SortKey, order: SortOrder, x: Objective, s: seq<Objective>): seq<Objective> {
    if s == [] then [x]
    else if Precedes(key, order, x, s[0]) then [x] + s
    else [s[0]] + InsertOrdered(key, order, x, s[1..])
  }

  /** The rows of `s` ordered by `key` in direction `order`. */
  function SortRows(s: seq<Objective>, key: SortKey, order: SortOrder): seq<Objective> {
    if s == [] then [] else InsertOrdered(key, order, s[0], SortRows(s[1..], key, order))
  }

  lemma {:induction false} InsertOrderedPermutes(key: SortKey, order: SortOrder, x: Objective, s: seq<Objective>)
    ensures multiset(InsertOrdered(key, order, x, s)) == multiset(s) + multiset{x}
  {
    if s != [] && !Precedes(key, order, x, s[0]) {
      InsertOrderedPermutes(key, order, x, s[1..]);
      assert s == [s[0]] + s[1..];
    }
  }

  /** If `y` heads the sorted `[y] + s` and precedes `x`, it precedes every
      element of `t`, any arrangement of `s` plus `x`. */
  lemma HeadPrecedesAll(key: SortKey, order: SortOrder, y: Objective, x: Objective, s: seq<Objective>, t: seq<Objective>)
    requires Sorted(key, order, [y] + s)
    requires Precedes(key, order, y, x)
    requires multiset(t) == multiset(s) + multiset{x}
    ensures forall k :: 0 <= k < |t| ==> Precedes(key, order, y, t[k])
  {
    forall k | 0 <= k < |t|
      ensures Precedes(key, order, y, t[k])
    {
      assert t[k] in multiset(t);
      if t[k] != x {
        assert t[k] in multiset(s);
        var m :| 0 <= m < |s| && s[m] == t[k];
        assert ([y] + s)[0] == y && ([y] + s)[m + 1] == t[k];
      }
    }
  }

  lemma {:induction false} InsertOrderedSorted(key: SortKey, order: SortOrder, x: Objective, s: seq<Objective>)
    requires Sorted(key, order, s)
    ensures Sorted(key, order, InsertOrdered(key, order, x, s))
  {
    if s == [] {
    } else if Precedes(key, order, x, s[0]) {
      var r := [x] + s;
      forall i, j | 0 <= i < j < |r|
        ensures Precedes(key, order, r[i], r[j])
      {
        if i == 0 && j > 1 {
          PrecedesTransitive(key, order, x, s[0], s[j - 1]);
        }
      }
    } else {
      PrecedesTotal(key, order, x, s[0]);
      var t := InsertOrdered(key, order, x, s[1..]);
      assert Sorted(key, order, s[1..]);
      InsertOrderedSorted(key, order, x, s[1..]);
      InsertOrderedPermutes(key, order, x, s[1..]);
      assert s == [s[0]] + s[1..];
      HeadPrecedesAll(key, order, s[0], x, s[1..], t);
      var r := [s[0]] + t;
      forall i, j | 0 <= i < j < |r|
        ensures Precedes(key, order, r[i], r[j])
      {
        if i > 0 {
          assert r[i] == t[i - 1] && r[j] == t[j - 1];
        }
      }
    }
  }

  /** Sorting yields an ordered permutation of its input. */
  lemma {:induction false} SortRowsCorrect(s: seq<Objective>, key: SortKey, order: SortOrder)
    ensures Sorted(key, order, SortRows(s, key, order))
    ensures multiset(SortRows(s, key, order)) == multiset(s)
    ensures |SortRows(s, key, order)| == |s|
  {
    if s != [] {
      SortRowsCorrect(s[1..], key, order);
      InsertOrderedSorted(key, order, s[0], SortRows(s[1..], key, order));
      InsertOrderedPermutes(key, order, s[0], SortRows(s[1..], key, order));
      assert s == [s[0]] + s[1..];
    }
    assert |multiset(SortRows(s, key, order))| == |multiset(s)|;
  }
}
