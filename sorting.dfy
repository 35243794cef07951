/**
 * The three orders the dashboard offers (src/components/links-table.tsx:30-39) and an
 * in-place sort for them.  A comparator `cmp(a, b)` lets `a` stay before `b` when it is
 * at most zero, so a list is sorted when every earlier element may precede every later one.
 * `localeCompare` is abstract: the code order is any total preorder `codeLeq` on strings.
 */
module Sorting {
  import opened Records

  /** `SortKey`: "recent" (the `default` branch), "clicks", "code". */
  datatype SortKey = Recent | Clicks | ByCode

  /** A total preorder: every pair is comparable and the relation is transitive. */
  ghost predicate TotalPreorder(leq: (string, string) -> bool) {
    && (forall x, y :: leq(x, y) || leq(y, x))
    && (forall x, y, z :: leq(x, y) && leq(y, z) ==> leq(x, z))
  }

  /** The comparator of `key` is at most zero on (a, b). */
  predicate Before(key: SortKey, codeLeq: (string, string) -> bool, a: LinkDTO, b: LinkDTO) {
    match key
    case Clicks => b.clickCount - a.clickCount <= 0
    case ByCode => codeLeq(a.code, b.code)
    case Recent => b.createdAt - a.createdAt <= 0
  }

  ghost predicate SortedBy(key: SortKey, codeLeq: (string, string) -> bool, s: seq<LinkDTO>) {
    forall i, j :: 0 <= i < j < |s| ==> Before(key, codeLeq, s[i], s[j])
  }

  ghost predicate AdjacentSortedBy(key: SortKey, codeLeq: (string, string) -> bool, s: seq<LinkDTO>) {
    forall k :: 0 < k < |s| ==> Before(key, codeLeq, s[k - 1], s[k])
  }

  lemma BeforeTotal(key: SortKey, codeLeq: (string, string) -> bool, a: LinkDTO, b: LinkDTO)
    requires TotalPreorder(codeLeq)
    ensures Before(key, codeLeq, a, b) || Before(key, codeLeq, b, a)
  {
  }

  lemma BeforeTransitive(key: SortKey, codeLeq: (string, string) -> bool, a: LinkDTO, b: LinkDTO, c: LinkDTO)
    requires TotalPreorder(codeLeq)
    requires Before(key, codeLeq, a, b) && Before(key, codeLeq, b, c)
    ensures Before(key, codeLeq, a, c)
  {
  }

  /** For a transitive order, checking neighbours suffices. */
  lemma {:induction false} AdjacentIsSorted(key: SortKey, codeLeq: (string, string) -> bool, s: seq<LinkDTO>)
    requires TotalPreorder(codeLeq)
    requires AdjacentSortedBy(key, codeLeq, s)
    ensures SortedBy(key, codeLeq, s)
  {
    if |s| > 1 {
      var t := s[..|s| - 1];
      assert AdjacentSortedBy(key, codeLeq, t) by {
        forall k | 0 < k < |t| ensures Before(key, codeLeq, t[k - 1], t[k]) {
          assert t[k - 1] == s[k - 1] && t[k] == s[k];
        }
      }
      AdjacentIsSorted(key, codeLeq, t);
      forall i, j | 0 <= i < j < |s| ensures Before(key, codeLeq, s[i], s[j]) {
        if j < |s| - 1 {
          assert s[i] == t[i] && s[j] == t[j];
        } else if i < |s| - 2 {
          assert s[i] == t[i] && s[|s| - 2] == t[|s| - 2];
          BeforeTransitive(key, codeLeq, s[i], s[|s| - 2], s[j]);
        }
      }
    }
  }

  /** `dataset.sort(cmp)`: insertion sort, each new element swapped leftwards into place. */
  method SortInPlace(a: array<LinkDTO>, key: SortKey, codeLeq: (string, string) -> bool)
    requires TotalPreorder(codeLeq)
    modifies a
    ensures SortedBy(key, codeLeq, a[..])
    ensures multiset(a[..]) == multiset(old(a[..]))
  {
    if a.Length == 0 {
      return;
    }
    var i := 1;
    while i < a.Length
      invariant 1 <= i <= a.Length
      invariant AdjacentSortedBy(key, codeLeq, a[..i])
      invariant multiset(a[..]) == multiset(old(a[..]))
    {
      InsertAt(a, i, key, codeLeq);
      i := i + 1;
    }
    assert a[..] == a[..i];
    AdjacentIsSorted(key, codeLeq, a[..]);
  }

  /** One pass of the insertion sort: `a[..i]` is in order, and `a[i]` joins it. */
  method InsertAt(a: array<LinkDTO>, i: nat, key: SortKey, codeLeq: (string, string) -> bool)
    requires TotalPreorder(codeLeq)
    requires 0 < i < a.Length
    requires AdjacentSortedBy(key, codeLeq, a[..i])
    modifies a
    ensures AdjacentSortedBy(key, codeLeq, a[..i + 1])
    ensures multiset(a[..]) == multiset(old(a[..]))
  {
    assert forall k :: 0 < k < i ==> Before(key, codeLeq, a[k - 1], a[k]) by {
      forall k | 0 < k < i ensures Before(key, codeLeq, a[k - 1], a[k]) {
        assert a[..i][k - 1] == a[k - 1] && a[..i][k] == a[k];
      }
    }
    var j := i;
    while j > 0 && !Before(key, codeLeq, a[j - 1], a[j])
      invariant 0 <= j <= i
      invariant forall k :: 0 < k <= i && k != j ==> Before(key, codeLeq, a[k - 1], a[k])
      invariant 0 < j < i ==> Before(key, codeLeq, a[j - 1], a[j + 1])
      invariant multiset(a[..]) == multiset(old(a[..]))
    {
      BeforeTotal(key, codeLeq, a[j - 1], a[j]);
      Swap(a, j - 1, j);
      j := j - 1;
    }
    ghost var done := a[..i + 1];
    forall k | 0 < k < |done| ensures Before(key, codeLeq, done[k - 1], done[k]) {
      assert done[k - 1] == a[k - 1] && done[k] == a[k];
    }
  }

  /** Exchanges two neighbours, keeping the multiset of elements. */
  method Swap(a: array<LinkDTO>, p: nat, q: nat)
    requires p < q < a.Length
    modifies a
    ensures a[..] == old(a[..])[p := old(a[q])][q := old(a[p])]
    ensures multiset(a[..]) == multiset(old(a[..]))
  {
    a[p], a[q] := a[q], a[p];
  }

  /** Code-point lexicographic order: one concrete total preorder on codes. */
  predicate LexLeq(a: string, b: string) {
    |a| == 0 || (|b| > 0 && (a[0] < b[0] || (a[0] == b[0] && LexLeq(a[1..], b[1..]))))
  }

  lemma {:induction false} LexLeqTotal(a: string, b: string)
    ensures LexLeq(a, b) || LexLeq(b, a)
  {
    if |a| > 0 && |b| > 0 && a[0] == b[0] {
      LexLeqTotal(a[1..], b[1..]);
    }
  }

  lemma {:induction false} LexLeqTransitive(a: string, b: string, c: string)
    requires LexLeq(a, b) && LexLeq(b, c)
    ensures LexLeq(a, c)
  {
    if |a| > 0 && a[0] == b[0] && b[0] == c[0] {
      LexLeqTransitive(a[1..], b[1..], c[1..]);
    }
  }

  lemma LexLeqIsTotalPreorder()
    ensures TotalPreorder(LexLeq)
  {
    forall x, y ensures LexLeq(x, y) || LexLeq(y, x) {
      LexLeqTotal(x, y);
    }
    forall x, y, z | LexLeq(x, y) && LexLeq(y, z) ensures LexLeq(x, z) {
      LexLeqTransitive(x, y, z);
    }
  }
}
