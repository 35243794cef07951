/**
 * The dashboard's `filtered` list (src/components/links-table.tsx:26-47): copy the links,
 * sort the copy by the chosen key, then keep the links whose code or url contains the
 * normalized query.  `toLowerCase` is modelled on ASCII letters.
 */
module LinksTable {
  import opened Records
  import opened Sorting
  import opened Validators

  function LowerChar(c: char): char {
    if 'A' <= c <= 'Z' then (c as int - 'A' as int + 'a' as int) as char else c
  }

  function ToLower(s: string): (r: string)
    ensures |r| == |s| && forall i :: 0 <= i < |s| ==> r[i] == LowerChar(s[i])
  {
    seq(|s|, i requires 0 <= i < |s| => LowerChar(s[i]))
  }

  /** `query.trim().toLowerCase()`. */
  function Normalize(query: string): string {
    ToLower(Trim(query))
  }

  /** `hay.includes(needle)`: the needle is a prefix here or further on. */
  predicate Includes(hay: string, needle: string) {
    (|needle| <= |hay| && hay[..|needle|] == needle) || (|hay| > 0 && Includes(hay[1..], needle))
  }

  /** The needle occurs in the haystack starting at position `i`. */
  predicate OccursAt(hay: string, needle: string, i: int) {
    0 <= i <= |hay| - |needle| && hay[i..i + |needle|] == needle
  }

  /** `includes` holds exactly when the needle occurs at some position. */
  lemma {:induction false} IncludesIff(hay: string, needle: string)
    ensures Includes(hay, needle) <==> exists i :: OccursAt(hay, needle, i)
  {
    if |needle| <= |hay| && hay[..|needle|] == needle {
      assert OccursAt(hay, needle, 0);
    } else {
      if exists i :: OccursAt(hay, needle, i) {
        var i :| OccursAt(hay, needle, i);
        assert i != 0;
        assert OccursAt(hay[1..], needle, i - 1) by {
          assert hay[1..][i - 1..i - 1 + |needle|] == hay[i..i + |needle|];
        }
      }
      if |hay| > 0 {
        IncludesIff(hay[1..], needle);
        if Includes(hay[1..], needle) {
          var i :| OccursAt(hay[1..], needle, i);
          assert OccursAt(hay, needle, i + 1) by {
            assert hay[1..][i..i + |needle|] == hay[i + 1..i + 1 + |needle|];
          }
        }
      }
    }
  }

  /** The filter predicate, applied to an already-normalized query. */
  predicate Matches(link: LinkDTO, needle: string) {
    Includes(ToLower(link.code), needle) || Includes(ToLower(link.url), needle)
  }

  /** `r` can be obtained from `s` by deleting elements. */
  predicate IsSubsequence(r: seq<LinkDTO>, s: seq<LinkDTO>)
    decreases |s|
  {
    |r| == 0 || (|s| > 0 && ((r[0] == s[0] && IsSubsequence(r[1..], s[1..])) || IsSubsequence(r, s[1..])))
  }

  /** `dataset.filter(link => Matches(link, needle))`. */
  function KeepMatching(s: seq<LinkDTO>, needle: string): (r: seq<LinkDTO>)
    ensures IsSubsequence(r, s)
    ensures forall x :: x in r <==> x in s && Matches(x, needle)
    ensures forall x :: multiset(r)[x] == if Matches(x, needle) then multiset(s)[x] else 0
  {
    if |s| == 0 then []
    else if Matches(s[0], needle) then
      assert s == [s[0]] + s[1..];
      [s[0]] + KeepMatching(s[1..], needle)
    else
      assert s == [s[0]] + s[1..];
      KeepMatching(s[1..], needle)
  }

  /** Deleting elements from a sorted list leaves it sorted. */
  lemma {:induction false} SubsequenceKeepsOrder(key: SortKey, codeLeq: (string, string) -> bool,
                                                 r: seq<LinkDTO>, s: seq<LinkDTO>)
    requires IsSubsequence(r, s) && SortedBy(key, codeLeq, s)
    ensures SortedBy(key, codeLeq, r)
    ensures forall x :: x in r ==> x in s
    decreases |s|
  {
    if |r| > 0 {
      assert SortedBy(key, codeLeq, s[1..]) by {
        forall i, j | 0 <= i < j < |s[1..]| ensures Before(key, codeLeq, s[1..][i], s[1..][j]) {
          assert s[1..][i] == s[i + 1] && s[1..][j] == s[j + 1];
        }
      }
      if r[0] == s[0] && IsSubsequence(r[1..], s[1..]) {
        SubsequenceKeepsOrder(key, codeLeq, r[1..], s[1..]);
        forall i, j | 0 <= i < j < |r| ensures Before(key, codeLeq, r[i], r[j]) {
          if i == 0 {
            assert r[j] == r[1..][j - 1];
            assert r[j] in r[1..];
            var k :| 0 <= k < |s[1..]| && s[1..][k] == r[j];
            assert s[k + 1] == r[j];
          } else {
            assert r[i] == r[1..][i - 1] && r[j] == r[1..][j - 1];
          }
        }
        forall x | x in r ensures x in s {
          if x != r[0] {
            assert x in r[1..];
          }
        }
      } else {
        SubsequenceKeepsOrder(key, codeLeq, r, s[1..]);
      }
    }
  }

  /** The `filtered` memo.  `links` is a prop and is never written: the sort runs on a
      fresh copy, returned here as `dataset`. */
  method Filtered(links: seq<LinkDTO>, query: string, sort: SortKey, codeLeq: (string, string) -> bool)
    returns (r: seq<LinkDTO>, ghost dataset: seq<LinkDTO>)
    requires TotalPreorder(codeLeq)
    ensures multiset(dataset) == multiset(links) && SortedBy(sort, codeLeq, dataset)
    ensures Normalize(query) == "" ==> r == dataset && multiset(r) == multiset(links)
    ensures Normalize(query) != "" ==> r == KeepMatching(dataset, Normalize(query))
    ensures IsSubsequence(r, dataset) && SortedBy(sort, codeLeq, r)
    ensures forall x :: x in r <==> x in links && (Normalize(query) == "" || Matches(x, Normalize(query)))
  {
    var normalized := Normalize(query);
    var copy := new LinkDTO[|links|](i requires 0 <= i < |links| => links[i]);
    assert copy[..] == links;
    SortInPlace(copy, sort, codeLeq);
    var sorted := copy[..];
    dataset := sorted;
    assert forall x :: x in dataset <==> x in multiset(dataset);
    assert forall x :: x in links <==> x in multiset(links);
    if normalized == "" {
      r := sorted;
      SubsequenceIsReflexive(sorted);
      return;
    }
    r := KeepMatching(sorted, normalized);
    SubsequenceKeepsOrder(sort, codeLeq, r, sorted);
  }

  lemma {:induction false} SubsequenceIsReflexive(s: seq<LinkDTO>)
    ensures IsSubsequence(s, s)
  {
    if |s| > 0 {
      SubsequenceIsReflexive(s[1..]);
    }
  }
}
