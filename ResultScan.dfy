/** The result post-processing of `performSearch`, as a function over the
    concatenated hit pages, and what it guarantees. */
module ResultScan {
  import opened Types

  /** The hit pages concatenated in page order. */
  function Flatten(pages: seq<seq<ContentId>>): seq<ContentId> {
    if pages == [] then [] else pages[0] + Flatten(pages[1..])
  }

  predicate NoDuplicates(s: seq<ContentId>) {
    forall i, j :: 0 <= i < j < |s| ==> s[i] != s[j]
  }

  /** `s` can be obtained from `t` by deleting elements. */
  predicate IsSubsequence(s: seq<ContentId>, t: seq<ContentId>)
    decreases |t|
  {
    s == [] || (t != [] && ((s[0] == t[0] && IsSubsequence(s[1..], t[1..])) || IsSubsequence(s, t[1..])))
  }

  /** The hits kept by `performSearch`, going on from the results `acc`
      already collected: a hit is appended when the store says it exists and
      it is not yet among the results (a store error counts as "does not
      exist"), and the scan stops as soon as, after examining a hit, the
      results number at least `maxResults`. */
  function Scan(hits: seq<ContentId>, existence: ContentId -> Existence, maxResults: int, acc: seq<ContentId>): seq<ContentId>
    decreases |hits|
  {
    if hits == [] then acc
    else
      var id := hits[0];
      var acc' := if existence(id) == Exists && id !in acc then acc + [id] else acc;
      if |acc'| >= maxResults then acc' else Scan(hits[1..], existence, maxResults, acc')
  }

  lemma {:induction false} ScanBound(hits: seq<ContentId>, existence: ContentId -> Existence, maxResults: int, acc: seq<ContentId>)
    requires |acc| < maxResults
    ensures |Scan(hits, existence, maxResults, acc)| <= maxResults
    decreases |hits|
  {
    if hits != [] {
      var acc' := if existence(hits[0]) == Exists && hits[0] !in acc then acc + [hits[0]] else acc;
      if |acc'| < maxResults {
        ScanBound(hits[1..], existence, maxResults, acc');
      }
    }
  }

  lemma {:induction false} ScanKeepsAcc(hits: seq<ContentId>, existence: ContentId -> Existence, maxResults: int, acc: seq<ContentId>)
    ensures var r := Scan(hits, existence, maxResults, acc);
      |acc| <= |r| && r[..|acc|] == acc && IsSubsequence(r[|acc|..], hits)
    decreases |hits|
  {
    if hits != [] {
      var id := hits[0];
      var acc' := if existence(id) == Exists && id !in acc then acc + [id] else acc;
      var r := Scan(hits, existence, maxResults, acc);
      if |acc'| >= maxResults {
        assert r == acc';
        if acc' != acc {
          assert r[|acc|..] == [id];
          assert IsSubsequence([id][1..], hits[1..]);
        } else {
          assert r[|acc|..] == [];
        }
      } else {
        ScanKeepsAcc(hits[1..], existence, maxResults, acc');
        assert r == Scan(hits[1..], existence, maxResults, acc');
        if acc' != acc {
          assert r[|acc|..][0] == id && r[|acc|..][1..] == r[|acc'|..];
        } else {
          assert IsSubsequence(r[|acc|..], hits[1..]);
        }
      }
    }
  }

  lemma {:induction false} ScanDistinctExisting(hits: seq<ContentId>, existence: ContentId -> Existence, maxResults: int, acc: seq<ContentId>)
    requires NoDuplicates(acc) && forall id :: id in acc ==> existence(id) == Exists
    ensures var r := Scan(hits, existence, maxResults, acc);
      NoDuplicates(r) && forall id :: id in r ==> existence(id) == Exists
    decreases |hits|
  {
    if hits != [] {
      var id := hits[0];
      var acc' := if existence(id) == Exists && id !in acc then acc + [id] else acc;
      assert forall x :: x in acc' ==> x in acc || x == id;
      ScanDistinctExisting(hits[1..], existence, maxResults, acc');
    }
  }

  lemma {:induction false} ScanComplete(hits: seq<ContentId>, existence: ContentId -> Existence, maxResults: int, acc: seq<ContentId>)
    requires |Scan(hits, existence, maxResults, acc)| < maxResults
    ensures forall id :: id in hits && existence(id) == Exists ==> id in Scan(hits, existence, maxResults, acc)
    decreases |hits|
  {
    if hits != [] {
      var id := hits[0];
      var acc' := if existence(id) == Exists && id !in acc then acc + [id] else acc;
      ScanComplete(hits[1..], existence, maxResults, acc');
      ScanKeepsAcc(hits[1..], existence, maxResults, acc');
      var r := Scan(hits[1..], existence, maxResults, acc');
      assert existence(id) == Exists ==> id in acc';
      assert forall x :: x in acc' ==> x in r[..|acc'|];
      assert forall x :: x in hits ==> x == id || x in hits[1..];
    }
  }

  /** Once the results reach `maxResults`, the scan returns: hits after that
      point, on the same page or on later pages, make no difference. */
  lemma {:induction false} ScanIgnoresLaterHits(hits: seq<ContentId>, more: seq<ContentId>, existence: ContentId -> Existence,
                                                maxResults: int, acc: seq<ContentId>)
    requires hits != [] && |Scan(hits, existence, maxResults, acc)| >= maxResults
    ensures Scan(hits + more, existence, maxResults, acc) == Scan(hits, existence, maxResults, acc)
    decreases |hits|
  {
    var id := hits[0];
    var acc' := if existence(id) == Exists && id !in acc then acc + [id] else acc;
    assert (hits + more)[0] == id && (hits + more)[1..] == hits[1..] + more;
    if |acc'| < maxResults {
      ScanIgnoresLaterHits(hits[1..], more, existence, maxResults, acc');
    }
  }

  /** What `performSearch` promises about its results: no more than
      `maxResults` of them (one at most when `maxResults` is not positive,
      since the size check follows the first examined hit), no duplicates,
      only ids the store reports as existing, in hit order, and, when fewer
      than `maxResults` were found, every existing hit among them. */
  lemma ScanProperties(hits: seq<ContentId>, existence: ContentId -> Existence, maxResults: int)
    ensures var r := Scan(hits, existence, maxResults, []);
      && (maxResults >= 1 ==> |r| <= maxResults)
      && (maxResults < 1 ==> r == if hits != [] && existence(hits[0]) == Exists then [hits[0]] else [])
      && NoDuplicates(r)
      && (forall id :: id in r ==> existence(id) == Exists)
      && IsSubsequence(r, hits)
      && (|r| < maxResults ==> forall id :: id in hits && existence(id) == Exists ==> id in r)
  {
    var r := Scan(hits, existence, maxResults, []);
    if maxResults >= 1 {
      ScanBound(hits, existence, maxResults, []);
    }
    ScanDistinctExisting(hits, existence, maxResults, []);
    ScanKeepsAcc(hits, existence, maxResults, []);
    assert r[0..] == r;
    if |r| < maxResults {
      ScanComplete(hits, existence, maxResults, []);
    }
  }
}
