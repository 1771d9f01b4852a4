/** `countries.sort((a, b) => a.commonName.localeCompare(b.commonName))`. The collation is
    left abstract: `leq(a, b)` stands for `a.localeCompare(b) <= 0` and is only assumed to
    be a total preorder. `Array.prototype.sort` is stable, which an insertion sort
    reproduces. */
module CountrySorting {
  import opened CountryModel

  ghost predicate TotalPreorder(leq: (string, string) -> bool) {
    (forall a, b :: leq(a, b) || leq(b, a)) &&
    (forall a, b, c :: leq(a, b) && leq(b, c) ==> leq(a, c))
  }

  /** Ordered by common name. */
  ghost predicate SortedByName(s: seq<Country>, leq: (string, string) -> bool) {
    forall i, j :: 0 <= i < j < |s| ==> leq(s[i].commonName, s[j].commonName)
  }

  /** Places `c` before the first country it does not sort after. */
  function Insert(c: Country, s: seq<Country>, leq: (string, string) -> bool): seq<Country> {
    if s == [] then [c]
    else if leq(c.commonName, s[0].commonName) then [c] + s
    else [s[0]] + Insert(c, s[1..], leq)
  }

  function SortByName(s: seq<Country>, leq: (string, string) -> bool): seq<Country> {
    if s == [] then [] else Insert(s[0], SortByName(s[1..], leq), leq)
  }

  /** Two names the collation ranks equal. */
  predicate SameRank(a: string, b: string, leq: (string, string) -> bool) {
    leq(a, b) && leq(b, a)
  }

  /** The countries whose name ranks equal to `k`, in their order in `s`. */
  function RankClass(s: seq<Country>, k: string, leq: (string, string) -> bool): seq<Country> {
    if s == [] then []
    else (if SameRank(s[0].commonName, k, leq) then [s[0]] else []) + RankClass(s[1..], k, leq)
  }

  lemma {:induction false} InsertPermutes(c: Country, s: seq<Country>, leq: (string, string) -> bool)
    ensures multiset(Insert(c, s, leq)) == multiset(s) + multiset{c}
  {
    if s != [] && !leq(c.commonName, s[0].commonName) {
      InsertPermutes(c, s[1..], leq);
      assert s == [s[0]] + s[1..];
    }
  }

  lemma {:induction false} InsertSorted(c: Country, s: seq<Country>, leq: (string, string) -> bool)
    requires TotalPreorder(leq) && SortedByName(s, leq)
    ensures SortedByName(Insert(c, s, leq), leq)
  {
    if s != [] {
      if leq(c.commonName, s[0].commonName) {
        HeadBound(c, s, leq);
        ConsSorted(c, s, leq);
      } else {
        var t := Insert(c, s[1..], leq);
        InsertSorted(c, s[1..], leq);
        InsertPermutes(c, s[1..], leq);
        forall x | x in t ensures leq(s[0].commonName, x.commonName) {
          assert x in multiset(t);
          if x != c {
            assert x in multiset(s[1..]);
            var k :| 0 <= k < |s[1..]| && s[1..][k] == x;
            assert s[k + 1] == x;
          }
        }
        ConsSorted(s[0], t, leq);
      }
    }
  }

  /** A name at or before the head of a sorted list is at or before every name in it. */
  lemma HeadBound(c: Country, s: seq<Country>, leq: (string, string) -> bool)
    requires TotalPreorder(leq) && SortedByName(s, leq) && s != [] && leq(c.commonName, s[0].commonName)
    ensures forall x :: x in s ==> leq(c.commonName, x.commonName)
  {
    forall x | x in s ensures leq(c.commonName, x.commonName) {
      var j :| 0 <= j < |s| && s[j] == x;
      if j > 0 {
        assert leq(s[0].commonName, s[j].commonName);
      }
    }
  }

  /** Putting a country at or before every name of a sorted list in front keeps it sorted. */
  lemma ConsSorted(c: Country, s: seq<Country>, leq: (string, string) -> bool)
    requires SortedByName(s, leq) && forall x :: x in s ==> leq(c.commonName, x.commonName)
    ensures SortedByName([c] + s, leq)
  {
    var r := [c] + s;
    forall i, j | 0 <= i < j < |r| ensures leq(r[i].commonName, r[j].commonName) {
      if i == 0 {
        assert r[j] == s[j - 1];
      } else {
        assert r[i] == s[i - 1] && r[j] == s[j - 1];
      }
    }
  }

  /** Inserting `c` puts it before every country of its rank and moves nothing else. */
  /** No country of `s` that `c` does not sort before ranks equal to `k` together with `c`;
      a total preorder guarantees this (NotBothRanked). */
  ghost predicate RanksApart(c: Country, s: seq<Country>, k: string, leq: (string, string) -> bool) {
    forall x :: x in s && !leq(c.commonName, x.commonName) ==>
      !(SameRank(c.commonName, k, leq) && SameRank(x.commonName, k, leq))
  }

  lemma {:induction false} InsertRankClass(c: Country, s: seq<Country>, k: string, leq: (string, string) -> bool)
    requires RanksApart(c, s, k, leq)
    ensures RankClass(Insert(c, s, leq), k, leq) ==
      (if SameRank(c.commonName, k, leq) then [c] else []) + RankClass(s, k, leq)
  {
    if s == [] {
    } else if leq(c.commonName, s[0].commonName) {
      assert ([c] + s)[1..] == s;
    } else {
      assert forall x :: x in s[1..] ==> x in s;
      InsertRankClass(c, s[1..], k, leq);
      assert s[0] in s;
      InsertRankClassStep(c, s, k, leq);
    }
  }

  /** The step of InsertRankClass where `c` goes past the head of `s`. */
  lemma InsertRankClassStep(c: Country, s: seq<Country>, k: string, leq: (string, string) -> bool)
    requires s != [] && !leq(c.commonName, s[0].commonName)
    requires !(SameRank(c.commonName, k, leq) && SameRank(s[0].commonName, k, leq))
    requires RankClass(Insert(c, s[1..], leq), k, leq) ==
      (if SameRank(c.commonName, k, leq) then [c] else []) + RankClass(s[1..], k, leq)
    ensures RankClass(Insert(c, s, leq), k, leq) ==
      (if SameRank(c.commonName, k, leq) then [c] else []) + RankClass(s, k, leq)
  {
    var t := Insert(c, s[1..], leq);
    var rest := RankClass(s[1..], k, leq);
    var head := if SameRank(s[0].commonName, k, leq) then [s[0]] else [];
    assert Insert(c, s, leq) == [s[0]] + t;
    RankClassCons(s[0], t, k, leq);
    assert RankClass(s, k, leq) == head + rest;
    if SameRank(c.commonName, k, leq) {
      assert head == [];
      assert RankClass(s, k, leq) == rest;
      assert RankClass(Insert(c, s, leq), k, leq) == [c] + rest;
    } else {
      assert RankClass(t, k, leq) == rest;
      assert RankClass(Insert(c, s, leq), k, leq) == RankClass(s, k, leq);
    }
  }

  lemma RankClassCons(x: Country, t: seq<Country>, k: string, leq: (string, string) -> bool)
    ensures RankClass([x] + t, k, leq) == (if SameRank(x.commonName, k, leq) then [x] else []) + RankClass(t, k, leq)
  {
    assert ([x] + t)[1..] == t;
  }

  /** Names on either side of a strict step in the order cannot both rank equal to `k`. */
  lemma NotBothRanked(a: string, b: string, k: string, leq: (string, string) -> bool)
    requires TotalPreorder(leq) && !leq(a, b)
    ensures !(SameRank(a, k, leq) && SameRank(b, k, leq))
  {
  }

  /** The sort orders by name, keeps every country (with its multiplicity), and keeps the
      relative order of countries whose names rank equal. */
  lemma {:induction false} SortByNameSpec(s: seq<Country>, leq: (string, string) -> bool)
    requires TotalPreorder(leq)
    ensures SortedByName(SortByName(s, leq), leq)
    ensures multiset(SortByName(s, leq)) == multiset(s)
    ensures |SortByName(s, leq)| == |s|
    ensures forall k :: RankClass(SortByName(s, leq), k, leq) == RankClass(s, k, leq)
  {
    if s != [] {
      SortByNameSpec(s[1..], leq);
      InsertSorted(s[0], SortByName(s[1..], leq), leq);
      InsertPermutes(s[0], SortByName(s[1..], leq), leq);
      assert s == [s[0]] + s[1..];
      assert |multiset(SortByName(s, leq))| == |multiset(s)|;
      forall k ensures RankClass(SortByName(s, leq), k, leq) == RankClass(s, k, leq) {
        forall x | x in SortByName(s[1..], leq) && !leq(s[0].commonName, x.commonName)
          ensures !(SameRank(s[0].commonName, k, leq) && SameRank(x.commonName, k, leq))
        {
          NotBothRanked(s[0].commonName, x.commonName, k, leq);
        }
        InsertRankClass(s[0], SortByName(s[1..], leq), k, leq);
      }
    }
  }

  /** Sorting an already sorted list changes nothing. */
  lemma {:induction false} SortSortedIsIdentity(s: seq<Country>, leq: (string, string) -> bool)
    requires TotalPreorder(leq) && SortedByName(s, leq)
    ensures SortByName(s, leq) == s
  {
    if s != [] {
      assert SortedByName(s[1..], leq);
      SortSortedIsIdentity(s[1..], leq);
      if |s| > 1 {
        assert leq(s[0].commonName, s[1].commonName);
        assert s == [s[0]] + s[1..];
      }
    }
  }
}
