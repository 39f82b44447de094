/** Ordering of the relevant entries: Python's `list.sort(key=…,
    reverse=True)`, a STABLE sort by descending `match_score`, written as an
    insertion sort. */
module Ranking {
  import opened Seqs
  import opened Scoring

  /** Scores never increase along `s`. */
  predicate SortedDesc(s: seq<Hit>) {
    forall i, j :: 0 <= i < j < |s| ==> Key(s[i]) >= Key(s[j])
  }

  /** Places `h` in front of the first element whose score is not above its
      own, that is after every element that outscores it. */
  function Insert(h: Hit, s: seq<Hit>): (r: seq<Hit>)
    ensures multiset(r) == multiset(s) + multiset{h}
  {
    if s == [] || Key(h) >= Key(s[0]) then [h] + s
    else
      assert s == [s[0]] + s[1..];
      [s[0]] + Insert(h, s[1..])
  }

  /** Inserting into a sorted list keeps it sorted. */
  lemma {:induction false} InsertSorted(h: Hit, s: seq<Hit>)
    requires SortedDesc(s)
    ensures SortedDesc(Insert(h, s))
    decreases |s|
  {
    if s != [] && Key(h) < Key(s[0]) {
      var rest := Insert(h, s[1..]);
      InsertSorted(h, s[1..]);
      forall x | x in rest
        ensures Key(x) <= Key(s[0])
      {
        assert x in multiset(rest);
        assert x == h || x in s[1..];
      }
      assert Insert(h, s) == [s[0]] + rest;
    }
  }

  /** The list sorted by descending score, earlier elements first among
      equal scores. */
  function SortByScore(s: seq<Hit>): (r: seq<Hit>)
    ensures multiset(r) == multiset(s)
    ensures |r| == |s|
    ensures SortedDesc(r)
  {
    if s == [] then []
    else
      assert s == [s[0]] + s[1..];
      var r := Insert(s[0], SortByScore(s[1..]));
      InsertSorted(s[0], SortByScore(s[1..]));
      assert |r| == |multiset(r)| == |multiset(s)| == |s|;
      r
  }

  /** Selects the hits of one score. */
  function KeyIs(v: nat): Hit -> bool {
    h => Key(h) == v
  }

  /** Inserting `h` puts it in front of every element of the same score. */
  lemma {:induction false} InsertBeforeTies(h: Hit, s: seq<Hit>, v: nat)
    ensures Filter(Insert(h, s), KeyIs(v)) ==
            (if Key(h) == v then [h] else []) + Filter(s, KeyIs(v))
    decreases |s|
  {
    if s == [] || Key(h) >= Key(s[0]) {
      FilterCons(h, s, KeyIs(v));
    } else {
      InsertBeforeTies(h, s[1..], v);
      InsertPastTop(h, s, v);
    }
  }

  lemma InsertPastTop(h: Hit, s: seq<Hit>, v: nat)
    requires s != [] && Key(h) < Key(s[0])
    requires Filter(Insert(h, s[1..]), KeyIs(v)) ==
             (if Key(h) == v then [h] else []) + Filter(s[1..], KeyIs(v))
    ensures Filter(Insert(h, s), KeyIs(v)) ==
            (if Key(h) == v then [h] else []) + Filter(s, KeyIs(v))
  {
    var p := KeyIs(v);
    var head: seq<Hit> := if p(s[0]) then [s[0]] else [];
    var mine: seq<Hit> := if Key(h) == v then [h] else [];
    InsertPastHead(h, s);
    FilterCons(s[0], Insert(h, s[1..]), p);
    FilterHead(s, p);
    SwapEmpty(Filter(Insert(h, s), p), Filter(Insert(h, s[1..]), p),
              Filter(s, p), Filter(s[1..], p), head, mine);
  }

  /** Inserting a hit that the first element outscores keeps that element
      first. */
  lemma InsertPastHead(h: Hit, s: seq<Hit>)
    requires s != [] && Key(h) < Key(s[0])
    ensures Insert(h, s) == [s[0]] + Insert(h, s[1..])
  {
  }

  lemma FilterHead(s: seq<Hit>, p: Hit -> bool)
    requires s != []
    ensures Filter(s, p) == (if p(s[0]) then [s[0]] else []) + Filter(s[1..], p)
  {
    assert s == [s[0]] + s[1..];
    FilterCons(s[0], s[1..], p);
  }

  /** Two prefixes of which one is empty commute. */
  lemma SwapEmpty(whole: seq<Hit>, rest: seq<Hit>, all: seq<Hit>, tail: seq<Hit>,
                  head: seq<Hit>, mine: seq<Hit>)
    requires whole == head + rest && rest == mine + tail && all == head + tail
    requires head == [] || mine == []
    ensures whole == mine + all
  {
    if head == [] {
      assert whole == rest;
    } else {
      assert rest == tail;
    }
  }

  /** Stability: the hits of any one score appear in the sorted list in
      exactly the order they had before sorting. */
  lemma {:induction false} SortIsStable(s: seq<Hit>, v: nat)
    ensures Filter(SortByScore(s), KeyIs(v)) == Filter(s, KeyIs(v))
    decreases |s|
  {
    if s != [] {
      SortIsStable(s[1..], v);
      InsertBeforeTies(s[0], SortByScore(s[1..]), v);
      assert s == [s[0]] + s[1..];
      FilterCons(s[0], s[1..], KeyIs(v));
    }
  }

  /** Every sorted hit is one of the hits that were sorted. */
  lemma SortedMembers(s: seq<Hit>)
    ensures forall i :: 0 <= i < |SortByScore(s)| ==> SortByScore(s)[i] in s
  {
    var r := SortByScore(s);
    forall i | 0 <= i < |r|
      ensures r[i] in s
    {
      assert r[i] in multiset(r);
    }
  }

  /** The first `n` hits by descending score. */
  function Top(s: seq<Hit>, n: nat): (r: seq<Hit>)
    ensures |r| == Min(n, |s|)
    ensures SortedDesc(r)
    ensures forall i :: 0 <= i < |r| ==> r[i] in s
  {
    SortedMembers(s);
    SortByScore(s)[..Min(n, |s|)]
  }

  /** No hit left out of the top `n` outscores a hit inside it. */
  lemma TopIsBest(s: seq<Hit>, n: nat, h: Hit)
    requires h in s && h !in Top(s, n)
    ensures forall x :: x in Top(s, n) ==> Key(x) >= Key(h)
  {
    var sorted := SortByScore(s);
    var r := Top(s, n);
    assert h in multiset(sorted);
    var k :| 0 <= k < |sorted| && sorted[k] == h;
    assert k >= |r|;
    forall x | x in r
      ensures Key(x) >= Key(h)
    {
      var j :| 0 <= j < |r| && r[j] == x;
      assert sorted[j] == x;
    }
  }

  /** Within the top `n`, the hits of any one score are the first hits of
      that score in the original order. */
  lemma TopKeepsTieOrder(s: seq<Hit>, n: nat, v: nat)
    ensures IsPrefix(Filter(Top(s, n), KeyIs(v)), Filter(s, KeyIs(v)))
  {
    var sorted := SortByScore(s);
    FilterPrefix(sorted, Min(n, |s|), KeyIs(v));
    SortIsStable(s, v);
  }
}
