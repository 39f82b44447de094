/** `KnowledgeBaseAgent.search_knowledge_base`: score every entry against
    the ticket's filtered terms, keep those scoring above zero, sort them by
    descending score (stable) and return the first two; when nothing
    scores, return one entry chosen at random.

    The random choice is the parameter `pick`, an index into the knowledge
    base: the source draws it with `random.choice`. */
module KnowledgeSearch {
  import opened Seqs
  import opened Scoring
  import opened Ranking

  /** The search returns at most this many entries (`result[:2]`). */
  const MaxResults: nat := 2

  /** The ranked part of the search: the best `MaxResults` relevant
      entries, best first, each carrying its score. */
  function RankEntries(kb: seq<Entry>, terms: seq<string>): (r: seq<Hit>)
    ensures |r| == Min(MaxResults, |Relevant(kb, terms)|)
    ensures SortedDesc(r)
    ensures forall i :: 0 <= i < |r| ==>
              && r[i].entry in kb
              && r[i].matchScore == Some(Score(r[i].entry, terms))
              && Key(r[i]) > 0
  {
    var relevant := Relevant(kb, terms);
    var r := Top(relevant, MaxResults);
    assert forall i :: 0 <= i < |r| ==> r[i] in relevant;
    r
  }

  function SearchKnowledgeBase(kb: seq<Entry>, q: Query, pick: nat): (r: seq<Hit>)
    requires kb != [] ==> pick < |kb|
    ensures |r| <= MaxResults
    ensures forall i :: 0 <= i < |r| ==> r[i].entry in kb
    ensures kb == [] ==> r == []
    ensures Relevant(kb, SearchTerms(q)) == [] && kb != [] ==>
              |r| == 1 && r[0].matchScore.None?
    ensures Relevant(kb, SearchTerms(q)) != [] ==>
              && |r| == Min(MaxResults, |Relevant(kb, SearchTerms(q))|)
              && SortedDesc(r)
              && forall i :: 0 <= i < |r| ==>
                   r[i].matchScore == Some(Score(r[i].entry, SearchTerms(q))) && Key(r[i]) > 0
  {
    var terms := SearchTerms(q);
    if Relevant(kb, terms) == [] && kb != [] then [Hit(kb[pick], None)]
    else RankEntries(kb, terms)
  }

  /** When nothing scores, the fallback can be any entry of the knowledge
      base: every entry is returned for some choice. */
  lemma FallbackReachesEveryEntry(kb: seq<Entry>, q: Query, e: Entry)
    requires Relevant(kb, SearchTerms(q)) == []
    requires e in kb
    ensures exists pick: nat :: pick < |kb| && SearchKnowledgeBase(kb, q, pick) == [Hit(e, None)]
  {
    var pick :| 0 <= pick < |kb| && kb[pick] == e;
    assert SearchKnowledgeBase(kb, q, pick) == [Hit(e, None)];
  }

  /** No relevant entry left out of the result outscores an entry in it:
      the result holds the best-scoring relevant entries. */
  lemma ResultIsBest(kb: seq<Entry>, q: Query, pick: nat, h: Hit)
    requires kb != [] ==> pick < |kb|
    requires h in Relevant(kb, SearchTerms(q))
    requires h !in SearchKnowledgeBase(kb, q, pick)
    ensures forall x :: x in SearchKnowledgeBase(kb, q, pick) ==> Key(x) >= Key(h)
  {
    assert SearchKnowledgeBase(kb, q, pick) == Top(Relevant(kb, SearchTerms(q)), MaxResults);
    TopIsBest(Relevant(kb, SearchTerms(q)), MaxResults, h);
  }

  /** Among returned entries of equal score the knowledge-base order is
      kept: for every score, the returned entries of that score are the
      first relevant entries of that score, in knowledge-base order. */
  lemma ResultKeepsTieOrder(kb: seq<Entry>, q: Query, pick: nat, v: nat)
    requires kb != [] ==> pick < |kb|
    requires Relevant(kb, SearchTerms(q)) != []
    ensures IsPrefix(Filter(SearchKnowledgeBase(kb, q, pick), KeyIs(v)),
                     Filter(Relevant(kb, SearchTerms(q)), KeyIs(v)))
  {
    assert SearchKnowledgeBase(kb, q, pick) == Top(Relevant(kb, SearchTerms(q)), MaxResults);
    TopKeepsTieOrder(Relevant(kb, SearchTerms(q)), MaxResults, v);
  }
}
