/** Relevance scoring of `KnowledgeBaseAgent.search_knowledge_base`: which
    words of a ticket become search terms, and how many points each
    knowledge-base entry earns from them.

    Scores are kept as natural numbers TWICE the source's: a matching tag is
    worth 4 (source: 2), a term found in the title 2 (source: 1) and a term
    found in the summary 1 (source: 0.5). Doubling changes neither the
    `> 0` test nor the order of entries. */
module Scoring {
  import opened Seqs
  import opened Text

  /** A knowledge-base entry (one playbook). The built-in placeholder
      entries carry no full text, hence the option. `content` is the
      summary the search looks at. */
  datatype Entry = Entry(
    id: string,
    title: string,
    content: string,
    fullContent: Option<string>,
    link: string,
    tags: seq<string>)

  /** An entry as returned by the search: a ranked copy carries its (doubled)
      `match_score`, the random fallback entry carries none. */
  datatype Hit = Hit(entry: Entry, matchScore: Option<nat>)

  /** The sort key `x.get("match_score", 0)`. */
  function Key(h: Hit): nat {
    match h.matchScore
    case Some(k) => k
    case None => 0
  }

  /** The parts of a ticket the search reads. Each field may be missing, as
      the source checks `"title" in ticket`, `"issue" in ticket` and so on
      before reading it. */
  datatype QueryIssue = QueryIssue(issueType: Option<string>, service: Option<string>)
  datatype Query = Query(title: Option<string>, description: Option<string>, issue: Option<QueryIssue>)

  /** `field.lower().split()`, or nothing when the field is missing. */
  function FieldWords(field: Option<string>): (r: seq<string>)
    ensures forall i :: 0 <= i < |r| ==> r[i] != [] && NoSpace(r[i]) && NoUpper(r[i])
  {
    match field
    case None => []
    case Some(s) =>
      LowerChars(s);
      WordsNoUpper(Lower(s));
      Words(Lower(s))
  }

  /** All whitespace-separated, lower-cased words of the title, the
      description, the issue type and the service, in that order. */
  function ExtractTerms(q: Query): (r: seq<string>)
    ensures forall i :: 0 <= i < |r| ==> r[i] != [] && NoSpace(r[i]) && NoUpper(r[i])
    ensures q.title.None? && q.description.None? && q.issue.None? ==> r == []
  {
    var fromIssue :=
      match q.issue
      case None => []
      case Some(issue) => FieldWords(issue.issueType) + FieldWords(issue.service);
    FieldWords(q.title) + FieldWords(q.description) + fromIssue
  }

  /** The lower-cased text of a field, or nothing when it is missing. */
  function FieldText(field: Option<string>): string {
    match field
    case None => []
    case Some(s) => Lower(s)
  }

  /** The lower-cased text of the present fields, title, description, issue
      type and service, in that order. */
  function QueryText(q: Query): string {
    var fromIssue :=
      match q.issue
      case None => []
      case Some(issue) => FieldText(issue.issueType) + FieldText(issue.service);
    FieldText(q.title) + FieldText(q.description) + fromIssue
  }

  /** The extracted words lose nothing but whitespace: put back together
      they are exactly the non-whitespace characters of the lower-cased
      present fields, in field order. */
  lemma ExtractTermsKeepAllText(q: Query)
    ensures Concat(ExtractTerms(q)) == Filter(QueryText(q), NotSpace)
  {
    var t := FieldWords(q.title);
    var d := FieldWords(q.description);
    FieldWordsKeepAllText(q.title);
    FieldWordsKeepAllText(q.description);
    var fromIssue: seq<string> :=
      match q.issue
      case None => []
      case Some(issue) => FieldWords(issue.issueType) + FieldWords(issue.service);
    var issueText: string :=
      match q.issue
      case None => []
      case Some(issue) => FieldText(issue.issueType) + FieldText(issue.service);
    assert Concat(fromIssue) == Filter(issueText, NotSpace) by {
      match q.issue
      case None =>
      case Some(issue) =>
        FieldWordsKeepAllText(issue.issueType);
        FieldWordsKeepAllText(issue.service);
        ConcatAppend(FieldWords(issue.issueType), FieldWords(issue.service));
        FilterAppend(FieldText(issue.issueType), FieldText(issue.service), NotSpace);
    }
    ConcatAppend(t + d, fromIssue);
    ConcatAppend(t, d);
    FilterAppend(FieldText(q.title) + FieldText(q.description), issueText, NotSpace);
    FilterAppend(FieldText(q.title), FieldText(q.description), NotSpace);
  }

  lemma FieldWordsKeepAllText(field: Option<string>)
    ensures Concat(FieldWords(field)) == Filter(FieldText(field), NotSpace)
  {
    if field.Some? {
      WordsKeepAllText(Lower(field.value));
    }
  }

  const StopWords: seq<string> := ["the", "and", "for", "with", "this", "that"]

  predicate KeepTerm(t: string) {
    |t| > 3 && t !in StopWords
  }

  /** The filtered search terms: words longer than three characters that are
      not stop words. */
  function SearchTerms(q: Query): (r: seq<string>)
    ensures forall i :: 0 <= i < |r| ==> |r[i]| > 3 && r[i] !in StopWords
  {
    Filter(ExtractTerms(q), KeepTerm)
  }

  /** Filtering keeps the order and the multiplicity of the words it keeps
      and drops every other word. */
  lemma SearchTermsKeepOrderAndCount(q: Query)
    ensures Subseq(SearchTerms(q), ExtractTerms(q))
    ensures forall t :: multiset(SearchTerms(q))[t] ==
              if |t| > 3 && t !in StopWords then multiset(ExtractTerms(q))[t] else 0
  {
    FilterIsSubseq(ExtractTerms(q), KeepTerm);
    FilterMultiset(ExtractTerms(q), KeepTerm);
  }

  // ---------------------------------------------------------------------
  // Points

  const TagWeight: nat := 4
  const TitleWeight: nat := 2
  const ContentWeight: nat := 1

  /** A tag and a term match when either occurs inside the other. The tag is
      NOT lower-cased, so the comparison is case-sensitive. */
  predicate TagTermMatch(tag: string, term: string) {
    IsSubstring(term, tag) || IsSubstring(tag, term)
  }

  predicate TagMatches(tag: string, terms: seq<string>) {
    exists i :: 0 <= i < |terms| && TagTermMatch(tag, terms[i])
  }

  /** Points from the tags: `TagWeight` for every tag that some term
      matches, however many terms match it. */
  function TagScore(tags: seq<string>, terms: seq<string>): (r: nat)
    ensures r <= TagWeight * |tags|
    ensures r % TagWeight == 0
    ensures r > 0 <==> exists i :: 0 <= i < |tags| && TagMatches(tags[i], terms)
  {
    if tags == [] then 0
    else
      var rest := TagScore(tags[1..], terms);
      assert forall i :: 1 <= i < |tags| ==> tags[i] == tags[1..][i - 1];
      (if TagMatches(tags[0], terms) then TagWeight else 0) + rest
  }

  /** Points from one text: `weight` for every term, repeats included, that
      occurs in `text`. */
  function TermScore(terms: seq<string>, text: string, weight: nat): (r: nat)
    ensures r <= weight * |terms|
    ensures r > 0 <==> weight > 0 && exists i :: 0 <= i < |terms| && IsSubstring(terms[i], text)
  {
    if terms == [] then 0
    else
      var rest := TermScore(terms[1..], text, weight);
      assert forall i :: 1 <= i < |terms| ==> terms[i] == terms[1..][i - 1];
      assert weight * |terms| == weight + weight * |terms[1..]|;
      (if IsSubstring(terms[0], text) then weight else 0) + rest
  }

  /** The (doubled) `match_score` of an entry for the given filtered terms. */
  function Score(e: Entry, terms: seq<string>): (r: nat)
    ensures r <= TagWeight * |e.tags| + (TitleWeight + ContentWeight) * |terms|
    ensures r > 0 <==>
      || (exists i :: 0 <= i < |e.tags| && TagMatches(e.tags[i], terms))
      || (exists i :: 0 <= i < |terms| && IsSubstring(terms[i], Lower(e.title)))
      || (exists i :: 0 <= i < |terms| && IsSubstring(terms[i], Lower(e.content)))
  {
    TagScore(e.tags, terms)
      + TermScore(terms, Lower(e.title), TitleWeight)
      + TermScore(terms, Lower(e.content), ContentWeight)
  }

  /** Selects the tags some term matches. */
  function MatchedBy(terms: seq<string>): string -> bool {
    tag => TagMatches(tag, terms)
  }

  /** Selects the terms that occur in `text`. */
  function OccursIn(text: string): string -> bool {
    term => IsSubstring(term, text)
  }

  /** The tag score is `TagWeight` times the number of matching tags: each
      tag contributes at most once. */
  lemma {:induction false} TagScoreCountsTags(tags: seq<string>, terms: seq<string>)
    ensures TagScore(tags, terms) == TagWeight * |Filter(tags, MatchedBy(terms))|
    decreases |tags|
  {
    if tags != [] {
      TagScoreCountsTags(tags[1..], terms);
    }
  }

  /** The title and summary scores are the weight times the number of
      matching terms, repeats included. */
  lemma {:induction false} TermScoreCountsTerms(terms: seq<string>, text: string, weight: nat)
    ensures TermScore(terms, text, weight) == weight * |Filter(terms, OccursIn(text))|
    decreases |terms|
  {
    if terms != [] {
      TermScoreCountsTerms(terms[1..], text, weight);
      TermScoreCountStep(terms, text, weight);
    }
  }

  lemma TermScoreCountStep(terms: seq<string>, text: string, weight: nat)
    requires terms != []
    requires TermScore(terms[1..], text, weight) == weight * |Filter(terms[1..], OccursIn(text))|
    ensures TermScore(terms, text, weight) == weight * |Filter(terms, OccursIn(text))|
  {
    var rest := Filter(terms[1..], OccursIn(text));
    if IsSubstring(terms[0], text) {
      assert Filter(terms, OccursIn(text)) == [terms[0]] + rest;
      assert weight * (1 + |rest|) == weight + weight * |rest|;
    } else {
      assert Filter(terms, OccursIn(text)) == rest;
    }
  }

  /** Repeating the whole term list doubles the title and summary points
      but leaves the tag points as they were. */
  lemma {:induction false} RepeatedTerms(e: Entry, terms: seq<string>)
    ensures TagScore(e.tags, terms + terms) == TagScore(e.tags, terms)
    ensures TermScore(terms + terms, Lower(e.title), TitleWeight)
              == 2 * TermScore(terms, Lower(e.title), TitleWeight)
    ensures TermScore(terms + terms, Lower(e.content), ContentWeight)
              == 2 * TermScore(terms, Lower(e.content), ContentWeight)
  {
    TagScoreSameMatches(e.tags, terms, terms + terms);
    TermScoreAppend(terms, terms, Lower(e.title), TitleWeight);
    TermScoreAppend(terms, terms, Lower(e.content), ContentWeight);
  }

  lemma {:induction false} TagScoreSameMatches(tags: seq<string>, a: seq<string>, b: seq<string>)
    requires forall t :: t in a <==> t in b
    ensures TagScore(tags, a) == TagScore(tags, b)
    decreases |tags|
  {
    if tags != [] {
      TagScoreSameMatches(tags[1..], a, b);
      var tag := tags[0];
      if TagMatches(tag, a) {
        var i :| 0 <= i < |a| && TagTermMatch(tag, a[i]);
        assert a[i] in b;
      }
      if TagMatches(tag, b) {
        var i :| 0 <= i < |b| && TagTermMatch(tag, b[i]);
        assert b[i] in a;
      }
    }
  }

  /** Term points add up over concatenated term lists. */
  lemma {:induction false} TermScoreAppend(a: seq<string>, b: seq<string>, text: string, weight: nat)
    ensures TermScore(a + b, text, weight) == TermScore(a, text, weight) + TermScore(b, text, weight)
    decreases |a|
  {
    if a == [] {
      assert a + b == b;
    } else {
      assert (a + b)[1..] == a[1..] + b;
      TermScoreAppend(a[1..], b, text, weight);
    }
  }

  // ---------------------------------------------------------------------
  // Relevant entries

  /** The copy of an entry that carries its score. */
  function ScoredBy(terms: seq<string>): Entry -> Hit {
    e => Hit(e, Some(Score(e, terms)))
  }

  predicate Positive(h: Hit) {
    Key(h) > 0
  }

  /** The entries scoring above zero, in knowledge-base order, each paired
      with its score. */
  function Relevant(kb: seq<Entry>, terms: seq<string>): (r: seq<Hit>)
    ensures |r| <= |kb|
    ensures forall i :: 0 <= i < |r| ==>
              r[i].entry in kb && r[i].matchScore == Some(Score(r[i].entry, terms)) && Key(r[i]) > 0
  {
    var scored := Map(kb, ScoredBy(terms));
    var r := Filter(scored, Positive);
    assert forall i :: 0 <= i < |r| ==> r[i] in scored;
    r
  }

  /** Every entry that scores above zero is among the relevant ones. */
  lemma RelevantComplete(kb: seq<Entry>, terms: seq<string>, e: Entry)
    requires e in kb && Score(e, terms) > 0
    ensures Hit(e, Some(Score(e, terms))) in Relevant(kb, terms)
  {
    var scored := Map(kb, ScoredBy(terms));
    var j :| 0 <= j < |kb| && kb[j] == e;
    assert scored[j] == Hit(e, Some(Score(e, terms)));
    FilterMultiset(scored, Positive);
    assert multiset(scored)[scored[j]] > 0;
  }

  /** Relevance is decided entry by entry, so it keeps the knowledge-base
      order: the relevant entries of two concatenated lists are those of the
      first followed by those of the second. */
  lemma RelevantAppend(a: seq<Entry>, b: seq<Entry>, terms: seq<string>)
    ensures Relevant(a + b, terms) == Relevant(a, terms) + Relevant(b, terms)
  {
    MapAppend(a, b, ScoredBy(terms));
    FilterAppend(Map(a, ScoredBy(terms)), Map(b, ScoredBy(terms)), Positive);
  }
}
