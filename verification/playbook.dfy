/** How `KnowledgeBaseAgent._parse_playbook` turns a playbook file into a
    knowledge-base entry: its id, link and tags. The title and summary come
    from regular-expression matches on the file and are parameters here. */
module Playbook {
  import opened Seqs
  import opened Text
  import opened Scoring

  const MdSuffix: string := ".md"

  /** Words that become tags when the playbook text mentions them. They are
      already lower case, so the source's `keyword.lower()` is the keyword. */
  const Keywords: seq<string> :=
    ["memory", "cpu", "disk", "network", "database", "api", "error", "timeout"]

  const PlaybookLinkPrefix: string := "@AITinkerers/data/playbooks/"

  /** `filename.replace('.md', '')`. */
  function Stem(filename: string): (r: string)
    ensures |r| <= |filename|
  {
    RemoveAll(filename, MdSuffix)
  }

  /** A tag as the source stores it: non-empty, without whitespace at
      either end, and without upper-case letters. */
  predicate CleanTag(t: string) {
    && t != []
    && !IsSpace(t[0]) && !IsSpace(t[|t| - 1])
    && NoUpper(t)
  }

  /** `tag.strip().lower()` for every piece whose stripped form is not empty,
      in order. */
  function PieceTags(pieces: seq<string>): (r: seq<string>)
    ensures |r| <= |pieces|
    ensures forall i :: 0 <= i < |r| ==> CleanTag(r[i])
  {
    if pieces == [] then []
    else
      var p := Strip(pieces[0]);
      LowerChars(p);
      (if p != [] then [Lower(p)] else []) + PieceTags(pieces[1..])
  }

  /** The tags taken from the file name: its stem split at every `-`. */
  function FilenameTags(filename: string): seq<string> {
    PieceTags(SplitOn(Stem(filename), '-'))
  }

  /** The keyword loop: each keyword found in `text` and not yet a tag is
      appended, in keyword order. */
  function AddKeywords(tags: seq<string>, kws: seq<string>, text: string): seq<string>
    decreases |kws|
  {
    if kws == [] then tags
    else
      var k := kws[0];
      var next := if IsSubstring(k, text) && k !in tags then tags + [k] else tags;
      AddKeywords(next, kws[1..], text)
  }

  /** The keyword loop keeps the tags it started with, adds only mentioned
      keywords that are not yet there, and adds every mentioned keyword. */
  lemma AddKeywordsFacts(tags: seq<string>, kws: seq<string>, text: string)
    ensures IsPrefix(tags, AddKeywords(tags, kws, text))
    ensures forall i :: |tags| <= i < |AddKeywords(tags, kws, text)| ==>
              && AddKeywords(tags, kws, text)[i] in kws
              && IsSubstring(AddKeywords(tags, kws, text)[i], text)
              && AddKeywords(tags, kws, text)[i] !in AddKeywords(tags, kws, text)[..i]
    ensures forall k :: k in kws && IsSubstring(k, text) ==> k in AddKeywords(tags, kws, text)
  {
    AddKeywordsKeeps(tags, kws, text);
    AddKeywordsAdded(tags, kws, text);
    AddKeywordsComplete(tags, kws, text);
  }

  lemma {:induction false} AddKeywordsKeeps(tags: seq<string>, kws: seq<string>, text: string)
    ensures IsPrefix(tags, AddKeywords(tags, kws, text))
    decreases |kws|
  {
    if kws != [] {
      var k := kws[0];
      var next := if IsSubstring(k, text) && k !in tags then tags + [k] else tags;
      AddKeywordsKeeps(next, kws[1..], text);
      assert next[..|tags|] == tags;
    }
  }

  lemma {:induction false} AddKeywordsAdded(tags: seq<string>, kws: seq<string>, text: string)
    ensures forall i :: |tags| <= i < |AddKeywords(tags, kws, text)| ==>
              && AddKeywords(tags, kws, text)[i] in kws
              && IsSubstring(AddKeywords(tags, kws, text)[i], text)
              && AddKeywords(tags, kws, text)[i] !in AddKeywords(tags, kws, text)[..i]
    decreases |kws|
  {
    if kws != [] {
      var k := kws[0];
      var next := if IsSubstring(k, text) && k !in tags then tags + [k] else tags;
      AddKeywordsAdded(next, kws[1..], text);
      AddKeywordsKeeps(next, kws[1..], text);
      var r := AddKeywords(next, kws[1..], text);
      forall i | |tags| <= i < |r|
        ensures r[i] in kws && IsSubstring(r[i], text) && r[i] !in r[..i]
      {
        if i >= |next| {
          assert r[i] in kws[1..];
        } else {
          assert r[i] == next[i] == k;
          assert r[..i] == tags;
        }
      }
    }
  }

  lemma {:induction false} AddKeywordsComplete(tags: seq<string>, kws: seq<string>, text: string)
    ensures forall k :: k in kws && IsSubstring(k, text) ==> k in AddKeywords(tags, kws, text)
    decreases |kws|
  {
    if kws != [] {
      var k := kws[0];
      var next := if IsSubstring(k, text) && k !in tags then tags + [k] else tags;
      AddKeywordsComplete(next, kws[1..], text);
      AddKeywordsKeeps(next, kws[1..], text);
      var r := AddKeywords(next, kws[1..], text);
      if IsSubstring(k, text) {
        assert k in next;
        var j :| 0 <= j < |next| && next[j] == k;
        assert r[j] == k;
      }
      assert forall k' :: k' in kws ==> k' == k || k' in kws[1..];
    }
  }

  /** The tags of a playbook: file-name tags, then keywords the lower-cased
      text mentions. */
  function PlaybookTags(filename: string, content: string): seq<string> {
    AddKeywords(FilenameTags(filename), Keywords, Lower(content))
  }

  /** The entry `_parse_playbook` returns for a file it could read. */
  function ParsePlaybook(filename: string, content: string, title: string, summary: string): (e: Entry)
    ensures e.id == "kb-" + Stem(filename)
    ensures e.link == PlaybookLinkPrefix + filename
    ensures e.title == title && e.content == summary && e.fullContent == Some(content)
    ensures IsPrefix(FilenameTags(filename), e.tags)
  {
    AddKeywordsFacts(FilenameTags(filename), Keywords, Lower(content));
    Entry("kb-" + Stem(filename), title, summary, Some(content),
          PlaybookLinkPrefix + filename, PlaybookTags(filename, content))
  }

  /** Every tag of a parsed playbook is non-empty, stripped and lower case. */
  lemma ParsedTagsClean(filename: string, content: string, title: string, summary: string)
    ensures var tags := ParsePlaybook(filename, content, title, summary).tags;
            forall i :: 0 <= i < |tags| ==> CleanTag(tags[i])
  {
    KeywordsClean();
    AddKeywordsClean(FilenameTags(filename), Keywords, Lower(content));
  }

  lemma KeywordsClean()
    ensures forall k :: k in Keywords ==> CleanTag(k)
  {
  }

  /** The keyword loop adds only clean tags when given clean keywords. */
  lemma AddKeywordsClean(tags: seq<string>, kws: seq<string>, text: string)
    requires forall i :: 0 <= i < |tags| ==> CleanTag(tags[i])
    requires forall k :: k in kws ==> CleanTag(k)
    ensures forall i :: 0 <= i < |AddKeywords(tags, kws, text)| ==>
              CleanTag(AddKeywords(tags, kws, text)[i])
  {
    var r := AddKeywords(tags, kws, text);
    AddKeywordsFacts(tags, kws, text);
    forall i | 0 <= i < |r|
      ensures CleanTag(r[i])
    {
      if i < |tags| {
        assert r[i] == tags[i];
      } else {
        assert r[i] in kws;
      }
    }
  }

  /** A keyword is a tag of a parsed playbook exactly when the file name
      yields it or the lower-cased text mentions it. */
  lemma KeywordTagIff(filename: string, content: string, title: string, summary: string, k: string)
    requires k in Keywords
    ensures k in ParsePlaybook(filename, content, title, summary).tags <==>
              k in FilenameTags(filename) || IsSubstring(k, Lower(content))
  {
    AddKeywordsIff(FilenameTags(filename), Keywords, Lower(content), k);
  }

  /** The keyword loop adds a keyword exactly when the text mentions it. */
  lemma AddKeywordsIff(tags: seq<string>, kws: seq<string>, text: string, k: string)
    requires k in kws
    ensures k in AddKeywords(tags, kws, text) <==> k in tags || IsSubstring(k, text)
  {
    var r := AddKeywords(tags, kws, text);
    AddKeywordsFacts(tags, kws, text);
    if k in r {
      var i :| 0 <= i < |r| && r[i] == k;
      if i < |tags| {
        assert tags[i] == k;
      }
    }
    if k in tags {
      var i :| 0 <= i < |tags| && tags[i] == k;
      assert r[i] == k;
    }
  }

  /** No element occurs twice. */
  predicate Distinct(s: seq<string>) {
    forall i, j :: 0 <= i < j < |s| ==> s[i] != s[j]
  }

  /** No tag appears twice when the file name yields no repeated tag: the
      keyword loop never adds a keyword that is already there. */
  lemma TagsDistinct(filename: string, content: string, title: string, summary: string)
    requires Distinct(FilenameTags(filename))
    ensures Distinct(ParsePlaybook(filename, content, title, summary).tags)
  {
    AddKeywordsDistinct(FilenameTags(filename), Keywords, Lower(content));
  }

  lemma AddKeywordsDistinct(tags: seq<string>, kws: seq<string>, text: string)
    requires Distinct(tags)
    ensures Distinct(AddKeywords(tags, kws, text))
  {
    var r := AddKeywords(tags, kws, text);
    AddKeywordsFacts(tags, kws, text);
    forall i, j | 0 <= i < j < |r|
      ensures r[i] != r[j]
    {
      if j >= |tags| {
        assert r[i] in r[..j];
      } else {
        assert r[i] == tags[i] && r[j] == tags[j];
      }
    }
  }

  /** For a playbook file `stem + ".md"` whose stem has no dot, the entry id
      is `kb-` followed by the stem. */
  lemma PlaybookIdOfFile(stem: string)
    requires '.' !in stem
    ensures Stem(stem + MdSuffix) == stem
  {
    forall i | 0 <= i < |stem|
      ensures !IsPrefix(MdSuffix, (stem + MdSuffix)[i..])
    {
      assert (stem + MdSuffix)[i..][0] == stem[i];
    }
    RemoveTrailing(stem, MdSuffix);
  }

  /** A file named by joining lower-case words with `-` and adding `.md`
      gets exactly those words, in order, as its file-name tags. */
  lemma FilenameTagsOfWords(ws: seq<string>)
    requires ws != []
    requires forall i :: 0 <= i < |ws| ==>
               && ws[i] != [] && NoSpace(ws[i]) && '-' !in ws[i] && '.' !in ws[i]
               && NoUpper(ws[i])
    ensures FilenameTags(JoinWith(ws, '-') + MdSuffix) == ws
  {
    JoinHasNoDot(ws);
    PlaybookIdOfFile(JoinWith(ws, '-'));
    SplitJoin(ws, '-');
    PieceTagsOfWords(ws);
  }

  lemma {:induction false} JoinHasNoDot(ws: seq<string>)
    requires forall i :: 0 <= i < |ws| ==> '.' !in ws[i]
    ensures '.' !in JoinWith(ws, '-')
    decreases |ws|
  {
    if |ws| > 1 {
      JoinHasNoDot(ws[1..]);
    }
  }

  lemma {:induction false} PieceTagsOfWords(ws: seq<string>)
    requires forall i :: 0 <= i < |ws| ==>
               && ws[i] != [] && NoSpace(ws[i])
               && NoUpper(ws[i])
    ensures PieceTags(ws) == ws
    decreases |ws|
  {
    if ws != [] {
      StripNoSpace(ws[0]);
      LowerOfLowerFree(ws[0]);
      PieceTagsOfWords(ws[1..]);
      assert [ws[0]] + ws[1..] == ws;
    }
  }
}
