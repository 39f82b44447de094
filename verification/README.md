# Ticket service and knowledge-base search, in Dafny

This project models the core of `logs_analyzer/services/ticket_service.py`. It covers two classes.

**`KnowledgeBaseAgent`.** It holds a list of playbook entries. `search_knowledge_base` picks the entries relevant to a ticket:

- it extracts lower-cased words from the ticket;
- it drops short words and stop words;
- it scores every entry by tag, title and summary matches;
- it keeps the entries scoring above zero and sorts them stably by descending score;
- it returns the first two;
- when nothing scores, it returns one entry chosen at random.

`_parse_playbook` derives an entry's id, link and tags from a playbook file.

**`TicketService`.** It keeps an in-memory list of tickets. It creates tickets from issue reports, mapping severity to priority and assigning the automated responder. It attaches search results to a stored ticket. It looks tickets up by id, appends to a ticket's list fields and marks tickets resolved.

Every operation is a pure function. A tracker operation takes the current ticket list and returns the new list together with the source's return value.

## Files

| file | contents |
|---|---|
| `seqs.dfy` | `Seqs`: `Option`, `Map`, `Filter` and generic facts about them |
| `text.dfy` | `Text`: the Python string operations the source uses (`lower`, `split()`, `in`, `strip`, `split(sep)`, `replace(x, "")`) |
| `scoring.dfy` | `Scoring`: entries, hits, search terms, points and the relevant-entry list |
| `ranking.dfy` | `Ranking`: the stable descending sort and the top-`n` cut |
| `search.dfy` | `KnowledgeSearch`: `search_knowledge_base` |
| `tickets.dfy` | `Tickets`: `TicketService` and sequences of tracker operations |
| `playbook.dfy` | `Playbook`: id, link and tags of a parsed playbook |

## Conventions

**Scores are doubled.** This keeps them natural numbers: a tag is worth 4, a title match 2 and a summary match 1. Doubling changes neither the `> 0` test nor the order of entries.

**Hits.** A search result is a `Hit`: the entry plus `Some(score)` for a ranked entry. The random fallback entry carries `None`, because the source returns it without a `match_score` key. `Key` is the sort key `x.get("match_score", 0)`.

**The random choice.** `random.choice` is the parameter `pick`, an index into the knowledge base.

**The ticket id.** The id is `"TICKET-"` followed by a `token` parameter. The token stands for the first eight characters of a random UUID.

**List fields.** A ticket's list-valued fields live in the map `lists`. `resolution_output` is one of them, and so is any field `append_to_ticket` creates.

**Strings.** Strings are `seq<char>`. `lower` maps ASCII `A`–`Z` only. Whitespace for `split()` and `strip()` is exactly the set of characters Python's `str.isspace` accepts.

**Two behaviours of the code worth knowing:**

- Tags are compared with the lower-cased terms without lower-casing the tag, so the tag test is case-sensitive.
- A tag earns its points once, however many terms match it (`if any(...)`).

## Model

| member | source | states |
|---|---|---|
| Text.LowerChars | logs_analyzer/services/ticket_service.py:140-148 | `lower()` works per character: no upper-case letter remains, whitespace stays where it was, only upper-case letters change |
| Text.LowerAppend | logs_analyzer/services/ticket_service.py:247 | lower-casing distributes over concatenation |
| Text.Words | logs_analyzer/services/ticket_service.py:140-148 | every word `split()` yields is non-empty and contains no whitespace |
| Text.WordsKeepAllText | logs_analyzer/services/ticket_service.py:140-148 | `split()` loses no non-whitespace character: the words concatenated are the input with whitespace removed |
| Text.WordsOfJoin | logs_analyzer/services/ticket_service.py:140-148 | splitting a space-joined list of whitespace-free words gives that list back |
| Text.WordsSplitAtSpace | logs_analyzer/services/ticket_service.py:247 | a whitespace character splits the words of a string into the words before it and the words after it |
| Text.IsSubstringIffOccurs | logs_analyzer/services/ticket_service.py:164 | the scanning `in` test holds exactly when the pattern occurs at some position |
| Text.Strip | logs_analyzer/services/ticket_service.py:66-67 | `strip()` returns a substring with no whitespace at either end, cut only at whitespace; it is empty exactly when the input is all whitespace |
| Text.SplitOn | logs_analyzer/services/ticket_service.py:65 | `split('-')` yields at least one piece, and no piece contains the separator |
| Text.JoinSplit | logs_analyzer/services/ticket_service.py:65 | joining the pieces of `split(sep)` with `sep` gives back the input |
| Text.SplitJoin | logs_analyzer/services/ticket_service.py:65 | splitting a join of separator-free pieces gives back the pieces |
| Text.RemoveAll | logs_analyzer/services/ticket_service.py:65 | `replace('.md', '')` never lengthens a string and leaves a string without the pattern unchanged |
| Text.RemoveTrailing | logs_analyzer/services/ticket_service.py:79 | deleting the pattern from `stem + pattern` gives `stem` when no occurrence starts inside `stem` |
| Scoring.ExtractTerms | logs_analyzer/services/ticket_service.py:136-148 | the extracted words are non-empty, whitespace-free and lower case; a ticket with none of the four fields yields none |
| Scoring.ExtractTermsKeepAllText | logs_analyzer/services/ticket_service.py:136-148 | the extracted words, put back together, are exactly the non-whitespace characters of the lower-cased present fields, in the order title, description, issue type, service |
| Text.WordsNoUpper | logs_analyzer/services/ticket_service.py:140-148 | splitting a string that has no upper-case letter yields words that have none either |
| Scoring.SearchTerms | logs_analyzer/services/ticket_service.py:153 | every filtered term is longer than three characters and not a stop word |
| Scoring.SearchTermsKeepOrderAndCount | logs_analyzer/services/ticket_service.py:153 | filtering keeps the kept words in order and with their multiplicity, and drops every other word |
| Scoring.TagScore | logs_analyzer/services/ticket_service.py:162-165 | tag points are a multiple of the tag weight, at most one weight per tag, and positive exactly when some tag matches some term |
| Scoring.TermScore | logs_analyzer/services/ticket_service.py:167-177 | title or summary points are at most one weight per term, and positive exactly when some term occurs in the text |
| Scoring.Score | logs_analyzer/services/ticket_service.py:159-177 | an entry's score is bounded by its tag and term counts, and positive exactly when a tag, title or summary match exists |
| Scoring.TagScoreCountsTags | logs_analyzer/services/ticket_service.py:162-165 | tag points equal the weight times the number of matching tags |
| Scoring.TermScoreCountsTerms | logs_analyzer/services/ticket_service.py:167-177 | title and summary points equal the weight times the number of matching terms, repeats included |
| Scoring.RepeatedTerms | logs_analyzer/services/ticket_service.py:159-177 | repeating the term list leaves tag points unchanged and doubles title and summary points |
| Scoring.TermScoreAppend | logs_analyzer/services/ticket_service.py:167-177 | term points add up over concatenated term lists |
| Scoring.TagScoreSameMatches | logs_analyzer/services/ticket_service.py:162-165 | tag points depend only on which terms are present, not on how often |
| Scoring.Relevant | logs_analyzer/services/ticket_service.py:158-183 | each relevant hit is a knowledge-base entry paired with its exact, positive score |
| Scoring.RelevantComplete | logs_analyzer/services/ticket_service.py:180-183 | every entry scoring above zero is among the relevant hits |
| Scoring.RelevantAppend | logs_analyzer/services/ticket_service.py:158-183 | relevance is decided per entry and keeps knowledge-base order |
| Ranking.Insert | logs_analyzer/services/ticket_service.py:194 | insertion adds exactly one element and loses none |
| Ranking.InsertSorted | logs_analyzer/services/ticket_service.py:194 | inserting into a descending list keeps it descending |
| Ranking.SortByScore | logs_analyzer/services/ticket_service.py:194 | the sort is a permutation of its input, ordered by descending score |
| Ranking.InsertBeforeTies | logs_analyzer/services/ticket_service.py:194 | an inserted hit goes in front of every hit of its own score |
| Ranking.SortIsStable | logs_analyzer/services/ticket_service.py:194 | for every score, the hits of that score keep their original relative order |
| Ranking.Top | logs_analyzer/services/ticket_service.py:194-195 | the first `n` after sorting: `min(n, len)` hits, descending, all taken from the input |
| Ranking.TopIsBest | logs_analyzer/services/ticket_service.py:194-195 | no hit left out of the top `n` outscores a hit inside it |
| Ranking.TopKeepsTieOrder | logs_analyzer/services/ticket_service.py:194-195 | among the top `n`, the hits of each score are the first hits of that score in input order |
| KnowledgeSearch.RankEntries | logs_analyzer/services/ticket_service.py:193-195 | the ranked result has at most two hits, sorted, each a knowledge-base entry with its exact positive score |
| KnowledgeSearch.SearchKnowledgeBase | logs_analyzer/services/ticket_service.py:123-198 | at most two entries, all from the knowledge base; an empty knowledge base gives nothing; no relevant entry gives exactly one unscored entry; otherwise the best `min(2, relevant)` scored hits, descending |
| KnowledgeSearch.FallbackReachesEveryEntry | logs_analyzer/services/ticket_service.py:187-191 | when nothing scores, every knowledge-base entry is the fallback result for some random choice |
| KnowledgeSearch.ResultIsBest | logs_analyzer/services/ticket_service.py:193-195 | no relevant entry left out of the result outscores one in it |
| KnowledgeSearch.ResultKeepsTieOrder | logs_analyzer/services/ticket_service.py:193-195 | returned entries of equal score are the first such relevant entries, in knowledge-base order |
| Tickets.Priority | logs_analyzer/services/ticket_service.py:306-314 | each priority is produced exactly by its severity; every other severity gives `P2 - Medium` |
| Tickets.FirstIndex | logs_analyzer/services/ticket_service.py:320-325 | the lookup finds the first ticket with the id, and finds nothing exactly when no ticket has it |
| Tickets.GetTicket | logs_analyzer/services/ticket_service.py:320-325 | `get_ticket` returns a ticket exactly when one has the id, and then the first such ticket |
| Tickets.CreateTicket | logs_analyzer/services/ticket_service.py:228-265 | the new ticket is appended after the existing ones, with the prefixed id, the composed title, the mapped priority, status open, the automated handler and empty lists |
| Tickets.CreateWithFreshId | logs_analyzer/services/ticket_service.py:242-259 | a ticket created under an unused id is found by that id, and ids stay unique |
| Tickets.ListedInCreationOrder | logs_analyzer/services/ticket_service.py:316-318 | `get_tickets` lists tickets in creation order |
| Tickets.CreatedTicketTerms | logs_analyzer/services/ticket_service.py:247-248 | the search words of a new ticket are the words of severity, issue type, "in", service, description, then issue type and service again |
| Tickets.TitleWords | logs_analyzer/services/ticket_service.py:247 | the words of a composed title are the words of its parts around the word "in" |
| Tickets.AugmentTicketWithKb | logs_analyzer/services/ticket_service.py:267-297 | no input gives nothing; an unknown id returns the input and changes nothing; otherwise only the first ticket with the id changes, its `knowledge_base` becomes the search result (at most two hits), and the updated ticket is returned |
| Tickets.AppendToTicket | logs_analyzer/services/ticket_service.py:327-335 | reports success exactly when the id is known; on failure nothing changes; on success only the named list of the first match grows by the content, created when missing |
| Tickets.MarkTicketResolved | logs_analyzer/services/ticket_service.py:337-342 | reports success exactly when the id is known; on failure nothing changes; on success only the first match's status becomes resolved |
| Tickets.MarkResolvedIdempotent | logs_analyzer/services/ticket_service.py:337-342 | resolving twice gives the same result and list as resolving once |
| Tickets.AppendTwice | logs_analyzer/services/ticket_service.py:327-335 | two appends to one field accumulate in call order |
| Tickets.StepFrame | logs_analyzer/services/ticket_service.py:228-342 | one operation keeps every ticket in place with its id, never reopens a resolved ticket, and only creation adds a ticket |
| Tickets.RunInvariants | logs_analyzer/services/ticket_service.py:228-342 | over any sequence of operations tickets are never removed or moved, keep their ids and stay resolved; fresh creation ids keep ids unique |
| Tickets.StepKeepsUniqueIds | logs_analyzer/services/ticket_service.py:242-259 | one operation with a fresh creation id keeps ids unique |
| Playbook.Stem | logs_analyzer/services/ticket_service.py:79 | the stem is never longer than the file name |
| Playbook.PieceTags | logs_analyzer/services/ticket_service.py:65-67 | file-name tags are at most one per piece, each non-empty, stripped and lower case |
| Playbook.ParsePlaybook | logs_analyzer/services/ticket_service.py:63-84 | the entry carries `kb-` plus the stem as id, the playbook link, the given title, summary and text, and tags that start with the file-name tags |
| Playbook.AddKeywordsFacts | logs_analyzer/services/ticket_service.py:70-73 | the keyword loop keeps the earlier tags, adds only mentioned keywords not yet present, and adds every mentioned keyword |
| Playbook.AddKeywordsIff | logs_analyzer/services/ticket_service.py:70-73 | a keyword ends up in the tags exactly when it was already there or the text mentions it |
| Playbook.ParsedTagsClean | logs_analyzer/services/ticket_service.py:63-73 | every tag of a parsed playbook is non-empty, stripped and lower case |
| Playbook.KeywordTagIff | logs_analyzer/services/ticket_service.py:70-73 | a keyword is a tag exactly when the file name yields it or the lower-cased text mentions it |
| Playbook.TagsDistinct | logs_analyzer/services/ticket_service.py:70-73 | no tag repeats when the file name yields no repeated tag |
| Playbook.PlaybookIdOfFile | logs_analyzer/services/ticket_service.py:79 | for `stem + ".md"` with a dot-free stem, the id is `kb-` followed by the stem |
| Playbook.FilenameTagsOfWords | logs_analyzer/services/ticket_service.py:63-67 | a file named by lower-case words joined with `-` gets exactly those words as tags |

## Left out

- Loading playbooks from disk, the placeholder entries used when none load, and the per-file error handling: file-system input, modelled as the knowledge-base list given to the search.
- The title and summary of a playbook: regular-expression extraction and `str.title()` are not modelled. `ParsePlaybook` takes both as parameters.
- `random.choice`: modelled as the index parameter `pick`.
- The UUID behind ticket ids: modelled as the `token` parameter. The `created_at` timestamp is omitted.
- Logging (`print`) has no effect on results and is left out.
- The unused engineer roster and `_assign_engineer`: every ticket goes to the automated responder.
- Lower-casing beyond ASCII letters: `lower()` maps only `A`–`Z`.
- References: the source returns and mutates the stored dictionaries themselves. The model returns values, and every mutation is stated on the new list.
- Missing keys: `entry.get("tags", [])` and similar defaults for entries lacking a key are not modelled. Every entry has all fields.
- Tickets.AppendToTicket: requires `field` not to be one of the record's own keys (`id`, `title`, `status`, …). Appending to a non-list key would fail or corrupt the record in the source, and such fields are not lists in the model.
- Tickets.AugmentTicketWithKb: the input is a complete ticket record or nothing. Partial dictionaries are outside the model: the source would search with the keys present and still store the result on the ticket with that id, or raise `KeyError` when `id` is missing.
- Tickets.CreateTicket: an issue missing `severity`, `issue_type`, `service` or `description` makes the source raise `KeyError` before anything is appended. The `Issue` type always has all four, so that failure is not modelled.
- KnowledgeSearch.SearchKnowledgeBase: the fallback entry is returned without a score (`matchScore` is `None`), as in the source; it is not a copy.
- Scoring.Score: the score is twice the source's `match_score`, so that it stays a natural number.
